/** CommandHandlerService: commands received as telegrams, and their acknowledgements. */
module CommandHandler {
  import opened Prelude
  import opened Telegrams
  import opened TelegramParser
  import opened TelegramCatalog
  import opened TelegramValidator
  import opened Messages
  import opened SorterState
  import opened SorterEngine
  import opened SorterRuns
  import Pid

  const REQUEST := "request"
  const INDUCTION_NO := "inductionNo"
  const OVERFLOW_CHUTE_1 := "overflowChute1"
  const OVERFLOW_CHUTE_2 := "overflowChute2"
  const MAX_RECIRCULATION := "maxRecirculation"
  const RESET_MODULE := "resetModule"

  /** The sorter after a telegram. */
  function Commanded(s: State, t: Telegram): State {
    var d := t.data;
    match t.header.telegramNo
    case 100 => SetSorterControl(s, Lookup(d, REQUEST))
    case 110 => SetInductionControl(s, Lookup(d, INDUCTION_NO), Lookup(d, REQUEST))
    case 120 => SetInductionMode(s, Lookup(d, INDUCTION_NO), Lookup(d, REQUEST))
    case 140 => SetResetRequest(s)
    case _ => s
  }

  /** The acknowledgement of a telegram, if it is a command. */
  function Answer(s: State, t: Telegram): Option<Message> {
    var d := t.data;
    match t.header.telegramNo
    case 100 => Some(SorterAck(Lookup(d, REQUEST), 0))
    case 110 => Some(InductionAnswer(s, Lookup(d, INDUCTION_NO), Lookup(d, REQUEST)))
    case 120 => Some(ModeAck(Lookup(d, INDUCTION_NO), Lookup(d, REQUEST)))
    case 130 =>
      Some(OverflowAck(Lookup(d, OVERFLOW_CHUTE_1), Lookup(d, OVERFLOW_CHUTE_2), Lookup(d, MAX_RECIRCULATION), 0))
    case 140 => Some(ResetAck(Lookup(d, RESET_MODULE)))
    case _ => None
  }

  class CommandHandlerService {
    const sorterEngine: SorterEngineService

    constructor (engine: SorterEngineService)
      ensures sorterEngine == engine
    {
      sorterEngine := engine;
    }

    /** A field missing from the telegram is undefined in the original: it equals no
        number that is compared with it, and the builder writes zero for it. */
    method HandleTelegram(t: Telegram) returns (ack: Option<Message>)
      requires Numbered(sorterEngine.View())
      modifies sorterEngine
      ensures sorterEngine.View() == Commanded(old(sorterEngine.View()), t)
      ensures ack == Answer(old(sorterEngine.View()), t)
    {
      var d, no := t.data, t.header.telegramNo;
      ack := None;
      if no == 100 {
        var m := sorterEngine.ControlSorter(Lookup(d, REQUEST));
        ack := Some(m);
      } else if no == 110 {
        var m := sorterEngine.ControlInduction(Lookup(d, INDUCTION_NO), Lookup(d, REQUEST));
        ack := Some(m);
      } else if no == 120 {
        var m := sorterEngine.ControlMode(Lookup(d, INDUCTION_NO), Lookup(d, REQUEST));
        ack := Some(m);
      } else if no == 130 {
        var most := Lookup(d, MAX_RECIRCULATION);
        ack := Some(OverflowAck(Lookup(d, OVERFLOW_CHUTE_1), Lookup(d, OVERFLOW_CHUTE_2), most, 0));
      } else if no == 140 {
        var m := sorterEngine.ControlReset(Lookup(d, RESET_MODULE));
        ack := Some(m);
      }
    }
  }

  // ---- what a received telegram can hold ----

  predicate AllShort(data: Data) {
    forall name :: name in data ==> Short(data[name])
  }

  /** Two-byte fields are read as numbers below 65536. */
  lemma {:induction false} ReadFieldsAreShort(buffer: Bytes, pos: nat, fields: seq<Field>)
    requires forall i :: 0 <= i < |fields| ==> fields[i].size <= 2
    requires ReadFields(buffer, pos, fields).Some?
    ensures AllShort(ReadFields(buffer, pos, fields).value)
    decreases |fields|
  {
    if fields != [] {
      PowerSmall();
      ReadFieldsAreShort(buffer, pos + fields[0].size, fields[1..]);
    }
  }

  predicate IsCommand(no: int) {
    no == 100 || no == 110 || no == 120 || no == 130 || no == 140
  }

  lemma CommandDefinition(no: int)
    requires IsCommand(no)
    ensures no in Catalog() && forall i :: 0 <= i < |Catalog()[no].fields| ==> Catalog()[no].fields[i].size <= 2
  {
    assert SMC_TO_PLC[2] == TELEGRAM_100 && SMC_TO_PLC[4] == TELEGRAM_110 && SMC_TO_PLC[6] == TELEGRAM_120;
    assert SMC_TO_PLC[8] == TELEGRAM_130 && SMC_TO_PLC[10] == TELEGRAM_140;
    CatalogHolds(if no == 100 then TELEGRAM_100 else if no == 110 then TELEGRAM_110 else if no == 120 then TELEGRAM_120
                 else if no == 130 then TELEGRAM_130 else TELEGRAM_140);
  }

  lemma CommandsAreShort(buffer: Bytes)
    requires AutoParse(buffer, Catalog()).Some?
    requires IsCommand(AutoParse(buffer, Catalog()).value.header.telegramNo)
    ensures AllShort(AutoParse(buffer, Catalog()).value.data)
  {
    AutoParseReports(buffer, Catalog());
    CommandDefinition(TelegramNo(buffer));
    ReadFieldsAreShort(buffer, HEADER_SIZE, Catalog()[TelegramNo(buffer)].fields);
  }

  // ---- what an acknowledgement says ----

  /** The identifying fields of the request, in the acknowledgement numbered one higher. */
  predicate Echoes(request: Telegram, ack: Telegram) {
    var r, a := request.data, ack.data;
    && ack.header.telegramNo == request.header.telegramNo + 1
    && match request.header.telegramNo
       case 100 => Lookup(a, REQUEST) == Lookup(r, REQUEST)
       case 110 => Lookup(a, INDUCTION_NO) == Lookup(r, INDUCTION_NO)
       case 120 => Lookup(a, INDUCTION_NO) == Lookup(r, INDUCTION_NO) && Lookup(a, REQUEST) == Lookup(r, REQUEST)
       case 130 =>
         && Lookup(a, OVERFLOW_CHUTE_1) == Lookup(r, OVERFLOW_CHUTE_1)
         && Lookup(a, OVERFLOW_CHUTE_2) == Lookup(r, OVERFLOW_CHUTE_2)
         && Lookup(a, MAX_RECIRCULATION) == Lookup(r, MAX_RECIRCULATION)
       case _ => Lookup(a, RESET_MODULE) == Lookup(r, RESET_MODULE)
  }

  lemma AnswersAreEncodable(s: State, t: Telegram)
    requires AllShort(t.data)
    ensures Answer(s, t).Some? <==> IsCommand(t.header.telegramNo)
    ensures Answer(s, t).Some? ==> Encodable(Answer(s, t).value)
    ensures Answer(s, t).Some? ==> DefinitionOf(Answer(s, t).value).telegramNo == t.header.telegramNo + 1
  {
  }

  lemma ReadNumbers(t: Telegram)
    requires Read(t).Some?
    ensures DefinitionOf(Read(t).value).telegramNo == t.header.telegramNo
  {
  }

  /** An acknowledgement that reads as the answer echoes the request. */
  lemma AnswersEcho(s: State, request: Telegram, ack: Telegram)
    requires IsCommand(request.header.telegramNo)
    requires AllShort(request.data) && Read(ack) == Answer(s, request)
    ensures Echoes(request, ack)
  {
    AnswersAreEncodable(s, request);
    ReadNumbers(ack);
  }

  /** Whatever bytes arrive, in whatever state: a telegram is acknowledged exactly when it is
      a command. The acknowledgement can be built, passes the full validation, and is read
      back with the identifying fields of the request. */
  lemma AcknowledgementEchoesRequest(s: State, buffer: Bytes)
    requires AutoParse(buffer, Catalog()).Some?
    ensures var request := AutoParse(buffer, Catalog()).value;
      && (Answer(s, request).Some? <==> IsCommand(request.header.telegramNo))
      && (Answer(s, request).Some? ==>
            var frame := Encode(Answer(s, request).value);
            && frame.Some?
            && Accepted(frame.value, Catalog())
            && AutoParse(frame.value, Catalog()).Some?
            && Echoes(request, AutoParse(frame.value, Catalog()).value))
  {
    var request := AutoParse(buffer, Catalog()).value;
    if IsCommand(request.header.telegramNo) {
      CommandsAreShort(buffer);
      AnswersAreEncodable(s, request);
      var m := Answer(s, request).value;
      MessageRoundTrip(m);
      AnswersEcho(s, request, AutoParse(Encode(m).value, Catalog()).value);
    }
  }

  /** Nothing but this induction and what is sent differs. */
  ghost predicate OnlyInduction(s: State, t: State, no: int) {
    && t == s.(inductions := t.inductions, sent := t.sent)
    && |t.inductions| == |s.inductions|
    && forall i :: 0 <= i < |s.inductions| && i != no - 1 ==> t.inductions[i] == s.inductions[i]
  }

  /** The acknowledgement tells the truth: the sorter runs exactly when that was asked; an
      induction has the status reported, and is unknown exactly when reason 1 is given,
      which also leaves everything as it was. Overflow settings change nothing. */
  lemma AcknowledgementTellsState(s: State, t: Telegram)
    requires Shaped(s)
    ensures var after, no, request := Commanded(s, t), Lookup(t.data, "inductionNo"), Lookup(t.data, "request");
      && (t.header.telegramNo == 100 ==>
            Answer(s, t).value.reason == 0 && after.status == if request == 1 then Running else Stopped)
      && (t.header.telegramNo == 110 ==>
            var ack := Answer(s, t).value;
            && (ack.reason == 0 || (ack.reason == 1 && after == s))
            && (ack.reason == 1 <==> no < 1 || no > |s.inductions|) && (ack.reason == 1 ==> ack.status == 0)
            && (ack.reason == 0 ==>
                  && 1 <= no <= |after.inductions| && OnlyInduction(s, after, no)
                  && after.inductions[no - 1] == s.inductions[no - 1].(status := if request == 1 then On else Off)
                  && ack.status == if request == 1 then 1 else 0))
      && (t.header.telegramNo == 130 ==> Answer(s, t).value.reason == 0 && after == s)
      && (!IsCommand(t.header.telegramNo) ==> after == s)
  {
  }

  /** A mode command keys a known induction exactly when the request is 1, reports that, and
      changes nothing else; an unknown number changes nothing. */
  lemma ModeCommandTellsState(s: State, t: Telegram)
    requires Shaped(s) && t.header.telegramNo == 120
    ensures var after, no, request := Commanded(s, t), Lookup(t.data, "inductionNo"), Lookup(t.data, "request");
      if 1 <= no <= |s.inductions| then
        && OnlyInduction(s, after, no)
        && (after.inductions[no - 1].mode == Pid.Key <==> request == 1)
        && after.inductions[no - 1] == s.inductions[no - 1].(mode := after.inductions[no - 1].mode)
        && after.sent == s.sent + [Sending(ReceiveMcs, InductionModeReport(Amount(s.config.inductionCount), no,
                                                                           if request == 1 then 1 else 0))]
      else after == s
  {
  }

  /** A reset request ends an emergency and repairs every faulty induction. */
  lemma ResetCommandTellsState(s: State, t: Telegram)
    requires t.header.telegramNo == 140
    ensures var after := Commanded(s, t);
      && after == s.(status := after.status, inductions := after.inductions, sent := after.sent)
      && after.status == (if s.status == Emergency then Stopped else s.status)
      && |after.inductions| == |s.inductions|
      && forall i :: 0 <= i < |s.inductions| ==>
           after.inductions[i]
           == if s.inductions[i].status == Faulty then s.inductions[i].(status := Off) else s.inductions[i]
  {
  }
}
