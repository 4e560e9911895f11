/** The item telegrams of the virtual sorter against the events it emits. */
module SorterTelegrams {
  import opened Prelude
  import opened Messages
  import opened SorterState
  import opened SorterRuns
  import opened SorterItems
  import Pid

  /** What was sent about items, on any of their three channels. */
  function ItemSendings(sent: seq<Sending>): seq<Sending> {
    if sent == [] then []
    else
      var earlier, last := ItemSendings(sent[..|sent| - 1]), sent[|sent| - 1];
      if last.channel == ReceiveMcs then earlier else earlier + [last]
  }

  lemma ItemSendingsOfMore(sent: seq<Sending>, x: Sending)
    ensures ItemSendings(sent + [x]) == ItemSendings(sent) + (if x.channel == ReceiveMcs then [] else [x])
  {
    assert (sent + [x])[..|sent|] == sent;
  }

  // ---- what the telegrams must say ----

  /** Modes are told as numbers: keyed in is 1. */
  predicate ModeTold(mode: Pid.Mode, code: int) {
    code == if mode == Pid.Key then 1 else 0
  }

  /** A new item is announced with its own cell, induction, mode, PID and destination. */
  predicate Inducts(item: Item, m: Message) {
    && m.ItemInducted?
    && m.cellIndex == item.cellIndex && m.inductionNo == item.inductionNo && ModeTold(item.mode, m.mode)
    && m.pid == item.pid && m.destination == item.destination
  }

  /** The item's own numbers; without a reading no chute and no recirculation, else its
      destination, recirculated at most once. */
  predicate Discharges(item: Item, m: Message) {
    && m.ItemDischarged?
    && m.cellIndex == item.cellIndex && m.inductionNo == item.inductionNo && ModeTold(item.mode, m.mode)
    && ((m.chuteNumber == 0 && m.recirculationCount == 0)
        || (m.chuteNumber == item.destination && 0 <= m.recirculationCount <= 1))
  }

  /** The status that goes with chute and recirculation: recirculation or normal with a
      chute, else read failure. Only the chute of an item without destination says nothing
      about its reading. */
  predicate StatusFits(item: Item, chute: int, recirculation: int, status: int) {
    if recirculation == 1 then status == 1
    else if chute != 0 then status == 0
    else status == 2 || (status == 0 && item.destination == NO_NUMBER)
  }

  /** A confirmation repeats the discharge and reports the status that goes with it. */
  predicate Confirms(item: Item, m: Message, discharge: Message) {
    && m.ItemConfirmed? && discharge.ItemDischarged?
    && m.cellIndex == discharge.cellIndex && m.mode == discharge.mode
    && m.chuteNumber == discharge.chuteNumber && m.recirculationCount == discharge.recirculationCount
    && StatusFits(item, m.chuteNumber, m.recirculationCount, m.status)
  }

  ghost predicate DischargedAt(events: seq<Emitted>, j: nat, id: nat) {
    j < |events| && events[j] == Emitted(WasDischarged, id)
  }

  /** The i-th telegram says what the i-th event is about. */
  ghost predicate Says(objects: seq<Item>, events: seq<Emitted>, xs: seq<Sending>, i: nat)
    requires i < |events| == |xs|
  {
    var e, x := events[i], xs[i];
    && e.item < |objects|
    && match e.stage
       case WasInducted => x.channel == ReceiveInduct && Inducts(objects[e.item], x.message)
       case WasDischarged => x.channel == ReceiveDischarge && Discharges(objects[e.item], x.message)
       case WasConfirmed =>
         && x.channel == ReceiveConfirm
         && exists j: nat :: DischargedAt(events, j, e.item) && j < i
             && Confirms(objects[e.item], x.message, xs[j].message)
  }

  /** One telegram for every event, in the same order. */
  ghost predicate FollowEvents(objects: seq<Item>, events: seq<Emitted>, xs: seq<Sending>) {
    |xs| == |events| && forall i :: 0 <= i < |events| ==> Says(objects, events, xs, i)
  }

  /** The callback remembers what the discharge telegram of its item said. */
  ghost predicate Remembers(objects: seq<Item>, events: seq<Emitted>, xs: seq<Sending>, callback: Callback)
    requires callback.Confirm? && |xs| == |events|
  {
    && callback.item < |objects|
    && exists j: nat :: DischargedAt(events, j, callback.item)
        && RemembersOne(objects[callback.item], xs[j].message, callback)
  }

  predicate RemembersOne(item: Item, m: Message, callback: Callback)
    requires callback.Confirm?
  {
    && m.ItemDischarged? && m.chuteNumber == callback.chute && m.recirculationCount == callback.recirculation
    && StatusFits(item, callback.chute, callback.recirculation, DischargeCode(callback.noRead, callback.success))
  }

  ghost predicate CallbacksRemember(s: State) {
    && |ItemSendings(s.sent)| == |s.emitted|
    && forall k :: 0 <= k < |s.timers| && s.timers[k].Confirm? ==>
         Remembers(s.objects, s.emitted, ItemSendings(s.sent), s.timers[k])
  }

  ghost predicate Telling(s: State) {
    && FollowEvents(s.objects, s.emitted, ItemSendings(s.sent))
    && CallbacksRemember(s)
  }

  // ---- what changes and what does not ----

  /** Items keep everything but their status, and new ones only come at the end. */
  ghost predicate SameButStatus(before: seq<Item>, after: seq<Item>) {
    |before| <= |after|
    && forall i :: 0 <= i < |before| ==> after[i] == before[i].(status := after[i].status)
  }

  lemma SaysStill(objects: seq<Item>, events: seq<Emitted>, xs: seq<Sending>, i: nat,
                  objects': seq<Item>, events': seq<Emitted>, xs': seq<Sending>)
    requires i < |events| == |xs| && Says(objects, events, xs, i)
    requires SameButStatus(objects, objects') && events <= events' && xs <= xs' && |events'| == |xs'|
    ensures Says(objects', events', xs', i)
  {
    if events[i].stage == WasConfirmed {
      var j: nat :| DischargedAt(events, j, events[i].item) && j < i
        && Confirms(objects[events[i].item], xs[i].message, xs[j].message);
      assert DischargedAt(events', j, events'[i].item);
    }
  }

  lemma RemembersStill(objects: seq<Item>, events: seq<Emitted>, xs: seq<Sending>, callback: Callback,
                       objects': seq<Item>, events': seq<Emitted>, xs': seq<Sending>)
    requires callback.Confirm? && |xs| == |events| && Remembers(objects, events, xs, callback)
    requires SameButStatus(objects, objects') && events <= events' && xs <= xs' && |events'| == |xs'|
    ensures Remembers(objects', events', xs', callback)
  {
    var j: nat :| DischargedAt(events, j, callback.item)
        && RemembersOne(objects[callback.item], xs[j].message, callback);
    assert DischargedAt(events', j, callback.item);
  }

  /** One more event and the telegram that says it. */
  lemma OneMore(s: State, t: State, e: Emitted, x: Sending)
    requires Telling(s) && SameButStatus(s.objects, t.objects) && x.channel != ReceiveMcs
    requires t.emitted == s.emitted + [e] && t.sent == s.sent + [x] && t.timers == s.timers
    requires Says(t.objects, s.emitted + [e], ItemSendings(s.sent) + [x], |s.emitted|)
    ensures Telling(t)
  {
    ItemSendingsOfMore(s.sent, x);
    var xs := ItemSendings(s.sent);
    forall i | 0 <= i < |t.emitted| ensures Says(t.objects, t.emitted, xs + [x], i) {
      if i < |s.emitted| {
        SaysStill(s.objects, s.emitted, xs, i, t.objects, t.emitted, xs + [x]);
      }
    }
    forall k | 0 <= k < |t.timers| && t.timers[k].Confirm?
      ensures Remembers(t.objects, t.emitted, xs + [x], t.timers[k])
    {
      RemembersStill(s.objects, s.emitted, xs, t.timers[k], t.objects, t.emitted, xs + [x]);
    }
  }

  lemma SameTelling(s: State, t: State)
    requires Telling(s) && SameButStatus(s.objects, t.objects)
    requires t.emitted == s.emitted && ItemSendings(t.sent) == ItemSendings(s.sent)
    requires s.timers <= t.timers && forall k :: |s.timers| <= k < |t.timers| ==> !t.timers[k].Confirm?
    ensures Telling(t)
  {
    var xs := ItemSendings(s.sent);
    forall i | 0 <= i < |s.emitted| ensures Says(t.objects, t.emitted, xs, i) {
      SaysStill(s.objects, s.emitted, xs, i, t.objects, t.emitted, xs);
    }
    forall k | 0 <= k < |t.timers| && t.timers[k].Confirm? ensures Remembers(t.objects, t.emitted, xs, t.timers[k]) {
      assert t.timers[k] == s.timers[k];
      RemembersStill(s.objects, s.emitted, xs, s.timers[k], t.objects, t.emitted, xs);
    }
  }

  lemma SchedulingRemembers(s: State, callback: Callback)
    requires Telling(s) && (callback.Confirm? ==> Remembers(s.objects, s.emitted, ItemSendings(s.sent), callback))
    ensures Telling(Schedule(s, callback))
  {
  }

  // ---- operations ----

  lemma InductingTellsItem(s: State, i: nat, pick: nat)
    requires Telling(s) && i < |s.inductions|
    ensures Telling(InductItem(s, i, pick))
  {
    var ind := s.inductions[i];
    var generated := Pid.Next(s.pids, Pid.PidKey(ind.no, ind.mode));
    var t := s.(cellCounter := NextCell(s.cellCounter), pids := generated.1);
    if generated.0.Some? {
      AnnouncingTells(t, i, Made(t, ind, generated.0.value, pick));
    }
  }

  lemma AnnouncingTells(s: State, i: nat, item: Item)
    requires Telling(s) && i < |s.inductions|
    ensures Telling(Announce(File(s, i, item), |s.objects|))
  {
    var t, id, m := File(s, i, item), |s.objects|, InductedMessage(item);
    if Encodable(m) {
      var u := Send(t, ReceiveInduct, m).(emitted := t.emitted + [Emitted(WasInducted, id)]);
      OneMore(s, u, Emitted(WasInducted, id), Sending(ReceiveInduct, m));
      SchedulingRemembers(u, Discharge(id));
    } else {
      SameTelling(s, Announce(t, id));
    }
  }

  lemma DischargingTellsItem(s: State, id: nat, noRead: bool, sorted: bool)
    requires Telling(s) && id < |s.objects|
    ensures Telling(DischargeItem(s, id, noRead, sorted))
  {
    var item := s.objects[id];
    if item.status == InTransit {
      var success := !noRead && sorted;
      var chute := if noRead then 0 else item.destination;
      var recirculation := if !noRead && !success then 1 else 0;
      var t := Unloaded(s, id, chute, noRead, success);
      var m := ItemDischarged(item.cellIndex, item.inductionNo, ModeCode(item.mode), chute, recirculation);
      var u := Send(t, ReceiveDischarge, m).(emitted := t.emitted + [Emitted(WasDischarged, id)]);
      OneMore(s, u, Emitted(WasDischarged, id), Sending(ReceiveDischarge, m));
      ItemSendingsOfMore(s.sent, Sending(ReceiveDischarge, m));
      assert DischargedAt(u.emitted, |s.emitted|, id);
      SchedulingRemembers(u, Confirm(id, chute, recirculation, noRead, success));
    }
  }

  /** The confirmation of a callback that remembers is that of its discharge telegram. */
  lemma ConfirmingSays(s: State, objects: seq<Item>, callback: Callback)
    requires Telling(s) && callback.Confirm? && callback.item < |s.objects|
    requires Remembers(s.objects, s.emitted, ItemSendings(s.sent), callback)
    requires SameButStatus(s.objects, objects)
    ensures var item, id := s.objects[callback.item], callback.item;
      var m := ItemConfirmed(item.cellIndex, ModeCode(item.mode), callback.chute, callback.recirculation,
                             DischargeCode(callback.noRead, callback.success));
      Says(objects, s.emitted + [Emitted(WasConfirmed, id)], ItemSendings(s.sent) + [Sending(ReceiveConfirm, m)],
          |s.emitted|)
  {
    var xs, id := ItemSendings(s.sent), callback.item;
    var j: nat :| DischargedAt(s.emitted, j, id) && RemembersOne(s.objects[id], xs[j].message, callback);
    assert Says(s.objects, s.emitted, xs, j);
    assert DischargedAt(s.emitted + [Emitted(WasConfirmed, id)], j, id);
  }

  lemma ConfirmingTellsItem(s: State, callback: Callback)
    requires Telling(s) && callback.Confirm? && callback.item < |s.objects|
    requires Remembers(s.objects, s.emitted, ItemSendings(s.sent), callback)
    ensures var c := callback;
      Telling(ConfirmItem(s, c.item, c.chute, c.recirculation, c.noRead, c.success))
  {
    var item, id := s.objects[callback.item], callback.item;
    if item.status == Discharged {
      var t := ConfirmItem(s, id, callback.chute, callback.recirculation, callback.noRead, callback.success);
      ConfirmingSays(s, t.objects, callback);
      OneMore(s, t, Emitted(WasConfirmed, id), t.sent[|s.sent|]);
    }
  }

  lemma CallingTellsItem(s: State, callback: Callback, luck: Luck)
    requires Telling(s) && callback in s.timers
    ensures Telling(Call(s, callback, luck))
  {
    match callback
    case Induct(_, i) =>
      if i < |s.inductions| { InductingTellsItem(s, i, luck.pick); }
    case Discharge(id) =>
      if id < |s.objects| { DischargingTellsItem(s, id, luck.noRead, luck.sorted); }
    case Confirm(id, _, _, _, _) =>
      if id < |s.objects| { ConfirmingTellsItem(s, callback); }
  }

  // ---- operations that only report ----

  ghost predicate OnlyReports(s: State, t: State) {
    s.sent <= t.sent && forall i :: |s.sent| <= i < |t.sent| ==> t.sent[i].channel == ReceiveMcs
  }

  lemma {:induction false} ReportsAreNoItems(sent: seq<Sending>, reports: seq<Sending>)
    requires forall i :: 0 <= i < |reports| ==> reports[i].channel == ReceiveMcs
    ensures ItemSendings(sent + reports) == ItemSendings(sent)
    decreases |reports|
  {
    if reports == [] {
      assert sent + reports == sent;
    } else {
      var earlier, last := reports[..|reports| - 1], reports[|reports| - 1];
      ReportsAreNoItems(sent, earlier);
      ItemSendingsOfMore(sent + earlier, last);
      assert sent + reports == sent + earlier + [last];
    }
  }

  lemma {:induction false} RepairsAreReports(config: Config, inductions: seq<Induction>)
    ensures forall x :: x in RepairReports(config, inductions) ==> x.channel == ReceiveMcs
    decreases |inductions|
  {
    if inductions != [] {
      RepairsAreReports(config, inductions[..|inductions| - 1]);
    }
  }

  lemma StartAndStopReport(s: State)
    ensures OnlyReports(s, Start(s)) && OnlyReports(s, Stop(s))
  {
  }

  lemma ConfiguringReports(s: State, changes: Changes)
    ensures OnlyReports(s, UpdateConfig(s, changes))
  {
    var t := s.(config := Assigned(s.config, changes));
    if ChangesCounts(changes) && s.status == Running {
      StartAndStopReport(t);
      StartAndStopReport(Initialized(Stop(t)));
    }
  }

  lemma CommandsReport(s: State, no: int, request: int)
    ensures OnlyReports(s, SetInductionControl(s, no, request)) && OnlyReports(s, SetInductionMode(s, no, request))
    ensures OnlyReports(s, SetResetRequest(s))
  {
  }

  lemma FaultReports(s: State, fault: Fault, no: Option<int>)
    ensures OnlyReports(s, TriggerFault(s, fault, no))
  {
  }

  lemma ClearingReports(s: State, fault: Option<Fault>)
    ensures OnlyReports(s, ClearFault(s, fault))
  {
    RepairsAreReports(s.config, s.inductions);
  }

  lemma OthersOnlyReport(s: State, e: Event)
    requires !HandlesItems(e)
    ensures OnlyReports(s, Step(s, e))
  {
    match e
    case StartAsked => StartAndStopReport(s);
    case StopAsked => StartAndStopReport(s);
    case Configured(changes) => ConfiguringReports(s, changes);
    case SorterCommand(_) => StartAndStopReport(s);
    case InductionCommand(no, request) => CommandsReport(s, no, request);
    case ModeCommand(no, request) => CommandsReport(s, no, request);
    case ResetCommand => CommandsReport(s, 0, 0);
    case FaultInjected(fault, no) => FaultReports(s, fault, no);
    case FaultCleared(fault) => ClearingReports(s, fault);
  }

  lemma QuietTells(s: State, t: State)
    requires Telling(s) && Quiet(s, t) && OnlyReports(s, t)
    ensures Telling(t)
  {
    var reports := t.sent[|s.sent|..];
    assert t.sent == s.sent + reports;
    ReportsAreNoItems(s.sent, reports);
    SameTelling(s, t);
  }

  lemma StepTellsItems(s: State, e: Event)
    requires Telling(s)
    ensures Telling(Step(s, e))
  {
    if !HandlesItems(e) {
      OthersAreQuiet(s, e);
      OthersOnlyReport(s, e);
      QuietTells(s, Step(s, e));
    } else {
      match e
      case ResetAsked =>
        StopIsQuiet(s);
        StartAndStopReport(s);
        QuietTells(s, Stop(s));
        SameTelling(Stop(s), Reset(s));
      case ItemInjected(no, pick) =>
        if Place(no, |s.inductions|).Some? { InductingTellsItem(s, Place(no, |s.inductions|).value, pick); }
      case TimerFired(k, luck) =>
        if k < |s.timers| && k in s.live {
          var t := if s.timers[k].Induct? then s else s.(live := s.live - {k});
          SameTelling(s, t);
          CallingTellsItem(t, s.timers[k], luck);
        }
      case LateCall(k, luck) =>
        if k < |s.timers| { CallingTellsItem(s, s.timers[k], luck); }
    }
  }

  /** In every run the item telegrams are the emitted events, one for one and in order: each
      carries the numbers of its item on the channel of its stage, and a confirmation
      repeats what the discharge telegram of its item said. */
  lemma {:induction false} TelegramsFollowEvents(config: FullConfig, events: seq<Event>)
    ensures Telling(Run(Initial(config), events))
    decreases |events|
  {
    if events != [] {
      TelegramsFollowEvents(config, events[..|events| - 1]);
      StepTellsItems(Run(Initial(config), events[..|events| - 1]), events[|events| - 1]);
    }
  }

  // ---- the totals count the telegrams ----

  datatype Kind = Discharges | Confirmations | ReadFailures | Recirculations

  predicate IsOf(x: Sending, kind: Kind) {
    match kind
    case Discharges => x.message.ItemDischarged?
    case Confirmations => x.message.ItemConfirmed?
    case ReadFailures => x.message.ItemDischarged? && x.message.chuteNumber == 0
    case Recirculations => x.message.ItemDischarged? && x.message.recirculationCount == 1
  }

  function Count(xs: seq<Sending>, kind: Kind): nat {
    if xs == [] then 0 else Count(xs[..|xs| - 1], kind) + One(IsOf(xs[|xs| - 1], kind))
  }

  function TotalOf(totals: Totals, kind: Kind): nat {
    match kind
    case Discharges => totals.discharged
    case Confirmations => totals.confirmed
    case ReadFailures => totals.noRead
    case Recirculations => totals.recirculated
  }

  /** Every item has a destination. */
  ghost predicate Destined(s: State) {
    forall i :: 0 <= i < |s.objects| ==> s.objects[i].destination != NO_NUMBER
  }

  /** From the mark on, each total is the number of telegrams of its kind; read failures
      are told apart from other discharges as long as every item has a destination. */
  ghost predicate Counts(s: State, mark: nat) {
    var xs := ItemSendings(s.sent);
    && mark <= |xs|
    && (forall kind :: kind != ReadFailures || Destined(s) ==> Count(xs[mark..], kind) == TotalOf(s.totals, kind))
    && Count(xs[mark..], ReadFailures) >= s.totals.noRead
  }

  lemma DestinedBefore(s: State, t: State)
    requires SameButStatus(s.objects, t.objects) && Destined(t)
    ensures Destined(s)
  {
    forall i | 0 <= i < |s.objects| ensures s.objects[i].destination != NO_NUMBER {
      assert t.objects[i].destination == s.objects[i].destination;
    }
  }

  lemma CountOfMore(xs: seq<Sending>, x: Sending, mark: nat, kind: Kind)
    requires mark <= |xs|
    ensures Count((xs + [x])[mark..], kind) == Count(xs[mark..], kind) + One(IsOf(x, kind))
  {
    assert (xs + [x])[mark..] == xs[mark..] + [x];
    assert (xs[mark..] + [x])[..|xs[mark..]|] == xs[mark..];
  }

  lemma CountsOneMore(s: State, t: State, x: Sending, mark: nat)
    requires Counts(s, mark) && ItemSendings(t.sent) == ItemSendings(s.sent) + [x]
    requires SameButStatus(s.objects, t.objects)
    requires forall kind :: kind != ReadFailures || Destined(s) ==>
               TotalOf(t.totals, kind) == TotalOf(s.totals, kind) + One(IsOf(x, kind))
    requires t.totals.noRead <= s.totals.noRead + One(IsOf(x, ReadFailures))
    ensures Counts(t, mark)
  {
    var xs := ItemSendings(s.sent);
    CountOfMore(xs, x, mark, ReadFailures);
    if Destined(t) {
      DestinedBefore(s, t);
    }
    forall kind | kind != ReadFailures || Destined(t)
      ensures Count((xs + [x])[mark..], kind) == TotalOf(t.totals, kind)
    {
      CountOfMore(xs, x, mark, kind);
    }
  }

  lemma CountsSame(s: State, t: State, mark: nat)
    requires Counts(s, mark) && ItemSendings(t.sent) == ItemSendings(s.sent)
    requires SameButStatus(s.objects, t.objects)
    requires forall kind :: TotalOf(t.totals, kind) == TotalOf(s.totals, kind)
    ensures Counts(t, mark)
  {
    assert t.totals.noRead == TotalOf(t.totals, ReadFailures);
    if Destined(t) {
      DestinedBefore(s, t);
    }
  }

  lemma InductingCounts(s: State, i: nat, pick: nat, mark: nat)
    requires Counts(s, mark) && i < |s.inductions|
    ensures Counts(InductItem(s, i, pick), mark)
  {
    var t := InductItem(s, i, pick);
    if t.sent == s.sent {
      CountsSame(s, t, mark);
    } else {
      ItemSendingsOfMore(s.sent, t.sent[|s.sent|]);
      CountsOneMore(s, t, t.sent[|s.sent|], mark);
    }
  }

  lemma DischargingCounts(s: State, id: nat, noRead: bool, sorted: bool, mark: nat)
    requires Counts(s, mark) && id < |s.objects|
    ensures Counts(DischargeItem(s, id, noRead, sorted), mark)
  {
    var t := DischargeItem(s, id, noRead, sorted);
    if s.objects[id].status == InTransit {
      ItemSendingsOfMore(s.sent, t.sent[|s.sent|]);
      CountsOneMore(s, t, t.sent[|s.sent|], mark);
    }
  }

  lemma ConfirmingCountsIt(s: State, callback: Callback, mark: nat)
    requires Counts(s, mark) && callback.Confirm? && callback.item < |s.objects|
    ensures var c := callback;
      Counts(ConfirmItem(s, c.item, c.chute, c.recirculation, c.noRead, c.success), mark)
  {
    var t := ConfirmItem(s, callback.item, callback.chute, callback.recirculation, callback.noRead, callback.success);
    if s.objects[callback.item].status == Discharged {
      ItemSendingsOfMore(s.sent, t.sent[|s.sent|]);
      CountsOneMore(s, t, t.sent[|s.sent|], mark);
    }
  }

  lemma CallingCounts(s: State, callback: Callback, luck: Luck, mark: nat)
    requires Counts(s, mark)
    ensures Counts(Call(s, callback, luck), mark)
  {
    match callback
    case Induct(_, i) =>
      if i < |s.inductions| { InductingCounts(s, i, luck.pick, mark); }
    case Discharge(id) =>
      if id < |s.objects| { DischargingCounts(s, id, luck.noRead, luck.sorted, mark); }
    case Confirm(id, _, _, _, _) =>
      if id < |s.objects| { ConfirmingCountsIt(s, callback, mark); }
  }

  lemma OthersCount(s: State, t: State, mark: nat)
    requires Counts(s, mark) && Quiet(s, t) && OnlyReports(s, t)
    ensures Counts(t, mark)
  {
    var reports := t.sent[|s.sent|..];
    assert t.sent == s.sent + reports;
    ReportsAreNoItems(s.sent, reports);
    CountsSame(s, t, mark);
  }

  lemma StepCounts(s: State, e: Event, mark: nat)
    requires Counts(s, mark) && !e.ResetAsked?
    ensures Counts(Step(s, e), mark)
  {
    if !HandlesItems(e) {
      OthersAreQuiet(s, e);
      OthersOnlyReport(s, e);
      OthersCount(s, Step(s, e), mark);
    } else {
      match e
      case ItemInjected(no, pick) =>
        if Place(no, |s.inductions|).Some? { InductingCounts(s, Place(no, |s.inductions|).value, pick, mark); }
      case TimerFired(k, luck) =>
        if k < |s.timers| && k in s.live {
          var t := if s.timers[k].Induct? then s else s.(live := s.live - {k});
          CountsSame(s, t, mark);
          CallingCounts(t, s.timers[k], luck, mark);
        }
      case LateCall(k, luck) =>
        if k < |s.timers| { CallingCounts(s, s.timers[k], luck, mark); }
    }
  }

  /** Number of item telegrams sent up to the last reset. */
  function SentBeforeReset(s: State, events: seq<Event>): nat {
    if events == [] then 0
    else if events[|events| - 1].ResetAsked? then |ItemSendings(Run(s, events).sent)|
    else SentBeforeReset(s, events[..|events| - 1])
  }

  /** In every run, with resets at any time and callbacks late or repeated, the totals of
      discharged, confirmed, unread and recirculated items count the telegrams that said so
      since the last reset. */
  lemma {:induction false} TotalsCountTelegrams(config: FullConfig, events: seq<Event>)
    ensures Counts(Run(Initial(config), events), SentBeforeReset(Initial(config), events))
    decreases |events|
  {
    if events != [] {
      var earlier, last := events[..|events| - 1], events[|events| - 1];
      if last.ResetAsked? {
        var xs := ItemSendings(Run(Initial(config), events).sent);
        assert xs[|xs|..] == [];
      } else {
        TotalsCountTelegrams(config, earlier);
        StepCounts(Run(Initial(config), earlier), last, SentBeforeReset(Initial(config), earlier));
      }
    }
  }
}
