/** The sorter as its operator sees it: a status, one lamp an induction, and the telegrams on
    the channel of the MCS. A small machine of its own says how they change; the sorter is
    proved to follow it. */
module SorterControl {
  import opened Prelude
  import opened Messages
  import opened SorterState
  import opened SorterRuns

  /** The status and the mode of an induction. */
  datatype Lamp = Lamp(status: InductionStatus, mode: Pid.Mode)

  function LampOf(ind: Induction): Lamp {
    Lamp(ind.status, ind.mode)
  }

  // ---- the machine ----

  /** Only these events touch the status of the sorter. */
  function SorterNext(sorter: SorterStatus, e: Event): SorterStatus {
    match e
    case StartAsked => Running
    case StopAsked => Stopped
    case ResetAsked => Stopped
    case SorterCommand(request) => if request == 1 then Running else Stopped
    case ResetCommand => if sorter == Emergency then Stopped else sorter
    case FaultInjected(fault, _) => if fault == MotorTrip then Emergency else sorter
    case FaultCleared(fault) =>
      if sorter == Emergency && (fault == None || fault == Some(MotorTrip)) then Stopped else sorter
    case _ => sorter
  }

  /** New inductions are made by a reset and by a new count. */
  predicate Rebuilds(e: Event) {
    e.ResetAsked? || (e.Configured? && (e.changes.inductionCount.Given? || e.changes.chuteCount.Given?))
  }

  /** All inductions are started, or stopped, with the sorter, unless it is so already. */
  function Switched(lamp: Lamp, sorter: SorterStatus, on: bool): Lamp {
    if on then (if sorter == Running then lamp else lamp.(status := On))
    else (if sorter == Stopped then lamp else lamp.(status := Off))
  }

  function Fixed(lamp: Lamp): Lamp {
    if lamp.status == Faulty then lamp.(status := Off) else lamp
  }

  /** How the lamp of induction `no` changes while the inductions stay. */
  function LampNext(lamp: Lamp, no: int, sorter: SorterStatus, e: Event): Lamp {
    match e
    case StartAsked => Switched(lamp, sorter, true)
    case StopAsked => Switched(lamp, sorter, false)
    case SorterCommand(request) => Switched(lamp, sorter, request == 1)
    case InductionCommand(n, request) => if n == no then lamp.(status := if request == 1 then On else Off) else lamp
    case ModeCommand(n, request) => if n == no then lamp.(mode := if request == 1 then Pid.Key else Pid.Auto) else lamp
    case ResetCommand => Fixed(lamp)
    case FaultInjected(fault, n) => if fault == Jam && n == Some(no) then lamp.(status := Faulty) else lamp
    case FaultCleared(fault) => if fault == None || fault == Some(Jam) then Fixed(lamp) else lamp
    case _ => lamp
  }

  /** New inductions are stopped and automatic; a running sorter starts them at once. */
  function NewLamp(sorter: SorterStatus, e: Event): Lamp {
    Lamp(if e.Configured? && sorter == Running then On else Off, Pid.Auto)
  }

  // ---- what the sorter does to it ----

  /** The lamps are those the machine says. */
  ghost predicate LampsFollow(s: State, t: State, e: Event) {
    && |t.inductions| == (if Rebuilds(e) then Amount(t.config.inductionCount) else |s.inductions|)
    && forall i :: 0 <= i < |t.inductions| ==>
         LampOf(t.inductions[i])
         == if Rebuilds(e) then NewLamp(s.status, e) else LampNext(LampOf(s.inductions[i]), i + 1, s.status, e)
  }

  ghost predicate Follows(s: State, e: Event) {
    Step(s, e).status == SorterNext(s.status, e) && LampsFollow(s, Step(s, e), e)
  }

  lemma StartAndStopFollow(s: State)
    ensures Start(s).status == Running && Stop(s).status == Stopped
    ensures LampsFollow(s, Start(s), StartAsked) && LampsFollow(s, Stop(s), StopAsked)
    ensures Start(s).config == s.config && Stop(s).config == s.config
  {
  }

  lemma ResetFollows(s: State)
    ensures Follows(s, ResetAsked)
  {
    StartAndStopFollow(s);
  }

  lemma ConfiguringFollows(s: State, changes: Changes)
    ensures Follows(s, Configured(changes))
  {
    var t := s.(config := Assigned(s.config, changes));
    if ChangesCounts(changes) && s.status == Running {
      StartAndStopFollow(t);
      StartAndStopFollow(Initialized(Stop(t)));
    }
  }

  lemma CommandsFollow(s: State, no: int, request: int)
    requires Shaped(s)
    ensures Follows(s, InductionCommand(no, request)) && Follows(s, ModeCommand(no, request))
  {
  }

  lemma ResetCommandFollows(s: State)
    ensures Follows(s, ResetCommand)
  {
  }

  lemma FaultsFollow(s: State, fault: Fault, no: Option<int>)
    requires Shaped(s)
    ensures Follows(s, FaultInjected(fault, no))
  {
  }

  lemma ClearingFollows(s: State, fault: Option<Fault>)
    ensures Follows(s, FaultCleared(fault))
  {
  }

  lemma InductingKeepsLamps(s: State, i: nat, pick: nat)
    requires i < |s.inductions|
    ensures var t := InductItem(s, i, pick);
      && t.status == s.status && |t.inductions| == |s.inductions|
      && forall j :: 0 <= j < |s.inductions| ==> LampOf(t.inductions[j]) == LampOf(s.inductions[j])
  {
  }

  lemma CallingKeepsLamps(s: State, callback: Callback, luck: Luck)
    ensures var t := Call(s, callback, luck);
      && t.status == s.status && |t.inductions| == |s.inductions|
      && forall j :: 0 <= j < |s.inductions| ==> LampOf(t.inductions[j]) == LampOf(s.inductions[j])
  {
    if callback.Induct? && callback.index < |s.inductions| {
      InductingKeepsLamps(s, callback.index, luck.pick);
    }
  }

  lemma ItemsFollow(s: State, e: Event)
    requires e.ItemInjected? || e.TimerFired? || e.LateCall?
    ensures Follows(s, e)
  {
    match e
    case ItemInjected(no, pick) =>
      if Place(no, |s.inductions|).Some? { InductingKeepsLamps(s, Place(no, |s.inductions|).value, pick); }
    case TimerFired(k, luck) =>
      if k < |s.timers| && k in s.live {
        CallingKeepsLamps(if s.timers[k].Induct? then s else s.(live := s.live - {k}), s.timers[k], luck);
      }
    case LateCall(k, luck) =>
      if k < |s.timers| { CallingKeepsLamps(s, s.timers[k], luck); }
  }

  /** Whatever happens, the status of the sorter and the lamp of every induction change as the
      machine says. */
  lemma StepFollows(s: State, e: Event)
    requires Shaped(s)
    ensures Follows(s, e)
  {
    match e
    case StartAsked => StartAndStopFollow(s);
    case StopAsked => StartAndStopFollow(s);
    case ResetAsked => ResetFollows(s);
    case Configured(changes) => ConfiguringFollows(s, changes);
    case SorterCommand(_) => StartAndStopFollow(s);
    case InductionCommand(no, request) => CommandsFollow(s, no, request);
    case ModeCommand(no, request) => CommandsFollow(s, no, request);
    case ResetCommand => ResetCommandFollows(s);
    case FaultInjected(fault, no) => FaultsFollow(s, fault, no);
    case FaultCleared(fault) => ClearingFollows(s, fault);
    case _ => ItemsFollow(s, e);
  }

  // ---- the status of the sorter and the mode of an induction, over runs ----

  function SorterAfter(events: seq<Event>): SorterStatus {
    if events == [] then Stopped else SorterNext(SorterAfter(events[..|events| - 1]), events[|events| - 1])
  }

  /** In every run the sorter has the status that its own events alone lead to. */
  lemma {:induction false} SorterIsWhatWasAsked(config: FullConfig, events: seq<Event>)
    ensures Run(Initial(config), events).status == SorterAfter(events)
    decreases |events|
  {
    if events != [] {
      var earlier := events[..|events| - 1];
      SorterIsWhatWasAsked(config, earlier);
      AlwaysShaped(config, earlier);
      StepFollows(Run(Initial(config), earlier), events[|events| - 1]);
    }
  }

  /** The last mode command to induction `no` since the inductions were last made asked for keys. */
  function KeysAsked(events: seq<Event>, no: int): bool {
    if events == [] then false
    else
      var last := events[|events| - 1];
      if Rebuilds(last) then false
      else if last.ModeCommand? && last.no == no then last.request == 1
      else KeysAsked(events[..|events| - 1], no)
  }

  /** In every run an induction is keyed exactly when the last mode command said so. */
  lemma {:induction false} ModeIsWhatWasAsked(config: FullConfig, events: seq<Event>, i: nat)
    requires i < |Run(Initial(config), events).inductions|
    ensures Run(Initial(config), events).inductions[i].mode == Pid.Key <==> KeysAsked(events, i + 1)
    decreases |events|
  {
    if events != [] {
      var earlier, last := events[..|events| - 1], events[|events| - 1];
      AlwaysShaped(config, earlier);
      StepFollows(Run(Initial(config), earlier), last);
      assert LampOf(Run(Initial(config), events).inductions[i]).mode == Run(Initial(config), events).inductions[i].mode;
      if !Rebuilds(last) {
        ModeIsWhatWasAsked(config, earlier, i);
      }
    }
  }

  // ---- the telegrams on the channel of the MCS ----

  /** 0 stopped, 1 running, 2 faulty. */
  function StatusNumber(status: InductionStatus): int {
    match status case Off => 0 case On => 1 case Faulty => 2
  }

  /** One report an induction, all with the same status. */
  function AllAre(count: int, n: nat, status: int): seq<Message> {
    seq(n, i requires 0 <= i < n => InductionStatusReport(count, i + 1, status))
  }

  function StartReports(count: int, n: nat): seq<Message> {
    [SorterStatusReport(1)] + AllAre(count, n, 1)
  }

  /** A stop is reported as it begins and as it ends. */
  function StopReports(count: int, n: nat): seq<Message> {
    [SorterStatusReport(2), SorterStatusReport(0)] + AllAre(count, n, 0)
  }

  /** A stop report for each faulty induction. */
  function FixReports(count: int, inductions: seq<Induction>): seq<Message> {
    if inductions == [] then []
    else
      FixReports(count, inductions[..|inductions| - 1])
      + (if inductions[|inductions| - 1].status == Faulty then [InductionStatusReport(count, |inductions|, 0)] else [])
  }

  /** The reports of all inductions once they are repaired. */
  function LampReports(count: int, inductions: seq<Induction>): seq<Message> {
    seq(|inductions|, i requires 0 <= i < |inductions| =>
        InductionStatusReport(count, i + 1, if inductions[i].status == On then 1 else 0))
  }

  /** What is reported when an event happens, by the numbers in the telegrams. */
  function Reports(s: State, e: Event): seq<Message> {
    var n, count := |s.inductions|, Amount(s.config.inductionCount);
    match e
    case StartAsked => if s.status == Running then [] else StartReports(count, n)
    case StopAsked => if s.status == Stopped then [] else StopReports(count, n)
    case ResetAsked => if s.status == Stopped then [] else StopReports(count, n)
    case Configured(changes) =>
      if Rebuilds(e) && s.status == Running then
        var given := match changes.inductionCount case Absent => count case Undefined => 0 case Given(m) => m;
        StopReports(given, n) + StartReports(given, given)
      else []
    case SorterCommand(request) =>
      if request == 1 then (if s.status == Running then [] else StartReports(count, n))
      else (if s.status == Stopped then [] else StopReports(count, n))
    case InductionCommand(no, request) =>
      if 1 <= no <= n then [InductionStatusReport(count, no, if request == 1 then 1 else 0)] else []
    case ModeCommand(no, request) =>
      if 1 <= no <= n then [InductionModeReport(count, no, if request == 1 then 1 else 0)] else []
    case ResetCommand =>
      (if s.status == Emergency then [SorterStatusReport(0)] else []) + LampReports(count, s.inductions)
    case FaultInjected(fault, no) =>
      if fault == MotorTrip then [SorterStatusReport(3)]
      else if fault == Jam && no.Some? && 1 <= no.value <= n then [InductionStatusReport(count, no.value, 2)]
      else []
    case FaultCleared(fault) =>
      (if s.status == Emergency && (fault == None || fault == Some(MotorTrip)) then [SorterStatusReport(0)] else [])
      + (if fault == None || fault == Some(Jam) then FixReports(count, s.inductions) else [])
    case _ => []
  }

  function OnMcs(messages: seq<Message>): seq<Sending> {
    seq(|messages|, i requires 0 <= i < |messages| => Sending(ReceiveMcs, messages[i]))
  }

  ghost predicate ReportsFollow(s: State, e: Event) {
    Step(s, e).sent == s.sent + OnMcs(Reports(s, e))
  }

  lemma OnMcsOfTwo(a: seq<Message>, b: seq<Message>)
    ensures OnMcs(a + b) == OnMcs(a) + OnMcs(b)
  {
  }

  lemma StartReported(s: State)
    requires Numbered(s) && s.status != Running
    ensures Start(s).sent == s.sent + OnMcs(StartReports(Amount(s.config.inductionCount), |s.inductions|))
  {
    var n, count := |s.inductions|, Amount(s.config.inductionCount);
    OnMcsOfTwo([SorterStatusReport(1)], AllAre(count, n, 1));
    assert StatusReports(s.config, WithStatus(s.inductions, On)) == OnMcs(AllAre(count, n, 1));
    Associative(s.sent, OnMcs([SorterStatusReport(1)]), OnMcs(AllAre(count, n, 1)));
    assert OnMcs([SorterStatusReport(1)]) == [Sending(ReceiveMcs, SorterStatusReport(1))];
  }

  lemma StopReported(s: State)
    requires Numbered(s) && s.status != Stopped
    ensures Stop(s).sent == s.sent + OnMcs(StopReports(Amount(s.config.inductionCount), |s.inductions|))
  {
    var n, count := |s.inductions|, Amount(s.config.inductionCount);
    var both := [SorterStatusReport(2), SorterStatusReport(0)];
    OnMcsOfTwo(both, AllAre(count, n, 0));
    assert StatusReports(s.config, WithStatus(s.inductions, Off)) == OnMcs(AllAre(count, n, 0));
    Associative(s.sent, OnMcs(both), OnMcs(AllAre(count, n, 0)));
    assert s.sent + OnMcs(both)
        == s.sent + [Sending(ReceiveMcs, SorterStatusReport(2))] + [Sending(ReceiveMcs, SorterStatusReport(0))];
  }

  lemma NothingReported(s: State)
    ensures s.sent + OnMcs([]) == s.sent
  {
  }

  lemma ConfiguringReported(s: State, changes: Changes)
    requires Shaped(s)
    ensures ReportsFollow(s, Configured(changes))
  {
    NothingReported(s);
    if ChangesCounts(changes) && s.status == Running {
      var t := s.(config := Assigned(s.config, changes));
      var given := Amount(t.config.inductionCount);
      StopReported(t);
      StartAndStopFollow(t);
      var u := Initialized(Stop(t));
      StartReported(u);
      StartAndStopFollow(u);
      OnMcsOfTwo(StopReports(given, |s.inductions|), StartReports(given, given));
      Associative(s.sent, OnMcs(StopReports(given, |s.inductions|)), OnMcs(StartReports(given, given)));
    }
  }

  lemma LampsReported(config: Config, inductions: seq<Induction>)
    requires forall i :: 0 <= i < |inductions| ==> inductions[i].no == i + 1
    ensures StatusReports(config, Repaired(inductions)) == OnMcs(LampReports(Amount(config.inductionCount), inductions))
  {
  }

  lemma ResetCommandSends(s: State)
    ensures SetResetRequest(s).sent
         == s.sent + OnMcs(if s.status == Emergency then [SorterStatusReport(0)] else [])
            + StatusReports(s.config, Repaired(s.inductions))
  {
    NothingReported(s);
    assert OnMcs([SorterStatusReport(0)]) == [Sending(ReceiveMcs, SorterStatusReport(0))];
  }

  lemma ResetCommandReported(s: State)
    requires Shaped(s)
    ensures ReportsFollow(s, ResetCommand)
  {
    var lamps := LampReports(Amount(s.config.inductionCount), s.inductions);
    var first := if s.status == Emergency then [SorterStatusReport(0)] else [];
    ResetCommandSends(s);
    LampsReported(s.config, s.inductions);
    OnMcsOfTwo(first, lamps);
    Associative(s.sent, OnMcs(first), OnMcs(lamps));
  }

  lemma {:induction false} FixesReported(config: Config, inductions: seq<Induction>)
    requires forall i :: 0 <= i < |inductions| ==> inductions[i].no == i + 1
    ensures RepairReports(config, inductions) == OnMcs(FixReports(Amount(config.inductionCount), inductions))
    decreases |inductions|
  {
    if inductions != [] {
      var n, count := |inductions| - 1, Amount(config.inductionCount);
      FixesReported(config, inductions[..n]);
      OnMcsOfTwo(FixReports(count, inductions[..n]),
                 if inductions[n].status == Faulty then [InductionStatusReport(count, n + 1, 0)] else []);
    }
  }

  lemma ClearingReported(s: State, fault: Option<Fault>)
    requires Shaped(s)
    ensures ReportsFollow(s, FaultCleared(fault))
  {
    var count := Amount(s.config.inductionCount);
    var ended := s.status == Emergency && (fault == None || fault == Some(MotorTrip));
    var first := if ended then [SorterStatusReport(0)] else [];
    var fixes := if fault == None || fault == Some(Jam) then FixReports(count, s.inductions) else [];
    ClearingSends(s, fault);
    FixesReported(s.config, s.inductions);
    OnMcsOfTwo(first, fixes);
    Associative(s.sent, OnMcs(first), OnMcs(fixes));
  }

  lemma ClearingSends(s: State, fault: Option<Fault>)
    ensures var ended := s.status == Emergency && (fault == None || fault == Some(MotorTrip));
      ClearFault(s, fault).sent
      == s.sent + OnMcs(if ended then [SorterStatusReport(0)] else [])
         + (if fault == None || fault == Some(Jam) then RepairReports(s.config, s.inductions) else [])
  {
    NothingReported(s);
    assert OnMcs([SorterStatusReport(0)]) == [Sending(ReceiveMcs, SorterStatusReport(0))];
  }

  lemma CommandsReported(s: State, no: int, request: int)
    requires Shaped(s)
    ensures ReportsFollow(s, InductionCommand(no, request)) && ReportsFollow(s, ModeCommand(no, request))
  {
    NothingReported(s);
  }

  lemma FaultsReported(s: State, fault: Fault, no: Option<int>)
    requires Shaped(s)
    ensures ReportsFollow(s, FaultInjected(fault, no))
  {
    NothingReported(s);
  }

  /** Commands, faults, resets and settings send exactly these telegrams, in this order. */
  lemma StepReports(s: State, e: Event)
    requires Shaped(s) && (e.ResetAsked? || !HandlesItems(e))
    ensures ReportsFollow(s, e)
  {
    NothingReported(s);
    match e
    case StartAsked => if s.status != Running { StartReported(s); }
    case StopAsked => if s.status != Stopped { StopReported(s); }
    case ResetAsked => if s.status != Stopped { StopReported(s); }
    case SorterCommand(request) =>
      if request == 1 && s.status != Running { StartReported(s); }
      if request != 1 && s.status != Stopped { StopReported(s); }
    case Configured(changes) => ConfiguringReported(s, changes);
    case InductionCommand(no, request) => CommandsReported(s, no, request);
    case ModeCommand(no, request) => CommandsReported(s, no, request);
    case ResetCommand => ResetCommandReported(s);
    case FaultInjected(fault, no) => FaultsReported(s, fault, no);
    case FaultCleared(fault) => ClearingReported(s, fault);
  }
}
