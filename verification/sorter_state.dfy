/** The virtual sorter on values: what every operation does to the whole state.

    Inductions and items are objects in the original. An item is known here by the order
    in which it was made, an induction by its place and by the number of times the
    inductions have been made anew. Timers are known by the order in which they were set. */
module SorterState {
  import opened Prelude
  import opened Messages
  import Pid

  datatype SorterStatus = Stopped | Running | Stopping | Emergency

  /** Stopped, running and faulty inductions. */
  datatype InductionStatus = Off | On | Faulty

  type InductionCount = n: nat | 1 <= n <= 4 witness 1
  type Positive = n: nat | n >= 1 witness 1

  /** A setting can be undefined: see Change. */
  datatype Config = Config(inductionCount: Option<InductionCount>, chuteCount: Option<Positive>,
                           overflowThreshold: Option<Positive>)

  /** The settings the simulator starts with are all defined. */
  type FullConfig = c: Config | c.inductionCount.Some? && c.chuteCount.Some? && c.overflowThreshold.Some?
    witness Config(Some(1), Some(1), Some(1))

  /** A key of the object that changes the settings is missing, or present with the value
      undefined, or present with a value. Object.assign copies the second as well, and the
      controller's objects have every key: those that the request does not name are undefined. */
  datatype Change<+T> = Absent | Undefined | Given(value: T)

  /** The settings a caller changes; a new interval only matters by being given. */
  datatype Changes = Changes(inductionCount: Change<InductionCount>, chuteCount: Change<Positive>,
                             overflowThreshold: Change<Positive>, intervalGiven: bool)

  datatype Totals = Totals(inducted: nat, discharged: nat, confirmed: nat, errors: nat, noRead: nat, recirculated: nat)

  datatype Induction = Induction(no: int, status: InductionStatus, mode: Pid.Mode, itemCount: nat, lastPid: Option<int>)

  /** A count is None once it is no number any more. */
  datatype Chute = Chute(no: int, itemCount: Option<nat>, overflow: bool)

  datatype ItemStatus = InTransit | Discharged | Confirmed

  datatype Item = Item(pid: int, cellIndex: int, inductionNo: int, mode: Pid.Mode, destination: int, status: ItemStatus)

  /** What a timer calls. */
  datatype Callback =
    | Induct(epoch: nat, index: nat)
    | Discharge(item: nat)
    | Confirm(item: nat, chute: int, recirculation: int, noRead: bool, success: bool)

  datatype Channel = ReceiveMcs | ReceiveInduct | ReceiveDischarge | ReceiveConfirm

  datatype Sending = Sending(channel: Channel, message: Message)

  datatype Stage = WasInducted | WasDischarged | WasConfirmed

  /** An event emitted about an item. */
  datatype Emitted = Emitted(stage: Stage, item: nat)

  datatype Fault = MotorTrip | Jam | Overflow | UnknownFault

  /** The random choices of a callback. */
  datatype Luck = Luck(pick: nat, noRead: bool, sorted: bool)

  datatype State = State(
    config: Config,
    status: SorterStatus,
    totals: Totals,
    inductions: seq<Induction>,
    chutes: seq<Chute>,
    /** Every item ever made, and which of them are active. */
    objects: seq<Item>,
    items: seq<nat>,
    /** Every timer ever set, those not yet cleared or run, and the two lists kept of them. */
    timers: seq<Callback>,
    live: set<nat>,
    inductionTimers: seq<nat>,
    pendingTimers: seq<nat>,
    epoch: nat,
    cellCounter: nat,
    pids: Pid.Counters,
    /** Number of items made before the last reset. */
    resetBase: nat,
    sent: seq<Sending>,
    emitted: seq<Emitted>,
    /** Inductions that ended in an exception. */
    failures: nat)

  const NO_TOTALS := Totals(0, 0, 0, 0, 0, 0)

  const MAX_CELL := 65535

  /** Stands for a destination that is not a number: it is compared and written like zero. */
  const NO_NUMBER := 0

  function SorterCode(status: SorterStatus): nat {
    match status case Stopped => 0 case Running => 1 case Stopping => 2 case Emergency => 3
  }

  function InductionCode(status: InductionStatus): nat {
    match status case Off => 0 case On => 1 case Faulty => 2
  }

  function ModeCode(mode: Pid.Mode): nat {
    if mode == Pid.Key then 1 else 0
  }

  // ---- inductions and chutes ----

  function NewInductions(n: nat): seq<Induction> {
    seq(n, i => Induction(i + 1, Off, Pid.Auto, 0, None))
  }

  function NewChutes(n: nat): seq<Chute> {
    seq(n, i => Chute(i + 1, Some(0), false))
  }

  /** How often a loop up to a setting runs, and what the builder writes for it. */
  function Amount(setting: Option<nat>): nat {
    if setting.Some? then setting.value else 0
  }

  function Initialized(s: State): State {
    s.(inductions := NewInductions(Amount(s.config.inductionCount)), chutes := NewChutes(Amount(s.config.chuteCount)),
       epoch := s.epoch + 1)
  }

  function WithStatus(inductions: seq<Induction>, status: InductionStatus): seq<Induction> {
    seq(|inductions|, i requires 0 <= i < |inductions| => inductions[i].(status := status))
  }

  /** Faulty inductions become stopped. */
  function Repaired(inductions: seq<Induction>): seq<Induction> {
    seq(|inductions|, i requires 0 <= i < |inductions| =>
        if inductions[i].status == Faulty then inductions[i].(status := Off) else inductions[i])
  }

  function Emptied(chutes: seq<Chute>): seq<Chute> {
    seq(|chutes|, i requires 0 <= i < |chutes| => chutes[i].(overflow := false))
  }

  /** Inductions and chutes stand in the order of their numbers, which start at one. */
  ghost predicate Numbered(s: State) {
    && (forall i :: 0 <= i < |s.inductions| ==> s.inductions[i].no == i + 1)
    && (forall i :: 0 <= i < |s.chutes| ==> s.chutes[i].no == i + 1)
  }

  /** The place of a number among `count` numbered things. */
  function Place(no: int, count: nat): (r: Option<nat>)
    ensures r.Some? ==> r.value < count
  {
    if 1 <= no <= count then Some(no - 1) else None
  }

  // ---- sending ----

  function Send(s: State, channel: Channel, m: Message): State {
    s.(sent := s.sent + [Sending(channel, m)])
  }

  function SendSorterStatus(s: State): State {
    Send(s, ReceiveMcs, SorterStatusReport(SorterCode(s.status)))
  }

  function StatusReport(config: Config, ind: Induction): Sending {
    Sending(ReceiveMcs, InductionStatusReport(Amount(config.inductionCount), ind.no, InductionCode(ind.status)))
  }

  function StatusReports(config: Config, inductions: seq<Induction>): seq<Sending> {
    seq(|inductions|, i requires 0 <= i < |inductions| => StatusReport(config, inductions[i]))
  }

  /** One report for every faulty induction, as stopped. */
  function RepairReports(config: Config, inductions: seq<Induction>): seq<Sending> {
    if inductions == [] then []
    else
      var earlier, last := RepairReports(config, inductions[..|inductions| - 1]), inductions[|inductions| - 1];
      if last.status == Faulty then earlier + [StatusReport(config, last.(status := Off))] else earlier
  }

  function SendAllInductionStatus(s: State): State {
    s.(sent := s.sent + StatusReports(s.config, s.inductions))
  }

  // ---- timers ----

  function Ids(timers: seq<nat>): set<nat> {
    set k | k in timers
  }

  function Inductors(epoch: nat, n: nat): seq<Callback> {
    seq(n, i requires i >= 0 => Induct(epoch, i))
  }

  function From(start: nat, n: nat): (r: seq<nat>)
    ensures |r| == n
  {
    seq(n, i requires i >= 0 => start + i)
  }

  function StartInductionTimers(s: State): State {
    var n := |s.inductions|;
    s.(timers := s.timers + Inductors(s.epoch, n),
       inductionTimers := s.inductionTimers + From(|s.timers|, n),
       live := s.live + Ids(From(|s.timers|, n)))
  }

  function StopInductionTimers(s: State): State {
    s.(live := s.live - Ids(s.inductionTimers), inductionTimers := [])
  }

  function ClearPendingTimers(s: State): State {
    s.(live := s.live - Ids(s.pendingTimers), pendingTimers := [])
  }

  function Schedule(s: State, callback: Callback): State {
    s.(timers := s.timers + [callback], pendingTimers := s.pendingTimers + [|s.timers|], live := s.live + {|s.timers|})
  }

  // ---- lifecycle ----

  function Start(s: State): State {
    if s.status == Running then s
    else
      var t := s.(status := Running, inductions := WithStatus(s.inductions, On));
      StartInductionTimers(SendAllInductionStatus(SendSorterStatus(t)))
  }

  function Stop(s: State): State {
    if s.status == Stopped then s
    else
      var t := ClearPendingTimers(StopInductionTimers(SendSorterStatus(s.(status := Stopping))));
      var u := t.(inductions := WithStatus(t.inductions, Off), status := Stopped);
      SendAllInductionStatus(SendSorterStatus(u))
  }

  /** Nothing is counted, active or numbered any more; only history stays. */
  function Wiped(s: State): State {
    s.(status := Stopped, totals := NO_TOTALS, items := [], cellCounter := 0, pids := map[], resetBase := |s.objects|)
  }

  function Reset(s: State): State {
    Initialized(Wiped(Stop(s)))
  }

  /** Object.assign on one key. */
  function Changed<T>(change: Change<T>, setting: Option<T>): Option<T> {
    match change
    case Absent => setting
    case Undefined => None
    case Given(value) => Some(value)
  }

  function Assigned(config: Config, changes: Changes): Config {
    Config(Changed(changes.inductionCount, config.inductionCount), Changed(changes.chuteCount, config.chuteCount),
           Changed(changes.overflowThreshold, config.overflowThreshold))
  }

  predicate ChangesCounts(changes: Changes) {
    changes.inductionCount.Given? || changes.chuteCount.Given?
  }

  function Reinitialize(s: State): State {
    if s.status == Running then Start(Initialized(Stop(s))) else Initialized(s)
  }

  function UpdateConfig(s: State, changes: Changes): State {
    var t := s.(config := Assigned(s.config, changes));
    var u := if ChangesCounts(changes) then Reinitialize(t) else t;
    if changes.intervalGiven && u.status == Running then StartInductionTimers(StopInductionTimers(u)) else u
  }

  // ---- control commands ----

  function SetSorterControl(s: State, request: int): State {
    if request == 1 then Start(s) else Stop(s)
  }

  function SetInductionStatus(s: State, i: nat, status: InductionStatus): State
    requires i < |s.inductions|
  {
    var ind := s.inductions[i].(status := status);
    s.(inductions := s.inductions[i := ind], sent := s.sent + [StatusReport(s.config, ind)])
  }

  function SetInductionControl(s: State, no: int, request: int): State {
    match Place(no, |s.inductions|)
    case None => s
    case Some(i) => SetInductionStatus(s, i, if request == 1 then On else Off)
  }

  /** The answer to an induction command: reason 1 for an unknown induction. */
  function InductionAnswer(s: State, no: int, request: int): Message {
    if Place(no, |s.inductions|) == None then InductionAck(no, 0, 1)
    else InductionAck(no, InductionCode(if request == 1 then On else Off), 0)
  }

  function SetInductionMode(s: State, no: int, request: int): State {
    match Place(no, |s.inductions|)
    case None => s
    case Some(i) =>
      var ind := s.inductions[i].(mode := if request == 1 then Pid.Key else Pid.Auto);
      Send(s.(inductions := s.inductions[i := ind]), ReceiveMcs,
           InductionModeReport(Amount(s.config.inductionCount), ind.no, ModeCode(ind.mode)))
  }

  function LeaveEmergency(s: State): State {
    if s.status == Emergency then SendSorterStatus(s.(status := Stopped)) else s
  }

  function SetResetRequest(s: State): State {
    SendAllInductionStatus(LeaveEmergency(s.(inductions := Repaired(s.inductions))))
  }

  // ---- faults ----

  predicate Truthy(no: Option<int>) {
    no.Some? && no.value != 0
  }

  function JamPlace(s: State, no: Option<int>): Option<nat> {
    if Truthy(no) then Place(no.value, |s.inductions|) else None
  }

  function OverflowPlace(s: State, no: Option<int>): Option<nat> {
    Place(if Truthy(no) then no.value else 1, |s.chutes|)
  }

  function Faulted(s: State, fault: Fault, no: Option<int>): State {
    match fault
    case MotorTrip => StopInductionTimers(SendSorterStatus(s.(status := Emergency)))
    case Jam =>
      (match JamPlace(s, no)
       case None => s
       case Some(i) => SetInductionStatus(s, i, Faulty))
    case Overflow =>
      (match OverflowPlace(s, no)
       case None => s
       case Some(i) =>
         var full := s.chutes[i].(itemCount := s.config.overflowThreshold, overflow := true);
         s.(chutes := s.chutes[i := full]))
    case UnknownFault => s
  }

  function TriggerFault(s: State, fault: Fault, no: Option<int>): State {
    var t := Faulted(s, fault, no);
    t.(totals := t.totals.(errors := t.totals.errors + 1))
  }

  function RepairAll(s: State): State {
    s.(inductions := Repaired(s.inductions), sent := s.sent + RepairReports(s.config, s.inductions))
  }

  function ClearFault(s: State, fault: Option<Fault>): State {
    var t := if fault == None || fault.value == MotorTrip then LeaveEmergency(s) else s;
    var u := if fault == None || fault.value == Jam then RepairAll(t) else t;
    if fault == None || fault.value == Overflow then u.(chutes := Emptied(u.chutes)) else u
  }

  // ---- items ----

  function NextCell(cell: nat): nat {
    if cell + 1 > MAX_CELL then 1 else cell + 1
  }

  function Destination(config: Config, pick: nat): (d: int)
    ensures d >= 0
  {
    if config.chuteCount.Some? then pick % config.chuteCount.value + 1 else NO_NUMBER
  }

  function InductedMessage(item: Item): Message {
    ItemInducted(item.cellIndex, item.inductionNo, ModeCode(item.mode), item.pid, item.destination)
  }

  /** A new item is filed and counted before its telegram is built. */
  function File(s: State, i: nat, item: Item): State
    requires i < |s.inductions|
  {
    var ind := s.inductions[i];
    s.(objects := s.objects + [item], items := s.items + [|s.objects|],
       inductions := s.inductions[i := ind.(itemCount := ind.itemCount + 1, lastPid := Some(item.pid))],
       totals := s.totals.(inducted := s.totals.inducted + 1))
  }

  /** Announcing a filed item: where the telegram cannot be built the exception leaves
      the item filed, but without an event and without a timer. */
  function Announce(s: State, item: nat): State
    requires item < |s.objects|
  {
    var m := InductedMessage(s.objects[item]);
    if !Encodable(m) then s.(failures := s.failures + 1)
    else
      Schedule(Send(s, ReceiveInduct, m).(emitted := s.emitted + [Emitted(WasInducted, item)]), Discharge(item))
  }

  /** The item an induction makes, with the cell already counted. */
  function Made(s: State, ind: Induction, pid: int, pick: nat): Item {
    Item(pid, s.cellCounter, ind.no, ind.mode, Destination(s.config, pick), InTransit)
  }

  function InductItem(s: State, i: nat, pick: nat): State
    requires i < |s.inductions|
  {
    var ind := s.inductions[i];
    var generated := Pid.Next(s.pids, Pid.PidKey(ind.no, ind.mode));
    var t := s.(cellCounter := NextCell(s.cellCounter), pids := generated.1);
    if generated.0 == None then t.(failures := t.failures + 1)
    else
      var item := Made(t, ind, generated.0.value, pick);
      Announce(File(t, i, item), |s.objects|)
  }

  function InjectItem(s: State, no: int, pick: nat): State {
    match Place(no, |s.inductions|)
    case None => s
    case Some(i) => InductItem(s, i, pick)
  }

  function Tallied(totals: Totals, noRead: bool, success: bool): Totals {
    totals.(discharged := totals.discharged + 1,
            noRead := totals.noRead + (if noRead then 1 else 0),
            recirculated := totals.recirculated + (if !noRead && !success then 1 else 0))
  }

  function OneMore(count: Option<nat>): Option<nat> {
    if count.Some? then Some(count.value + 1) else None
  }

  /** A comparison with something that is not a number is false. */
  predicate Reaches(count: Option<nat>, threshold: Option<Positive>) {
    count.Some? && threshold.Some? && count.value >= threshold.value
  }

  function Dropped(chutes: seq<Chute>, chute: int, threshold: Option<Positive>): seq<Chute> {
    if 0 < chute <= |chutes| then
      var c := chutes[chute - 1];
      var count := OneMore(c.itemCount);
      chutes[chute - 1 := c.(itemCount := count, overflow := c.overflow || Reaches(count, threshold))]
    else chutes
  }

  /** The item leaves its cell: its status, the totals and the chute. */
  function Unloaded(s: State, id: nat, chute: int, noRead: bool, success: bool): State
    requires id < |s.objects|
  {
    s.(objects := s.objects[id := s.objects[id].(status := Discharged)],
       totals := Tallied(s.totals, noRead, success),
       chutes := Dropped(s.chutes, chute, s.config.overflowThreshold))
  }

  function DischargeItem(s: State, id: nat, noRead: bool, sorted: bool): State
    requires id < |s.objects|
  {
    var item := s.objects[id];
    if item.status != InTransit then s
    else
      var success := !noRead && sorted;
      var chute := if noRead then 0 else item.destination;
      var recirculation := if !noRead && !success then 1 else 0;
      var t := Unloaded(s, id, chute, noRead, success);
      var m := ItemDischarged(item.cellIndex, item.inductionNo, ModeCode(item.mode), chute, recirculation);
      Schedule(Send(t, ReceiveDischarge, m).(emitted := t.emitted + [Emitted(WasDischarged, id)]),
               Confirm(id, chute, recirculation, noRead, success))
  }

  /** The status a confirmation reports: read failure, recirculation or normal. */
  function DischargeCode(noRead: bool, success: bool): nat {
    if noRead then 2 else if !success then 1 else 0
  }

  function Without(items: seq<nat>, id: nat): seq<nat> {
    if items == [] then []
    else
      var rest := Without(items[..|items| - 1], id);
      if items[|items| - 1] != id then rest + [items[|items| - 1]] else rest
  }

  /** The item is done with: its status, the total and the active items. */
  function Finished(s: State, id: nat): State
    requires id < |s.objects|
  {
    s.(objects := s.objects[id := s.objects[id].(status := Confirmed)],
       totals := s.totals.(confirmed := s.totals.confirmed + 1),
       items := Without(s.items, id))
  }

  function ConfirmItem(s: State, id: nat, chute: int, recirculation: int, noRead: bool, success: bool): State
    requires id < |s.objects|
  {
    var item := s.objects[id];
    if item.status != Discharged then s
    else
      var t := Finished(s, id);
      Send(t.(emitted := t.emitted + [Emitted(WasConfirmed, id)]), ReceiveConfirm,
           ItemConfirmed(item.cellIndex, ModeCode(item.mode), chute, recirculation, DischargeCode(noRead, success)))
  }

  /** What a timer does when it fires. */
  function Call(s: State, callback: Callback, luck: Luck): State {
    match callback
    case Induct(epoch, i) =>
      if s.status == Running && epoch == s.epoch && i < |s.inductions| && s.inductions[i].status == On
      then InductItem(s, i, luck.pick) else s
    case Discharge(id) =>
      if id < |s.objects| then DischargeItem(s, id, luck.noRead, luck.sorted) else s
    case Confirm(id, chute, recirculation, noRead, success) =>
      if id < |s.objects| then ConfirmItem(s, id, chute, recirculation, noRead, success) else s
  }

  /** A live timer fires; a timeout is then spent, an interval stays. */
  function Fire(s: State, k: nat, luck: Luck): State {
    if k < |s.timers| && k in s.live then
      Call(if s.timers[k].Induct? then s else s.(live := s.live - {k}), s.timers[k], luck)
    else s
  }

  /** A discharge or confirmation runs late or once more, whether or not its timer is live. */
  function Late(s: State, k: nat, luck: Luck): State {
    if k < |s.timers| && !s.timers[k].Induct? then Call(s, s.timers[k], luck) else s
  }

  function Initial(config: FullConfig): State {
    Initialized(State(config, Stopped, NO_TOTALS, [], [], [], [], [], {}, [], [], 0, 0, map[], 0, [], [], 0))
  }
}
