/** Every telegram the virtual sorter sends in any run is well formed. */
module SorterOutput {
  import opened Prelude
  import opened TelegramParser
  import opened TelegramCatalog
  import opened TelegramValidator
  import opened Messages
  import opened SorterState
  import opened SorterRuns
  import opened SorterItems
  import opened SorterLifecycle
  import opened SorterPids

  ghost predicate AllEncodable(sent: seq<Sending>) {
    forall i :: 0 <= i < |sent| ==> Encodable(sent[i].message)
  }

  ghost predicate SmallNumbers(inductions: seq<Induction>) {
    forall i :: 0 <= i < |inductions| ==> 1 <= inductions[i].no <= 4
  }

  // ---- reports ----

  lemma StartReports(s: State)
    requires SmallNumbers(s.inductions) && AllEncodable(s.sent)
    ensures SmallNumbers(Start(s).inductions) && AllEncodable(Start(s).sent)
  {
  }

  lemma StopReports(s: State)
    requires SmallNumbers(s.inductions) && AllEncodable(s.sent)
    ensures SmallNumbers(Stop(s).inductions) && AllEncodable(Stop(s).sent)
  {
  }

  lemma UpdateConfigReports(s: State, changes: Changes)
    requires SmallNumbers(s.inductions) && AllEncodable(s.sent)
    ensures AllEncodable(UpdateConfig(s, changes).sent)
  {
    var t := s.(config := Assigned(s.config, changes));
    if ChangesCounts(changes) && s.status == Running {
      StopReports(t);
      StartReports(Initialized(Stop(t)));
    }
  }

  lemma CommandsReport(s: State, no: int, request: int)
    requires SmallNumbers(s.inductions) && AllEncodable(s.sent)
    ensures AllEncodable(SetInductionControl(s, no, request).sent)
    ensures AllEncodable(SetInductionMode(s, no, request).sent)
    ensures AllEncodable(SetResetRequest(s).sent)
  {
  }

  lemma {:induction false} RepairsReport(config: Config, inductions: seq<Induction>)
    requires SmallNumbers(inductions)
    ensures AllEncodable(RepairReports(config, inductions))
    decreases |inductions|
  {
    if inductions != [] {
      RepairsReport(config, inductions[..|inductions| - 1]);
    }
  }

  lemma TriggerFaultReports(s: State, fault: Fault, no: Option<int>)
    requires SmallNumbers(s.inductions) && AllEncodable(s.sent)
    ensures AllEncodable(TriggerFault(s, fault, no).sent)
  {
  }

  lemma ClearFaultReports(s: State, fault: Option<Fault>)
    requires SmallNumbers(s.inductions) && AllEncodable(s.sent)
    ensures AllEncodable(ClearFault(s, fault).sent)
  {
    RepairsReport(s.config, s.inductions);
  }

  lemma OthersReport(s: State, e: Event)
    requires SmallNumbers(s.inductions) && AllEncodable(s.sent) && !HandlesItems(e)
    ensures AllEncodable(Step(s, e).sent)
  {
    match e
    case StartAsked => StartReports(s);
    case StopAsked => StopReports(s);
    case Configured(changes) => UpdateConfigReports(s, changes);
    case SorterCommand(request) => StartReports(s); StopReports(s);
    case InductionCommand(no, request) => CommandsReport(s, no, request);
    case ModeCommand(no, request) => CommandsReport(s, no, request);
    case ResetCommand => CommandsReport(s, 0, 0);
    case FaultInjected(fault, no) => TriggerFaultReports(s, fault, no);
    case FaultCleared(fault) => ClearFaultReports(s, fault);
  }

  // ---- items ----

  /** The numbers of an item fit their fields, apart from a destination beyond 65535. */
  predicate Fitting(item: Item) {
    1 <= item.cellIndex <= MAX_CELL && 1 <= item.inductionNo <= 4 && 100001 <= item.pid <= 430000
        && item.destination >= 0
  }

  lemma AnnouncedExactly(item: Item)
    requires Fitting(item)
    ensures Announced(item) <==> item.destination <= 65535
  {
  }

  ghost predicate ItemsFit(s: State) {
    && 0 <= s.cellCounter <= MAX_CELL
    && (forall id :: 0 <= id < |s.objects| ==> Fitting(s.objects[id]))
    && (s.failures == 0 <==> forall id :: 0 <= id < |s.objects| ==> Announced(s.objects[id]))
  }

  ghost predicate CallsFit(s: State) {
    forall k :: 0 <= k < |s.timers| && s.timers[k].Confirm? ==>
      Short(s.timers[k].chute) && Short(s.timers[k].recirculation)
  }

  ghost predicate FitToSend(s: State) {
    AllEncodable(s.sent) && ItemsFit(s) && CallsFit(s)
  }

  lemma QuietKeepsFit(s: State, t: State)
    requires ItemsFit(s) && CallsFit(s) && Quiet(s, t)
    ensures ItemsFit(t) && CallsFit(t)
  {
    forall k | 0 <= k < |t.timers| && t.timers[k].Confirm?
      ensures Short(t.timers[k].chute) && Short(t.timers[k].recirculation)
    {
      assert k < |s.timers| && t.timers[k] == s.timers[k];
    }
  }

  lemma PidsFit(key: Pid.PidKey, n: nat)
    requires Pid.Known(key)
    ensures 100001 <= Pid.NthPid(key, n) <= 430000
  {
  }

  lemma AnnouncingFits(s: State, i: nat, item: Item)
    requires FitToSend(s) && i < |s.inductions| && Fitting(item)
    ensures FitToSend(Announce(File(s, i, item), |s.objects|))
  {
    var t, id := File(s, i, item), |s.objects|;
    var u := Announce(t, id);
    assert u.objects[id] == item && forall j :: 0 <= j < id ==> u.objects[j] == s.objects[j];
    if !Announced(item) {
      assert !Announced(u.objects[id]);
    } else if s.failures != 0 {
      var j :| 0 <= j < id && !Announced(s.objects[j]);
      assert !Announced(u.objects[j]);
    }
  }

  lemma InductingFits(s: State, i: nat, pick: nat)
    requires FitToSend(s) && Shaped(s) && Numbering(s) && i < |s.inductions|
    ensures FitToSend(InductItem(s, i, pick))
  {
    var ind := s.inductions[i];
    var key := Pid.PidKey(ind.no, ind.mode);
    var n := KeyCount(s.objects, s.resetBase, key);
    assert Pid.Known(key) && Pid.CounterAfter(s.pids, key, n);
    Pid.NextIsNth(s.pids, key, n);
    PidsFit(key, n);
    var t := s.(cellCounter := NextCell(s.cellCounter), pids := Pid.Next(s.pids, key).1);
    AnnouncingFits(t, i, Made(t, ind, Pid.NthPid(key, n), pick));
  }

  lemma SameNumbersFit(s: State, t: State, id: nat, status: ItemStatus)
    requires ItemsFit(s) && id < |s.objects| && t.objects == s.objects[id := s.objects[id].(status := status)]
    requires t.cellCounter == s.cellCounter && t.failures == s.failures
    ensures ItemsFit(t)
  {
    forall j | 0 <= j < |s.objects| ensures Announced(t.objects[j]) <==> Announced(s.objects[j]) {
    }
  }

  lemma DischargingFits(s: State, id: nat, noRead: bool, sorted: bool)
    requires FitToSend(s) && id < |s.objects| && Announced(s.objects[id])
    ensures FitToSend(DischargeItem(s, id, noRead, sorted))
  {
    if s.objects[id].status == InTransit {
      SameNumbersFit(s, DischargeItem(s, id, noRead, sorted), id, Discharged);
    }
  }

  lemma ConfirmingFits(s: State, id: nat, chute: int, recirculation: int, noRead: bool, success: bool)
    requires FitToSend(s) && id < |s.objects| && Short(chute) && Short(recirculation)
    ensures FitToSend(ConfirmItem(s, id, chute, recirculation, noRead, success))
  {
    if s.objects[id].status == Discharged {
      assert Fitting(s.objects[id]);
      SameNumbersFit(s, ConfirmItem(s, id, chute, recirculation, noRead, success), id, Confirmed);
    }
  }

  ghost predicate Ready(s: State) {
    FitToSend(s) && Shaped(s) && Numbering(s) && CallsAnnounced(s)
  }

  lemma CallingFits(s: State, callback: Callback, luck: Luck)
    requires Ready(s) && callback in s.timers
    ensures FitToSend(Call(s, callback, luck))
  {
    match callback
    case Induct(_, i) =>
      if i < |s.inductions| { InductingFits(s, i, luck.pick); }
    case Discharge(id) => DischargingFits(s, id, luck.noRead, luck.sorted);
    case Confirm(id, chute, recirculation, noRead, success) =>
      ConfirmingFits(s, id, chute, recirculation, noRead, success);
  }

  lemma OthersFit(s: State, e: Event)
    requires FitToSend(s) && Shaped(s) && !HandlesItems(e)
    ensures FitToSend(Step(s, e))
  {
    OthersReport(s, e);
    OthersAreQuiet(s, e);
    QuietKeepsFit(s, Step(s, e));
  }

  lemma StepFits(s: State, e: Event)
    requires Ready(s)
    ensures FitToSend(Step(s, e))
  {
    if !HandlesItems(e) {
      OthersFit(s, e);
    } else {
      match e
      case ResetAsked =>
        StopReports(s);
        StopIsQuiet(s);
        QuietKeepsFit(s, Stop(s));
      case ItemInjected(no, pick) =>
        if Place(no, |s.inductions|).Some? { InductingFits(s, Place(no, |s.inductions|).value, pick); }
      case TimerFired(k, luck) =>
        if k < |s.timers| && k in s.live {
          var t := if s.timers[k].Induct? then s else s.(live := s.live - {k});
          SameNumbering(s, t);
          CallingFits(t, s.timers[k], luck);
        }
      case LateCall(k, luck) =>
        if k < |s.timers| { CallingFits(s, s.timers[k], luck); }
    }
  }

  lemma {:induction false} AlwaysReady(config: FullConfig, events: seq<Event>)
    ensures Ready(Run(Initial(config), events))
    decreases |events|
  {
    AlwaysShaped(config, events);
    AlwaysNumbered(config, events);
    AlwaysTraced(config, events);
    if events != [] {
      AlwaysReady(config, events[..|events| - 1]);
      StepFits(Run(Initial(config), events[..|events| - 1]), events[|events| - 1]);
    }
  }

  /** In every run every telegram sent can be encoded, passes the full validation and is read
      back as it was meant; the cell counter wraps within its field. */
  lemma WellFormedOutput(config: FullConfig, events: seq<Event>, i: nat)
    requires i < |Run(Initial(config), events).sent|
    ensures var s := Run(Initial(config), events);
      && 0 <= s.cellCounter <= 65535
      && var m := s.sent[i].message;
      && Encode(m).Some?
      && Accepted(Encode(m).value, Catalog())
      && AutoParse(Encode(m).value, Catalog()).Some?
      && Read(AutoParse(Encode(m).value, Catalog()).value) == Some(m)
  {
    AlwaysReady(config, events);
    MessageRoundTrip(Run(Initial(config), events).sent[i].message);
  }

  /** An item's telegram can be built exactly when its destination fits two bytes, and no
      induction fails exactly when that holds of every item. */
  lemma FailuresExactly(config: FullConfig, events: seq<Event>)
    ensures var s := Run(Initial(config), events);
      && (forall id :: 0 <= id < |s.objects| ==> (Announced(s.objects[id]) <==> s.objects[id].destination <= 65535))
      && (s.failures == 0 <==> forall id :: 0 <= id < |s.objects| ==> s.objects[id].destination <= 65535)
  {
    AlwaysReady(config, events);
    var s := Run(Initial(config), events);
    forall id | 0 <= id < |s.objects| ensures Announced(s.objects[id]) <==> s.objects[id].destination <= 65535 {
      AnnouncedExactly(s.objects[id]);
    }
  }

  // ---- no failures ----

  predicate AtMost65535Chutes(e: Event) {
    e.Configured? && e.changes.chuteCount.Given? ==> e.changes.chuteCount.value <= 65535
  }

  ghost predicate NearDestinations(s: State) {
    Amount(s.config.chuteCount) <= 65535 && forall id :: 0 <= id < |s.objects| ==> s.objects[id].destination <= 65535
  }

  lemma InductingNear(s: State, i: nat, pick: nat)
    requires NearDestinations(s) && i < |s.inductions|
    ensures NearDestinations(InductItem(s, i, pick))
  {
  }

  lemma CallingNear(s: State, callback: Callback, luck: Luck)
    requires NearDestinations(s)
    ensures NearDestinations(Call(s, callback, luck))
  {
    if callback.Induct? && callback.index < |s.inductions| {
      InductingNear(s, callback.index, luck.pick);
    }
  }

  lemma OnlyConfiguringChangesConfig(s: State, e: Event)
    requires !e.Configured?
    ensures Step(s, e).config == s.config
  {
  }

  lemma ConfiguringAssigns(s: State, changes: Changes)
    ensures UpdateConfig(s, changes).config == Assigned(s.config, changes)
  {
  }

  lemma StepNear(s: State, e: Event)
    requires NearDestinations(s) && AtMost65535Chutes(e)
    ensures NearDestinations(Step(s, e))
  {
    if e.Configured? {
      ConfiguringAssigns(s, e.changes);
    } else {
      OnlyConfiguringChangesConfig(s, e);
    }
    if !HandlesItems(e) {
      OthersAreQuiet(s, e);
    } else {
      match e
      case ResetAsked => StopIsQuiet(s);
      case ItemInjected(no, pick) =>
        if Place(no, |s.inductions|).Some? { InductingNear(s, Place(no, |s.inductions|).value, pick); }
      case TimerFired(k, luck) =>
        if k < |s.timers| && k in s.live {
          CallingNear(if s.timers[k].Induct? then s else s.(live := s.live - {k}), s.timers[k], luck);
        }
      case LateCall(k, luck) =>
        if k < |s.timers| { CallingNear(s, s.timers[k], luck); }
    }
  }

  /** With at most 65535 chutes configured at any time no induction ever fails. */
  lemma {:induction false} NothingFails(config: FullConfig, events: seq<Event>)
    requires config.chuteCount.value <= 65535 && forall e :: e in events ==> AtMost65535Chutes(e)
    ensures NearDestinations(Run(Initial(config), events)) && Run(Initial(config), events).failures == 0
    decreases |events|
  {
    if events != [] {
      var earlier, last := events[..|events| - 1], events[|events| - 1];
      assert events == earlier + [last];
      NothingFails(config, earlier);
      StepNear(Run(Initial(config), earlier), last);
    }
    FailuresExactly(config, events);
  }

  // ---- when nothing can fail ----

  /** With more chutes a first item can draw destination 65536, and its induction fails. */
  lemma FirstInductionFails(config: FullConfig) returns (e: Event)
    requires config.chuteCount.value > 65535
    ensures e == ItemInjected(1, 65535) && Run(Initial(config), [e]).failures == 1
  {
    e := ItemInjected(1, 65535);
    RunOfOne(Initial(config), e);
    var s := Initial(config);
    assert s.inductions[0] == Induction(1, Off, Pid.Auto, 0, None);
    assert Pid.Next(s.pids, Pid.PidKey(1, Pid.Auto)).0 == Some(100001);
    assert Destination(config, 65535) == 65536;
  }

  predicate ChangesNoChuteCount(e: Event) {
    e.Configured? ==> !e.changes.chuteCount.Given?
  }

  ghost predicate NeverGivesChuteCount(events: seq<Event>) {
    forall e :: e in events ==> ChangesNoChuteCount(e)
  }

  /** As long as no chute count is given, whatever else happens and is drawn, no induction can
      fail if and only if at most 65535 chutes are configured. */
  lemma NothingCanFailExactly(config: FullConfig)
    ensures (forall events :: NeverGivesChuteCount(events) ==> Run(Initial(config), events).failures == 0)
      <==> config.chuteCount.value <= 65535
  {
    if config.chuteCount.value <= 65535 {
      forall events | NeverGivesChuteCount(events) ensures Run(Initial(config), events).failures == 0 {
        forall e | e in events ensures AtMost65535Chutes(e) {
          assert ChangesNoChuteCount(e);
        }
        NothingFails(config, events);
      }
    } else {
      var e := FirstInductionFails(config);
      assert NeverGivesChuteCount([e]);
    }
  }

  /** In any state that a run can reach, the next induction can fail exactly when more than
      65535 chutes are configured. */
  lemma NextInductionFailsExactly(config: FullConfig, events: seq<Event>)
    ensures var s := Run(Initial(config), events);
      s.inductions != [] ==> ((exists pick: nat :: FailsWith(s, pick)) <==> Amount(s.config.chuteCount) > 65535)
  {
    AlwaysReady(config, events);
    if Run(Initial(config), events).inductions != [] {
      CanFailExactly(Run(Initial(config), events));
    }
  }

  /** An item asked of the first induction ends in an exception. */
  predicate FailsWith(s: State, pick: nat) {
    InjectItem(s, 1, pick).failures != s.failures
  }

  lemma CanFailExactly(s: State)
    requires Ready(s) && s.inductions != []
    ensures (exists pick: nat :: FailsWith(s, pick)) <==> Amount(s.config.chuteCount) > 65535
  {
    if Amount(s.config.chuteCount) > 65535 {
      assert Destination(s.config, 65535) == 65536;
      FailsExactly(s, 65535);
    } else {
      forall pick: nat ensures !FailsWith(s, pick) {
        FailsExactly(s, pick);
      }
    }
  }

  lemma FailsExactly(s: State, pick: nat)
    requires Ready(s) && s.inductions != []
    ensures FailsWith(s, pick) <==> Destination(s.config, pick) > 65535
  {
    var ind := s.inductions[0];
    var key := Pid.PidKey(ind.no, ind.mode);
    var n := KeyCount(s.objects, s.resetBase, key);
    assert Pid.Known(key) && Pid.CounterAfter(s.pids, key, n);
    Pid.NextIsNth(s.pids, key, n);
    PidsFit(key, n);
    var t := s.(cellCounter := NextCell(s.cellCounter), pids := Pid.Next(s.pids, key).1);
    AnnouncedExactly(Made(t, ind, Pid.NthPid(key, n), pick));
  }
}
