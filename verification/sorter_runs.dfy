/** Runs of the virtual sorter: commands, faults, reconfigurations and timers in any order. */
module SorterRuns {
  import opened Prelude
  import opened SorterState

  datatype Event =
    | StartAsked
    | StopAsked
    | ResetAsked
    | Configured(changes: Changes)
    | SorterCommand(request: int)
    | InductionCommand(no: int, request: int)
    | ModeCommand(no: int, request: int)
    | ResetCommand
    | FaultInjected(fault: Fault, inductionNo: Option<int>)
    | FaultCleared(cleared: Option<Fault>)
    | ItemInjected(no: int, pick: nat)
    | TimerFired(timer: nat, luck: Luck)
    | LateCall(timer: nat, luck: Luck)

  function Step(s: State, e: Event): State {
    match e
    case StartAsked => Start(s)
    case StopAsked => Stop(s)
    case ResetAsked => Reset(s)
    case Configured(changes) => UpdateConfig(s, changes)
    case SorterCommand(request) => SetSorterControl(s, request)
    case InductionCommand(no, request) => SetInductionControl(s, no, request)
    case ModeCommand(no, request) => SetInductionMode(s, no, request)
    case ResetCommand => SetResetRequest(s)
    case FaultInjected(fault, no) => TriggerFault(s, fault, no)
    case FaultCleared(fault) => ClearFault(s, fault)
    case ItemInjected(no, pick) => InjectItem(s, no, pick)
    case TimerFired(k, luck) => Fire(s, k, luck)
    case LateCall(k, luck) => Late(s, k, luck)
  }

  function Run(s: State, events: seq<Event>): State {
    if events == [] then s else Step(Run(s, events[..|events| - 1]), events[|events| - 1])
  }

  /** Items are handled by these events; the others leave them alone. */
  predicate HandlesItems(e: Event) {
    e.ResetAsked? || e.ItemInjected? || e.TimerFired? || e.LateCall?
  }

  // ---- timers ----

  ghost predicate ListsLiveTimers(s: State) {
    && (forall k :: k in s.inductionTimers ==> k < |s.timers| && k in s.live && s.timers[k].Induct?)
    && (forall k :: k in s.pendingTimers ==> k < |s.timers| && !s.timers[k].Induct?)
    && (forall k :: k in s.live ==> k < |s.timers| && (k in s.inductionTimers || k in s.pendingTimers))
  }

  /** The induction timers listed belong to the inductions, one after the other. */
  ghost predicate OnePerInduction(s: State) {
    && |s.inductionTimers| == |s.inductions|
    && (forall i :: 0 <= i < |s.inductionTimers| ==>
          s.inductionTimers[i] < |s.timers| && s.timers[s.inductionTimers[i]] == Induct(s.epoch, i))
  }

  ghost predicate TimersInStep(s: State) {
    && ListsLiveTimers(s)
    && s.status != Stopping
    && (if s.status == Running then OnePerInduction(s) else s.inductionTimers == [])
  }

  lemma StartedTimers(s: State)
    requires ListsLiveTimers(s) && s.inductionTimers == []
    ensures ListsLiveTimers(StartInductionTimers(s)) && OnePerInduction(StartInductionTimers(s))
  {
    var n, t := |s.inductions|, StartInductionTimers(s);
    assert s.inductionTimers + From(|s.timers|, n) == From(|s.timers|, n);
    forall k | k in From(|s.timers|, n) ensures k < |t.timers| && t.timers[k].Induct? {
    }
  }

  lemma StoppedTimers(s: State)
    requires ListsLiveTimers(s)
    ensures ListsLiveTimers(StopInductionTimers(s))
    ensures ListsLiveTimers(ClearPendingTimers(s))
  {
  }

  lemma ScheduledTimers(s: State, callback: Callback)
    requires ListsLiveTimers(s) && !callback.Induct?
    ensures ListsLiveTimers(Schedule(s, callback))
  {
    var t := Schedule(s, callback);
    assert t.timers[|s.timers|] == callback;
  }

  lemma StartKeepsTimers(s: State)
    requires TimersInStep(s)
    ensures TimersInStep(Start(s))
  {
    if s.status != Running {
      var t := s.(status := Running, inductions := WithStatus(s.inductions, On));
      StartedTimers(SendAllInductionStatus(SendSorterStatus(t)));
    }
  }

  lemma StopKeepsTimers(s: State)
    requires TimersInStep(s)
    ensures TimersInStep(Stop(s)) && Stop(s).status == Stopped
    ensures s.status != Stopped ==> Stop(s).live == {}
  {
    if s.status != Stopped {
      var t := SendSorterStatus(s.(status := Stopping));
      StoppedTimers(t);
      StoppedTimers(StopInductionTimers(t));
    }
  }

  lemma ReinitializeKeepsTimers(s: State)
    requires TimersInStep(s)
    ensures TimersInStep(Reinitialize(s))
  {
    if s.status == Running {
      StopKeepsTimers(s);
      StartKeepsTimers(Initialized(Stop(s)));
    }
  }

  lemma UpdateConfigKeepsTimers(s: State, changes: Changes)
    requires TimersInStep(s)
    ensures TimersInStep(UpdateConfig(s, changes))
  {
    var t := s.(config := Assigned(s.config, changes));
    ReinitializeKeepsTimers(t);
    var u := if ChangesCounts(changes) then Reinitialize(t) else t;
    if changes.intervalGiven && u.status == Running {
      StoppedTimers(u);
      StartedTimers(StopInductionTimers(u));
    }
  }

  lemma TriggerFaultKeepsTimers(s: State, fault: Fault, no: Option<int>)
    requires TimersInStep(s)
    ensures TimersInStep(TriggerFault(s, fault, no))
  {
    if fault == MotorTrip {
      StoppedTimers(SendSorterStatus(s.(status := Emergency)));
    }
  }

  lemma InductItemKeepsTimers(s: State, i: nat, pick: nat)
    requires i < |s.inductions| && TimersInStep(s)
    ensures TimersInStep(InductItem(s, i, pick))
  {
    var ind := s.inductions[i];
    var generated := Pid.Next(s.pids, Pid.PidKey(ind.no, ind.mode));
    if generated.0.Some? {
      var t := s.(cellCounter := NextCell(s.cellCounter), pids := generated.1);
      var item := Made(t, ind, generated.0.value, pick);
      AnnounceKeepsTimers(File(t, i, item), |s.objects|);
    }
  }

  lemma AnnounceKeepsTimers(s: State, item: nat)
    requires item < |s.objects| && TimersInStep(s)
    ensures TimersInStep(Announce(s, item))
  {
    ScheduledTimers(s, Discharge(item));
  }

  lemma DischargeItemKeepsTimers(s: State, id: nat, noRead: bool, sorted: bool)
    requires id < |s.objects| && TimersInStep(s)
    ensures TimersInStep(DischargeItem(s, id, noRead, sorted))
  {
    var success := !noRead && sorted;
    var chute := if noRead then 0 else s.objects[id].destination;
    ScheduledTimers(s, Confirm(id, chute, if !noRead && !success then 1 else 0, noRead, success));
  }

  lemma CallKeepsTimers(s: State, callback: Callback, luck: Luck)
    requires TimersInStep(s)
    ensures TimersInStep(Call(s, callback, luck))
  {
    match callback
    case Induct(epoch, i) =>
      if i < |s.inductions| { InductItemKeepsTimers(s, i, luck.pick); }
    case Discharge(id) =>
      if id < |s.objects| { DischargeItemKeepsTimers(s, id, luck.noRead, luck.sorted); }
    case Confirm(_, _, _, _, _) =>
  }

  lemma CommandsKeepTimers(s: State, no: int, request: int)
    requires TimersInStep(s)
    ensures TimersInStep(SetInductionControl(s, no, request)) && TimersInStep(SetInductionMode(s, no, request))
    ensures TimersInStep(SetResetRequest(s))
  {
  }

  lemma ClearFaultKeepsTimers(s: State, fault: Option<Fault>)
    requires TimersInStep(s)
    ensures TimersInStep(ClearFault(s, fault))
  {
  }

  lemma OthersKeepTimers(s: State, e: Event)
    requires TimersInStep(s) && !HandlesItems(e)
    ensures TimersInStep(Step(s, e))
  {
    match e
    case StartAsked => StartKeepsTimers(s);
    case StopAsked => StopKeepsTimers(s);
    case Configured(changes) => UpdateConfigKeepsTimers(s, changes);
    case SorterCommand(_) => StartKeepsTimers(s); StopKeepsTimers(s);
    case InductionCommand(no, request) => CommandsKeepTimers(s, no, request);
    case ModeCommand(no, request) => CommandsKeepTimers(s, no, request);
    case ResetCommand => CommandsKeepTimers(s, 0, 0);
    case FaultInjected(fault, no) => TriggerFaultKeepsTimers(s, fault, no);
    case FaultCleared(fault) => ClearFaultKeepsTimers(s, fault);
  }

  lemma StepKeepsTimers(s: State, e: Event)
    requires TimersInStep(s)
    ensures TimersInStep(Step(s, e))
  {
    if !HandlesItems(e) {
      OthersKeepTimers(s, e);
    } else {
      match e
      case ResetAsked => StopKeepsTimers(s);
      case ItemInjected(no, pick) =>
        if Place(no, |s.inductions|).Some? { InductItemKeepsTimers(s, Place(no, |s.inductions|).value, pick); }
      case TimerFired(k, luck) =>
        if k < |s.timers| && k in s.live {
          CallKeepsTimers(if s.timers[k].Induct? then s else s.(live := s.live - {k}), s.timers[k], luck);
        }
      case LateCall(k, luck) =>
        if k < |s.timers| { CallKeepsTimers(s, s.timers[k], luck); }
    }
  }

  lemma {:induction false} TimersAlwaysInStep(config: FullConfig, events: seq<Event>)
    ensures TimersInStep(Run(Initial(config), events))
    decreases |events|
  {
    if events != [] {
      var earlier := events[..|events| - 1];
      TimersAlwaysInStep(config, earlier);
      StepKeepsTimers(Run(Initial(config), earlier), events[|events| - 1]);
    }
  }

  /** The live timer of an induction as it now is. */
  ghost predicate Drives(s: State, k: nat, i: nat) {
    k < |s.timers| && k in s.live && s.timers[k] == Induct(s.epoch, i)
  }

  ghost predicate Driven(s: State, i: nat) {
    exists k: nat :: Drives(s, k, i)
  }

  /** While the sorter runs each induction has exactly one live timer and no other induction
      timer is live, also none of an induction made before; otherwise none is live. */
  ghost predicate OneTimerEach(s: State) {
    && (forall k :: k in s.live && k < |s.timers| && s.timers[k].Induct? ==>
          s.status == Running && s.timers[k].epoch == s.epoch && s.timers[k].index < |s.inductions|)
    && (s.status == Running ==> forall i :: 0 <= i < |s.inductions| ==> Driven(s, i))
    && (forall i, j, k :: Drives(s, j, i) && Drives(s, k, i) ==> j == k)
  }

  lemma InStepMeansOneEach(s: State)
    requires TimersInStep(s)
    ensures OneTimerEach(s)
  {
    forall k | k in s.live && s.timers[k].Induct?
      ensures s.status == Running && s.timers[k].epoch == s.epoch && s.timers[k].index < |s.inductions|
    {
      var i :| 0 <= i < |s.inductionTimers| && s.inductionTimers[i] == k;
      assert s.timers[s.inductionTimers[i]] == Induct(s.epoch, i);
    }
    if s.status == Running {
      forall i | 0 <= i < |s.inductions| ensures Driven(s, i) {
        assert s.inductionTimers[i] in s.inductionTimers;
        assert Drives(s, s.inductionTimers[i], i);
      }
    }
    forall i, j, k | Drives(s, j, i) && Drives(s, k, i) ensures j == k {
      DriverIsListed(s, j, i);
      DriverIsListed(s, k, i);
    }
  }

  /** In every run, whatever is stopped, tripped, repaired, reset or reconfigured. */
  lemma InductionTimers(config: FullConfig, events: seq<Event>)
    ensures OneTimerEach(Run(Initial(config), events))
  {
    TimersAlwaysInStep(config, events);
    InStepMeansOneEach(Run(Initial(config), events));
  }

  lemma DriverIsListed(s: State, k: nat, i: nat)
    requires TimersInStep(s) && Drives(s, k, i)
    ensures i < |s.inductionTimers| && k == s.inductionTimers[i]
  {
    var m :| 0 <= m < |s.inductionTimers| && s.inductionTimers[m] == k;
    assert s.timers[s.inductionTimers[m]] == Induct(s.epoch, m);
  }

  // ---- inductions and chutes ----

  /** At most four inductions, and inductions and chutes in the order of their numbers. */
  ghost predicate Shaped(s: State) {
    |s.inductions| <= 4 && Numbered(s)
  }

  lemma StartAndStopKeepShape(s: State)
    requires Numbered(s)
    ensures |Start(s).inductions| == |s.inductions| && Start(s).chutes == s.chutes && Numbered(Start(s))
    ensures |Stop(s).inductions| == |s.inductions| && Stop(s).chutes == s.chutes && Numbered(Stop(s))
    ensures Start(s).config == s.config && Stop(s).config == s.config
  {
  }

  lemma UpdateConfigKeepsShape(s: State, changes: Changes)
    requires Shaped(s)
    ensures Shaped(UpdateConfig(s, changes))
  {
    var t := s.(config := Assigned(s.config, changes));
    if ChangesCounts(changes) {
      StartAndStopKeepShape(Initialized(if s.status == Running then Stop(t) else t));
    }
  }

  lemma TriggerFaultKeepsShape(s: State, fault: Fault, no: Option<int>)
    requires Shaped(s)
    ensures Shaped(TriggerFault(s, fault, no))
  {
  }

  lemma ClearFaultKeepsShape(s: State, fault: Option<Fault>)
    requires Shaped(s)
    ensures Shaped(ClearFault(s, fault))
  {
  }

  lemma CommandsKeepShape(s: State, no: int, request: int)
    requires Shaped(s)
    ensures Shaped(SetInductionControl(s, no, request)) && Shaped(SetInductionMode(s, no, request))
    ensures Shaped(SetResetRequest(s))
  {
  }

  lemma InductItemKeepsShape(s: State, i: nat, pick: nat)
    requires Shaped(s) && i < |s.inductions|
    ensures Shaped(InductItem(s, i, pick))
  {
  }

  lemma CallKeepsShape(s: State, callback: Callback, luck: Luck)
    requires Shaped(s)
    ensures Shaped(Call(s, callback, luck))
  {
  }

  lemma OthersKeepShape(s: State, e: Event)
    requires Shaped(s) && !HandlesItems(e)
    ensures Shaped(Step(s, e))
  {
    match e
    case StartAsked => StartAndStopKeepShape(s);
    case StopAsked => StartAndStopKeepShape(s);
    case Configured(changes) => UpdateConfigKeepsShape(s, changes);
    case SorterCommand(_) => StartAndStopKeepShape(s);
    case InductionCommand(no, request) => CommandsKeepShape(s, no, request);
    case ModeCommand(no, request) => CommandsKeepShape(s, no, request);
    case ResetCommand => CommandsKeepShape(s, 0, 0);
    case FaultInjected(fault, no) => TriggerFaultKeepsShape(s, fault, no);
    case FaultCleared(fault) => ClearFaultKeepsShape(s, fault);
  }

  lemma StepKeepsShape(s: State, e: Event)
    requires Shaped(s)
    ensures Shaped(Step(s, e))
  {
    if !HandlesItems(e) {
      OthersKeepShape(s, e);
    } else {
      match e
      case ResetAsked =>
      case ItemInjected(no, pick) =>
        if Place(no, |s.inductions|).Some? { InductItemKeepsShape(s, Place(no, |s.inductions|).value, pick); }
      case TimerFired(k, luck) =>
        if k < |s.timers| && k in s.live {
          CallKeepsShape(if s.timers[k].Induct? then s else s.(live := s.live - {k}), s.timers[k], luck);
        }
      case LateCall(k, luck) =>
        if k < |s.timers| { CallKeepsShape(s, s.timers[k], luck); }
    }
  }

  lemma {:induction false} AlwaysShaped(config: FullConfig, events: seq<Event>)
    ensures Shaped(Run(Initial(config), events))
    decreases |events|
  {
    if events != [] {
      var earlier := events[..|events| - 1];
      AlwaysShaped(config, earlier);
      StepKeepsShape(Run(Initial(config), earlier), events[|events| - 1]);
    }
  }

  // ---- as many as configured ----

  /** As many inductions and chutes as the configuration says. */
  predicate AsConfigured(s: State) {
    |s.inductions| == Amount(s.config.inductionCount) && |s.chutes| == Amount(s.config.chuteCount)
  }

  /** Undefined counts are stored but rebuild nothing, unless the other count is given. */
  predicate KeepsAsConfigured(s: State, e: Event) {
    match e
    case Configured(changes) =>
      || ChangesCounts(changes)
      || ((changes.inductionCount.Undefined? ==> s.inductions == [])
          && (changes.chuteCount.Undefined? ==> s.chutes == []))
    case _ => true
  }

  lemma StartAndStopKeepCounts(s: State)
    ensures var t := Start(s);
      |t.inductions| == |s.inductions| && |t.chutes| == |s.chutes| && t.config == s.config
    ensures var t := Stop(s);
      |t.inductions| == |s.inductions| && |t.chutes| == |s.chutes| && t.config == s.config
  {
  }

  lemma ReinitializedAsConfigured(s: State)
    ensures AsConfigured(Reinitialize(s)) && Reinitialize(s).config == s.config
  {
    if s.status == Running {
      StartAndStopKeepCounts(s);
      StartAndStopKeepCounts(Initialized(Stop(s)));
    }
  }

  lemma ConfiguredExactly(s: State, changes: Changes)
    requires AsConfigured(s)
    ensures AsConfigured(UpdateConfig(s, changes)) <==> KeepsAsConfigured(s, Configured(changes))
  {
    var t := s.(config := Assigned(s.config, changes));
    if ChangesCounts(changes) {
      ReinitializedAsConfigured(t);
    }
  }

  lemma CommandsKeepCounts(s: State, no: int, request: int)
    ensures var t := SetInductionControl(s, no, request);
      |t.inductions| == |s.inductions| && t.chutes == s.chutes && t.config == s.config
    ensures var t := SetInductionMode(s, no, request);
      |t.inductions| == |s.inductions| && t.chutes == s.chutes && t.config == s.config
    ensures var t := SetResetRequest(s);
      |t.inductions| == |s.inductions| && t.chutes == s.chutes && t.config == s.config
  {
  }

  lemma FaultsKeepCounts(s: State, fault: Fault, no: Option<int>)
    ensures var t := TriggerFault(s, fault, no);
      |t.inductions| == |s.inductions| && |t.chutes| == |s.chutes| && t.config == s.config
  {
  }

  lemma ClearingKeepsCounts(s: State, fault: Option<Fault>)
    ensures var t := ClearFault(s, fault);
      |t.inductions| == |s.inductions| && |t.chutes| == |s.chutes| && t.config == s.config
  {
  }

  lemma CallKeepsCounts(s: State, callback: Callback, luck: Luck)
    ensures var t := Call(s, callback, luck);
      |t.inductions| == |s.inductions| && |t.chutes| == |s.chutes| && t.config == s.config
  {
  }

  lemma StepAsConfiguredExactly(s: State, e: Event)
    requires AsConfigured(s)
    ensures AsConfigured(Step(s, e)) <==> KeepsAsConfigured(s, e)
  {
    match e
    case StartAsked => StartAndStopKeepCounts(s);
    case StopAsked => StartAndStopKeepCounts(s);
    case ResetAsked =>
    case Configured(changes) => ConfiguredExactly(s, changes);
    case SorterCommand(_) => StartAndStopKeepCounts(s);
    case ItemInjected(no, pick) =>
    case TimerFired(k, luck) =>
      if k < |s.timers| && k in s.live {
        CallKeepsCounts(if s.timers[k].Induct? then s else s.(live := s.live - {k}), s.timers[k], luck);
      }
    case LateCall(k, luck) =>
      if k < |s.timers| { CallKeepsCounts(s, s.timers[k], luck); }
    case InductionCommand(no, request) => CommandsKeepCounts(s, no, request);
    case ModeCommand(no, request) => CommandsKeepCounts(s, no, request);
    case ResetCommand => CommandsKeepCounts(s, 0, 0);
    case FaultInjected(fault, no) => FaultsKeepCounts(s, fault, no);
    case FaultCleared(fault) => ClearingKeepsCounts(s, fault);
  }

  ghost predicate AsConfiguredThroughout(s: State, events: seq<Event>) {
    AsConfigured(Run(s, events)) && (events == [] || AsConfiguredThroughout(s, events[..|events| - 1]))
  }

  ghost predicate AllKeepAsConfigured(s: State, events: seq<Event>) {
    events == []
    || (AllKeepAsConfigured(s, events[..|events| - 1])
        && KeepsAsConfigured(Run(s, events[..|events| - 1]), events[|events| - 1]))
  }

  /** Over a whole run there are as many inductions and chutes as configured throughout,
      exactly when no step stores an undefined count without rebuilding. */
  lemma {:induction false} AsConfiguredExactly(config: FullConfig, events: seq<Event>)
    ensures AsConfiguredThroughout(Initial(config), events) <==> AllKeepAsConfigured(Initial(config), events)
    decreases |events|
  {
    if events != [] {
      var earlier, last := events[..|events| - 1], events[|events| - 1];
      AsConfiguredExactly(config, earlier);
      if AsConfiguredThroughout(Initial(config), earlier) {
        StepAsConfiguredExactly(Run(Initial(config), earlier), last);
      }
    }
  }
}
