/** The counts kept at the inductions and chutes against the totals of the sorter. */
module SorterTotals {
  import opened Prelude
  import opened SorterState
  import opened SorterRuns
  import opened SorterItems

  function Sum(counts: seq<nat>): nat {
    if counts == [] then 0 else Sum(counts[..|counts| - 1]) + counts[|counts| - 1]
  }

  lemma {:induction false} SumUpdated(counts: seq<nat>, i: nat, n: nat)
    requires i < |counts|
    ensures Sum(counts[i := n]) == Sum(counts) - counts[i] + n
    decreases |counts|
  {
    var rest := counts[..|counts| - 1];
    if i == |counts| - 1 {
      assert counts[i := n][..i] == rest;
    } else {
      SumUpdated(rest, i, n);
      assert counts[i := n][..|counts| - 1] == rest[i := n];
    }
  }

  lemma {:induction false} SumOfZeros(n: nat)
    ensures Sum(seq(n, _ => 0)) == 0
  {
    if n > 0 {
      SumOfZeros(n - 1);
      assert seq(n, _ => 0)[..n - 1] == seq(n - 1, _ => 0);
    }
  }

  function InductionCounts(inductions: seq<Induction>): seq<nat> {
    seq(|inductions|, i requires 0 <= i < |inductions| => inductions[i].itemCount)
  }

  function ChuteCounts(chutes: seq<Chute>): seq<nat> {
    seq(|chutes|, i requires 0 <= i < |chutes| => Amount(chutes[i].itemCount))
  }

  ghost predicate AllCounted(chutes: seq<Chute>) {
    forall i :: 0 <= i < |chutes| ==> chutes[i].itemCount.Some?
  }

  /** The inductions together have counted what was inducted, the chutes what was discharged
      with a reading, and every count is a number. */
  ghost predicate TotalsAgree(s: State) {
    && AllCounted(s.chutes)
    && Sum(InductionCounts(s.inductions)) == s.totals.inducted
    && Sum(ChuteCounts(s.chutes)) == s.totals.discharged - s.totals.noRead
  }

  /** The same counts and the same totals, errors aside. */
  ghost predicate SameCounts(s: State, t: State) {
    && InductionCounts(t.inductions) == InductionCounts(s.inductions)
    && ChuteCounts(t.chutes) == ChuteCounts(s.chutes) && (AllCounted(t.chutes) <==> AllCounted(s.chutes))
    && t.totals == s.totals.(errors := t.totals.errors)
  }

  // ---- operations that leave the counts alone ----

  lemma StatusesDoNotCount(inductions: seq<Induction>, chutes: seq<Chute>, status: InductionStatus)
    ensures InductionCounts(WithStatus(inductions, status)) == InductionCounts(inductions)
    ensures InductionCounts(Repaired(inductions)) == InductionCounts(inductions)
    ensures ChuteCounts(Emptied(chutes)) == ChuteCounts(chutes) && (AllCounted(Emptied(chutes)) <==> AllCounted(chutes))
  {
    if AllCounted(Emptied(chutes)) {
      forall i | 0 <= i < |chutes| ensures chutes[i].itemCount.Some? {
        assert Emptied(chutes)[i].itemCount.Some?;
      }
    }
  }

  lemma StartAndStopDoNotCount(s: State)
    ensures SameCounts(s, Start(s)) && SameCounts(s, Stop(s))
  {
    StatusesDoNotCount(s.inductions, s.chutes, On);
    StatusesDoNotCount(s.inductions, s.chutes, Off);
  }

  lemma CommandsDoNotCount(s: State, no: int, request: int)
    ensures SameCounts(s, SetInductionControl(s, no, request)) && SameCounts(s, SetInductionMode(s, no, request))
    ensures SameCounts(s, SetResetRequest(s))
  {
    StatusesDoNotCount(s.inductions, s.chutes, Off);
  }

  lemma ClearingDoesNotCount(s: State, fault: Option<Fault>)
    ensures SameCounts(s, ClearFault(s, fault))
  {
    StatusesDoNotCount(s.inductions, s.chutes, Off);
  }

  lemma OtherFaultsDoNotCount(s: State, fault: Fault, no: Option<int>)
    requires fault != Overflow
    ensures SameCounts(s, TriggerFault(s, fault, no))
  {
  }

  // ---- operations that count ----

  lemma InitializedCountsNothing(s: State)
    ensures Sum(InductionCounts(Initialized(s).inductions)) == 0 && Sum(ChuteCounts(Initialized(s).chutes)) == 0
    ensures Initialized(s).totals == s.totals && AllCounted(Initialized(s).chutes)
  {
    var t := Initialized(s);
    SumOfZeros(|t.inductions|);
    SumOfZeros(|t.chutes|);
    assert InductionCounts(t.inductions) == seq(|t.inductions|, _ => 0);
    assert ChuteCounts(t.chutes) == seq(|t.chutes|, _ => 0);
  }

  predicate Fresh(s: State) {
    s.totals.inducted == 0 && s.totals.discharged == s.totals.noRead
  }

  lemma ReinitializingAgrees(s: State)
    ensures TotalsAgree(Reinitialize(s)) <==> Fresh(s)
  {
    var t := Initialized(if s.status == Running then Stop(s) else s);
    StartAndStopDoNotCount(s);
    InitializedCountsNothing(if s.status == Running then Stop(s) else s);
    StartAndStopDoNotCount(t);
  }

  lemma ConfiguringAgrees(s: State, changes: Changes)
    requires TotalsAgree(s)
    ensures TotalsAgree(UpdateConfig(s, changes)) <==> (ChangesCounts(changes) ==> Fresh(s))
  {
    var t := s.(config := Assigned(s.config, changes));
    ReinitializingAgrees(t);
    var u := if ChangesCounts(changes) then Reinitialize(t) else t;
    assert SameCounts(u, UpdateConfig(s, changes));
  }

  /** An injected overflow overwrites the count of a chute. */
  lemma OverflowAgrees(s: State, no: Option<int>)
    requires TotalsAgree(s)
    ensures TotalsAgree(TriggerFault(s, Overflow, no)) <==>
      var place := OverflowPlace(s, no);
      place.Some? ==> s.chutes[place.value].itemCount == s.config.overflowThreshold
  {
    var place, t := OverflowPlace(s, no), TriggerFault(s, Overflow, no);
    if place.Some? {
      var n := Amount(s.config.overflowThreshold);
      SumUpdated(ChuteCounts(s.chutes), place.value, n);
      assert ChuteCounts(t.chutes) == ChuteCounts(s.chutes)[place.value := n];
      assert t.chutes[place.value].itemCount == s.config.overflowThreshold;
    }
  }

  lemma FilingAgrees(s: State, i: nat, item: Item)
    requires TotalsAgree(s) && i < |s.inductions|
    ensures TotalsAgree(Announce(File(s, i, item), |s.objects|))
  {
    var t := File(s, i, item);
    var n := s.inductions[i].itemCount;
    SumUpdated(InductionCounts(s.inductions), i, n + 1);
    assert InductionCounts(t.inductions) == InductionCounts(s.inductions)[i := n + 1];
  }

  lemma InductingAgrees(s: State, i: nat, pick: nat)
    requires TotalsAgree(s) && i < |s.inductions|
    ensures TotalsAgree(InductItem(s, i, pick))
  {
    var ind := s.inductions[i];
    var generated := Pid.Next(s.pids, Pid.PidKey(ind.no, ind.mode));
    var t := s.(cellCounter := NextCell(s.cellCounter), pids := generated.1);
    if generated.0.Some? {
      FilingAgrees(t, i, Made(t, ind, generated.0.value, pick));
    }
  }

  /** A discharge is counted at a chute unless it was a read failure. */
  lemma DischargingAgrees(s: State, id: nat, noRead: bool, sorted: bool)
    requires TotalsAgree(s) && id < |s.objects|
    ensures TotalsAgree(DischargeItem(s, id, noRead, sorted)) <==>
      (s.objects[id].status == InTransit && !noRead ==> 1 <= s.objects[id].destination <= |s.chutes|)
  {
    var chute, t := s.objects[id].destination, DischargeItem(s, id, noRead, sorted);
    if s.objects[id].status == InTransit && !noRead && 1 <= chute <= |s.chutes| {
      var n := Amount(s.chutes[chute - 1].itemCount);
      SumUpdated(ChuteCounts(s.chutes), chute - 1, n + 1);
      assert ChuteCounts(t.chutes) == ChuteCounts(s.chutes)[chute - 1 := n + 1];
    }
  }

  // ---- runs ----

  predicate CallKeepsTotals(s: State, callback: Callback, luck: Luck) {
    callback.Discharge? && Acts(s, callback) && !luck.noRead ==> 1 <= s.objects[callback.item].destination <= |s.chutes|
  }

  /** What a step must not do for the counts to go on agreeing: reconfigure counts once
      something was counted, inject an overflow into a chute that is not just full, or
      discharge to a chute that no longer exists. */
  predicate KeepsTotals(s: State, e: Event) {
    match e
    case Configured(changes) => ChangesCounts(changes) ==> Fresh(s)
    case FaultInjected(fault, no) =>
      fault == Overflow && OverflowPlace(s, no).Some? ==>
        s.chutes[OverflowPlace(s, no).value].itemCount == s.config.overflowThreshold
    case TimerFired(k, luck) => k < |s.timers| && k in s.live ==> CallKeepsTotals(s, s.timers[k], luck)
    case LateCall(k, luck) => k < |s.timers| ==> CallKeepsTotals(s, s.timers[k], luck)
    case _ => true
  }

  lemma CallingAgrees(s: State, callback: Callback, luck: Luck)
    requires TotalsAgree(s)
    ensures TotalsAgree(Call(s, callback, luck)) <==> CallKeepsTotals(s, callback, luck)
  {
    match callback
    case Induct(_, i) =>
      if i < |s.inductions| { InductingAgrees(s, i, luck.pick); }
    case Discharge(id) =>
      if id < |s.objects| { DischargingAgrees(s, id, luck.noRead, luck.sorted); }
    case Confirm(_, _, _, _, _) =>
      var t := Call(s, callback, luck);
      assert t.inductions == s.inductions && t.chutes == s.chutes;
  }

  lemma SameCountsAgree(s: State, t: State)
    requires SameCounts(s, t)
    ensures TotalsAgree(t) <==> TotalsAgree(s)
  {
  }

  lemma OthersAgreeExactly(s: State, e: Event)
    requires TotalsAgree(s) && !HandlesItems(e)
    ensures TotalsAgree(Step(s, e)) <==> KeepsTotals(s, e)
  {
    match e
    case StartAsked => StartAndStopDoNotCount(s);
    case StopAsked => StartAndStopDoNotCount(s);
    case Configured(changes) => ConfiguringAgrees(s, changes);
    case SorterCommand(_) => StartAndStopDoNotCount(s);
    case InductionCommand(no, request) => CommandsDoNotCount(s, no, request);
    case ModeCommand(no, request) => CommandsDoNotCount(s, no, request);
    case ResetCommand => CommandsDoNotCount(s, 0, 0);
    case FaultInjected(fault, no) =>
      if fault == Overflow { OverflowAgrees(s, no); } else { OtherFaultsDoNotCount(s, fault, no); }
    case FaultCleared(fault) => ClearingDoesNotCount(s, fault);
  }

  /** Counts that agree go on agreeing exactly when the step keeps them. */
  lemma StepAgreesExactly(s: State, e: Event)
    requires TotalsAgree(s)
    ensures TotalsAgree(Step(s, e)) <==> KeepsTotals(s, e)
  {
    if !HandlesItems(e) {
      OthersAgreeExactly(s, e);
    } else {
      match e
      case ResetAsked => InitializedCountsNothing(Wiped(Stop(s)));
      case ItemInjected(no, pick) =>
        if Place(no, |s.inductions|).Some? { InductingAgrees(s, Place(no, |s.inductions|).value, pick); }
      case TimerFired(k, luck) =>
        if k < |s.timers| && k in s.live {
          CallingAgrees(if s.timers[k].Induct? then s else s.(live := s.live - {k}), s.timers[k], luck);
        }
      case LateCall(k, luck) =>
        if k < |s.timers| { CallingAgrees(s, s.timers[k], luck); }
    }
  }

  ghost predicate AgreeThroughout(s: State, events: seq<Event>) {
    TotalsAgree(Run(s, events)) && (events == [] || AgreeThroughout(s, events[..|events| - 1]))
  }

  ghost predicate AllKeepTotals(s: State, events: seq<Event>) {
    events == []
    || (AllKeepTotals(s, events[..|events| - 1]) && KeepsTotals(Run(s, events[..|events| - 1]), events[|events| - 1]))
  }

  lemma NothingCountedAtFirst(config: FullConfig)
    ensures TotalsAgree(Initial(config))
  {
    InitializedCountsNothing(Initial(config));
    SameCountsAgree(Initialized(Initial(config)), Initial(config));
  }

  /** Over a whole run the counts agree at every point exactly when every step keeps them. */
  lemma {:induction false} TotalsAgreeExactly(config: FullConfig, events: seq<Event>)
    ensures AgreeThroughout(Initial(config), events) <==> AllKeepTotals(Initial(config), events)
    decreases |events|
  {
    if events == [] {
      NothingCountedAtFirst(config);
    } else {
      var earlier, last := events[..|events| - 1], events[|events| - 1];
      TotalsAgreeExactly(config, earlier);
      if AgreeThroughout(Initial(config), earlier) {
        StepAgreesExactly(Run(Initial(config), earlier), last);
      }
    }
  }

  // ---- runs without overflow injection and reconfigured counts ----

  predicate LeavesCountsAlone(e: Event) {
    match e
    case Configured(changes) => !ChangesCounts(changes) && !changes.chuteCount.Undefined?
    case FaultInjected(fault, _) => fault != Overflow
    case _ => true
  }

  ghost predicate ToExistingChutes(s: State) {
    s.config.chuteCount == Some(|s.chutes|)
    && forall id :: 0 <= id < |s.objects| ==> 1 <= s.objects[id].destination <= |s.chutes|
  }

  lemma InductingToExistingChutes(s: State, i: nat, pick: nat)
    requires ToExistingChutes(s) && i < |s.inductions|
    ensures ToExistingChutes(InductItem(s, i, pick))
  {
  }

  lemma CallingToExistingChutes(s: State, callback: Callback, luck: Luck)
    requires ToExistingChutes(s)
    ensures ToExistingChutes(Call(s, callback, luck))
  {
    if callback.Induct? && callback.index < |s.inductions| {
      InductingToExistingChutes(s, callback.index, luck.pick);
    }
  }

  lemma OthersKeepChutes(s: State, e: Event)
    requires !HandlesItems(e) && LeavesCountsAlone(e)
    ensures |Step(s, e).chutes| == |s.chutes|
    ensures s.config.chuteCount == Step(s, e).config.chuteCount
  {
    match e
    case StartAsked => StartAndStopKeepCounts(s);
    case StopAsked => StartAndStopKeepCounts(s);
    case Configured(changes) =>
    case SorterCommand(_) => StartAndStopKeepCounts(s);
    case InductionCommand(no, request) => CommandsKeepCounts(s, no, request);
    case ModeCommand(no, request) => CommandsKeepCounts(s, no, request);
    case ResetCommand => CommandsKeepCounts(s, 0, 0);
    case FaultInjected(fault, no) => FaultsKeepCounts(s, fault, no);
    case FaultCleared(fault) => ClearingKeepsCounts(s, fault);
  }

  lemma StepToExistingChutes(s: State, e: Event)
    requires ToExistingChutes(s) && LeavesCountsAlone(e)
    ensures ToExistingChutes(Step(s, e))
  {
    if !HandlesItems(e) {
      OthersAreQuiet(s, e);
      OthersKeepChutes(s, e);
    } else {
      match e
      case ResetAsked => StopIsQuiet(s);
      case ItemInjected(no, pick) =>
        if Place(no, |s.inductions|).Some? { InductingToExistingChutes(s, Place(no, |s.inductions|).value, pick); }
      case TimerFired(k, luck) =>
        if k < |s.timers| && k in s.live {
          CallingToExistingChutes(if s.timers[k].Induct? then s else s.(live := s.live - {k}), s.timers[k], luck);
        }
      case LateCall(k, luck) =>
        if k < |s.timers| { CallingToExistingChutes(s, s.timers[k], luck); }
    }
  }

  lemma StepAloneAgrees(s: State, e: Event)
    requires TotalsAgree(s) && ToExistingChutes(s) && LeavesCountsAlone(e)
    ensures TotalsAgree(Step(s, e)) && ToExistingChutes(Step(s, e))
  {
    StepAgreesExactly(s, e);
    StepToExistingChutes(s, e);
  }

  /** In every run without an injected overflow and without reconfigured counts, across all
      resets, the inductions' counts sum up to the inducted total and the chutes' to the
      discharged without the unread. */
  lemma {:induction false} TotalsAlwaysAgree(config: FullConfig, events: seq<Event>)
    requires forall e :: e in events ==> LeavesCountsAlone(e)
    ensures TotalsAgree(Run(Initial(config), events)) && ToExistingChutes(Run(Initial(config), events))
    decreases |events|
  {
    if events == [] {
      NothingCountedAtFirst(config);
    } else {
      var earlier, last := events[..|events| - 1], events[|events| - 1];
      assert forall e :: e in earlier ==> e in events;
      TotalsAlwaysAgree(config, earlier);
      StepAloneAgrees(Run(Initial(config), earlier), last);
    }
  }
}
