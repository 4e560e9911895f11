/** When the overflow flag of a chute means that the chute is full. */
module SorterChutes {
  import opened Prelude
  import opened SorterState
  import opened SorterRuns

  /** A chute is marked exactly when it holds as many items as the threshold. */
  ghost predicate MarkedWhenFull(chutes: seq<Chute>, threshold: Option<Positive>) {
    forall i :: 0 <= i < |chutes| ==> (chutes[i].overflow <==> Reaches(chutes[i].itemCount, threshold))
  }

  ghost predicate FlagsRight(s: State) {
    MarkedWhenFull(s.chutes, s.config.overflowThreshold)
  }

  ghost predicate NoneMarked(chutes: seq<Chute>) {
    forall i :: 0 <= i < |chutes| ==> !chutes[i].overflow
  }

  /** No chute is full under one threshold and not under the other. */
  ghost predicate Indifferent(chutes: seq<Chute>, before: Option<Positive>, after: Option<Positive>) {
    forall i :: 0 <= i < |chutes| ==> (Reaches(chutes[i].itemCount, before) <==> Reaches(chutes[i].itemCount, after))
  }

  lemma DroppingMarks(chutes: seq<Chute>, chute: int, threshold: Option<Positive>)
    requires MarkedWhenFull(chutes, threshold)
    ensures MarkedWhenFull(Dropped(chutes, chute, threshold), threshold)
  {
  }

  lemma InitializedMarks(s: State)
    ensures FlagsRight(Initialized(s))
  {
  }

  lemma StartAndStopKeepChutes(s: State)
    ensures Start(s).chutes == s.chutes && Start(s).config == s.config
    ensures Stop(s).chutes == s.chutes && Stop(s).config == s.config
  {
  }

  lemma ConfiguringMarks(s: State, changes: Changes)
    requires FlagsRight(s)
    ensures FlagsRight(UpdateConfig(s, changes)) <==>
      ChangesCounts(changes)
      || Indifferent(s.chutes, s.config.overflowThreshold,
          Changed(changes.overflowThreshold, s.config.overflowThreshold))
  {
    var t, after := s.(config := Assigned(s.config, changes)),
        Changed(changes.overflowThreshold, s.config.overflowThreshold);
    if ChangesCounts(changes) {
      var u := Initialized(if s.status == Running then Stop(t) else t);
      StartAndStopKeepChutes(t);
      InitializedMarks(if s.status == Running then Stop(t) else t);
      StartAndStopKeepChutes(u);
      assert UpdateConfig(s, changes).chutes == u.chutes && UpdateConfig(s, changes).config == t.config;
    } else {
      assert UpdateConfig(s, changes).chutes == s.chutes && UpdateConfig(s, changes).config == t.config;
      assert MarkedWhenFull(s.chutes, after) <==> Indifferent(s.chutes, s.config.overflowThreshold, after);
    }
  }

  lemma ClearingMarks(s: State, fault: Option<Fault>)
    requires FlagsRight(s)
    ensures FlagsRight(ClearFault(s, fault)) <==> (fault == None || fault.value == Overflow ==> NoneMarked(s.chutes))
  {
    var t := ClearFault(s, fault);
    if fault == None || fault.value == Overflow {
      assert t.chutes == Emptied(s.chutes);
      if FlagsRight(t) {
        forall i | 0 <= i < |s.chutes| ensures !s.chutes[i].overflow {
          assert !t.chutes[i].overflow;
        }
      }
    } else {
      assert t.chutes == s.chutes;
    }
  }

  lemma TriggeringMarks(s: State, fault: Fault, no: Option<int>)
    requires FlagsRight(s)
    ensures FlagsRight(TriggerFault(s, fault, no)) <==>
      (fault == Overflow && OverflowPlace(s, no).Some? ==> s.config.overflowThreshold.Some?)
  {
    var t := TriggerFault(s, fault, no);
    if fault == Overflow && OverflowPlace(s, no).Some? {
      assert t.chutes[OverflowPlace(s, no).value].overflow;
    } else {
      assert t.chutes == s.chutes;
    }
  }

  lemma CommandsKeepChutes(s: State, no: int, request: int)
    ensures SetInductionControl(s, no, request).chutes == s.chutes
    ensures SetInductionControl(s, no, request).config == s.config
    ensures SetInductionMode(s, no, request).chutes == s.chutes && SetInductionMode(s, no, request).config == s.config
    ensures SetResetRequest(s).chutes == s.chutes && SetResetRequest(s).config == s.config
  {
  }

  lemma CallingMarks(s: State, callback: Callback, luck: Luck)
    requires FlagsRight(s)
    ensures FlagsRight(Call(s, callback, luck))
  {
    if callback.Discharge? && callback.item < |s.objects| {
      var chute := if luck.noRead then 0 else s.objects[callback.item].destination;
      DroppingMarks(s.chutes, chute, s.config.overflowThreshold);
    }
  }

  /** Only a new threshold that some chute lies across, an overflow injected without any
      threshold, and clearing the mark of a full chute make the flags wrong. */
  ghost predicate KeepsFlags(s: State, e: Event) {
    match e
    case Configured(changes) =>
      ChangesCounts(changes)
      || Indifferent(s.chutes, s.config.overflowThreshold,
          Changed(changes.overflowThreshold, s.config.overflowThreshold))
    case FaultInjected(fault, no) =>
      fault == Overflow && OverflowPlace(s, no).Some? ==> s.config.overflowThreshold.Some?
    case FaultCleared(fault) => fault == None || fault.value == Overflow ==> NoneMarked(s.chutes)
    case _ => true
  }

  lemma StepMarksExactly(s: State, e: Event)
    requires FlagsRight(s)
    ensures FlagsRight(Step(s, e)) <==> KeepsFlags(s, e)
  {
    match e
    case StartAsked => StartAndStopKeepChutes(s);
    case StopAsked => StartAndStopKeepChutes(s);
    case ResetAsked => InitializedMarks(Wiped(Stop(s)));
    case Configured(changes) => ConfiguringMarks(s, changes);
    case SorterCommand(_) => StartAndStopKeepChutes(s);
    case InductionCommand(no, request) => CommandsKeepChutes(s, no, request);
    case ModeCommand(no, request) => CommandsKeepChutes(s, no, request);
    case ResetCommand => CommandsKeepChutes(s, 0, 0);
    case FaultInjected(fault, no) => TriggeringMarks(s, fault, no);
    case FaultCleared(fault) => ClearingMarks(s, fault);
    case ItemInjected(_, _) =>
    case TimerFired(k, luck) =>
      if k < |s.timers| && k in s.live {
        CallingMarks(if s.timers[k].Induct? then s else s.(live := s.live - {k}), s.timers[k], luck);
      }
    case LateCall(k, luck) =>
      if k < |s.timers| { CallingMarks(s, s.timers[k], luck); }
  }

  ghost predicate RightThroughout(s: State, events: seq<Event>) {
    FlagsRight(Run(s, events)) && (events == [] || RightThroughout(s, events[..|events| - 1]))
  }

  ghost predicate AllKeepFlags(s: State, events: seq<Event>) {
    events == []
    || (AllKeepFlags(s, events[..|events| - 1]) && KeepsFlags(Run(s, events[..|events| - 1]), events[|events| - 1]))
  }

  /** Over a whole run, injected overflows included, a chute is marked throughout exactly
      when it is full, if and only if every step keeps it so. */
  lemma {:induction false} FlagsRightExactly(config: FullConfig, events: seq<Event>)
    ensures RightThroughout(Initial(config), events) <==> AllKeepFlags(Initial(config), events)
    decreases |events|
  {
    if events != [] {
      var earlier, last := events[..|events| - 1], events[|events| - 1];
      FlagsRightExactly(config, earlier);
      if RightThroughout(Initial(config), earlier) {
        StepMarksExactly(Run(Initial(config), earlier), last);
      }
    }
  }
}
