/** Short runs of the virtual sorter after which something promised does not hold. */
module SorterExamples {
  import opened Prelude
  import opened Messages
  import opened SorterState
  import opened SorterRuns
  import opened SorterItems
  import opened SorterChutes
  import opened SorterTotals
  import T = SorterTelegrams

  /** A request that names no setting, as the controller passes it on. */
  const NOTHING_NAMED := Configured(Changes(Undefined, Undefined, Undefined, false))

  // ---- marks ----

  /** The mark of a full chute is cleared: it is still full. */
  lemma ClearedMarkIsWrong(config: FullConfig) returns (events: seq<Event>)
    ensures events == [FaultInjected(Overflow, None), FaultCleared(Some(Overflow))]
    ensures FlagsRight(Run(Initial(config), events[..1])) && !FlagsRight(Run(Initial(config), events))
  {
    var s := Initial(config);
    var filled, cleared := FaultInjected(Overflow, None), FaultCleared(Some(Overflow));
    events := [filled] + [cleared];
    RunOfOne(s, filled);
    RunOfMore(s, [filled], cleared);
    StepMarksExactly(s, filled);
    assert Step(s, filled).chutes[0].overflow;
    StepMarksExactly(Step(s, filled), cleared);
  }

  /** The threshold is raised above the count of a full chute: it is still marked. */
  lemma RaisedThresholdIsWrong(config: FullConfig) returns (events: seq<Event>)
    ensures |events| == 2 && events[0] == FaultInjected(Overflow, None)
    ensures events[1] == Configured(Changes(Absent, Absent, Given(config.overflowThreshold.value + 1), false))
    ensures FlagsRight(Run(Initial(config), events[..1])) && !FlagsRight(Run(Initial(config), events))
  {
    var s, above := Initial(config), config.overflowThreshold.value + 1;
    var filled, raised := FaultInjected(Overflow, None), Configured(Changes(Absent, Absent, Given(above), false));
    events := [filled] + [raised];
    RunOfOne(s, filled);
    RunOfMore(s, [filled], raised);
    StepMarksExactly(s, filled);
    var t := Step(s, filled);
    assert t.config == config && Reaches(t.chutes[0].itemCount, config.overflowThreshold);
    assert !Reaches(t.chutes[0].itemCount, Some(above));
    StepMarksExactly(t, raised);
  }

  /** An overflow is injected while the threshold is undefined: the chute is marked. */
  lemma OverflowWithoutThreshold(config: FullConfig) returns (events: seq<Event>)
    ensures events == [NOTHING_NAMED, FaultInjected(Overflow, None)]
    ensures FlagsRight(Run(Initial(config), events[..1])) && !FlagsRight(Run(Initial(config), events))
  {
    var s, filled := Initial(config), FaultInjected(Overflow, None);
    events := [NOTHING_NAMED] + [filled];
    RunOfOne(s, NOTHING_NAMED);
    RunOfMore(s, [NOTHING_NAMED], filled);
    StepMarksExactly(s, NOTHING_NAMED);
    var t := Step(s, NOTHING_NAMED);
    assert t.chutes == s.chutes && t.config.overflowThreshold == None;
    StepMarksExactly(t, filled);
  }

  // ---- totals ----

  /** An injected overflow counts items that never were. */
  lemma InjectedOverflowDisagrees(config: FullConfig)
    ensures !TotalsAgree(Run(Initial(config), [FaultInjected(Overflow, None)]))
  {
    RunOfOne(Initial(config), FaultInjected(Overflow, None));
    NothingCountedAtFirst(config);
    OverflowAgrees(Initial(config), None);
  }

  /** One item, waiting to be discharged. */
  predicate OnItsWay(s: State, destination: int) {
    && |s.objects| == 1 && s.objects[0].status == InTransit && s.objects[0].destination == destination
    && s.timers == [Discharge(0)] && 0 in s.live
  }

  /** The first item of an induction: one timer waits to discharge it. */
  lemma FirstItem(s: State, pick: nat)
    requires s.inductions != [] && s.inductions[0] == Induction(1, Off, Pid.Auto, 0, None)
    requires s.pids == map[] && s.cellCounter == 0 && s.objects == [] && s.timers == []
    requires Destination(s.config, pick) <= 65535
    ensures var t, d := Step(s, ItemInjected(1, pick)), Destination(s.config, pick);
      && t.objects == [Item(100001, 1, 1, Pid.Auto, d, InTransit)]
      && OnItsWay(t, d) && t.status == s.status
      && t.config == s.config && t.chutes == s.chutes && t.totals == s.totals.(inducted := s.totals.inducted + 1)
      && t.sent == s.sent + [Sending(ReceiveInduct, InductedMessage(t.objects[0]))]
  {
    assert Pid.Next(s.pids, Pid.PidKey(1, Pid.Auto)).0 == Some(100001);
  }

  /** One more step of a run whose counts have agreed. */
  lemma AgreeingOn(s: State, events: seq<Event>, e: Event)
    requires AgreeThroughout(s, events)
    ensures Run(s, events + [e]) == Step(Run(s, events), e)
    ensures AgreeThroughout(s, events + [e]) <==> KeepsTotals(Run(s, events), e)
    ensures TotalsAgree(Run(s, events + [e])) <==> KeepsTotals(Run(s, events), e)
  {
    RunOfMore(s, events, e);
    assert (events + [e])[..|events|] == events;
    StepAgreesExactly(Run(s, events), e);
  }

  /** An item on its way to chute two, through a reset and a new chute count. */
  lemma LosesItsChute(s: State)
    requires s.status == Stopped && OnItsWay(s, 2)
    ensures var t := Step(s, ResetAsked);
      && KeepsTotals(t, Configured(Changes(Absent, Given(1), Absent, false)))
      && !KeepsTotals(Step(t, Configured(Changes(Absent, Given(1), Absent, false))),
          TimerFired(0, Luck(0, false, true)))
  {
    var u := Step(Step(s, ResetAsked), Configured(Changes(Absent, Given(1), Absent, false)));
    assert u.objects == s.objects && u.timers == s.timers && 0 in u.live && |u.chutes| == 1;
  }

  lemma OnItsWayToTwo(config: FullConfig)
    requires config.chuteCount.value >= 2
    ensures var t := Step(Initial(config), ItemInjected(1, 1)); t.status == Stopped && OnItsWay(t, 2)
  {
    FirstItem(Initial(config), 1);
  }

  /** A stopped sorter is reset while an item is on its way, then its chute is taken away:
      the counts agree until the item is discharged. */
  lemma RemovedChuteDisagrees(config: FullConfig) returns (events: seq<Event>, fired: Event)
    requires config.chuteCount.value >= 2
    ensures events == [ItemInjected(1, 1), ResetAsked, Configured(Changes(Absent, Given(1), Absent, false))]
    ensures fired == TimerFired(0, Luck(0, false, true))
    ensures AgreeThroughout(Initial(config), events) && !TotalsAgree(Run(Initial(config), events + [fired]))
  {
    var s, removed := Initial(config), Configured(Changes(Absent, Given(1), Absent, false));
    fired := TimerFired(0, Luck(0, false, true));
    NothingCountedAtFirst(config);
    OnItsWayToTwo(config);
    AgreeingOn(s, [], ItemInjected(1, 1));
    events := [] + [ItemInjected(1, 1)];
    LosesItsChute(Run(s, events));
    AgreeingOn(s, events, ResetAsked);
    events := events + [ResetAsked];
    AgreeingOn(s, events, removed);
    events := events + [removed];
    AgreeingOn(s, events, fired);
  }

  // ---- undefined settings ----

  lemma DischargedNowhere(s: State)
    requires OnItsWay(s, NO_NUMBER)
    ensures var t := Step(s, TimerFired(0, Luck(0, false, true)));
      && t.sent == s.sent + [Sending(ReceiveDischarge, ItemDischarged(s.objects[0].cellIndex, s.objects[0].inductionNo,
                                                                       ModeCode(s.objects[0].mode), 0, 0))]
      && t.totals == s.totals.(discharged := s.totals.discharged + 1)
      && t.chutes == s.chutes
  {
  }

  lemma OneReadFailure(a: Sending, b: Sending)
    requires a.channel == ReceiveInduct && a.message.ItemInducted?
    requires b.channel == ReceiveDischarge && T.IsOf(b, T.ReadFailures)
    ensures T.Count(T.ItemSendings([] + [a] + [b]), T.ReadFailures) == 1
  {
    T.ItemSendingsOfMore([], a);
    T.ItemSendingsOfMore([] + [a], b);
    T.CountOfMore([], a, 0, T.ReadFailures);
    T.CountOfMore([] + [a], b, 0, T.ReadFailures);
  }

  /** A request that names no setting makes all of them undefined. Nothing is rebuilt, but
      there are more inductions and chutes than configured, the next item gets no chute, and
      though it is read, its telegram says what that of a read failure says. */
  lemma UndefinedSettings(config: FullConfig) returns (events: seq<Event>)
    ensures events == [NOTHING_NAMED, ItemInjected(1, 0), TimerFired(0, Luck(0, false, true))]
    ensures !AsConfigured(Run(Initial(config), events[..1]))
    ensures var s := Run(Initial(config), events);
      && !TotalsAgree(s)
      && s.totals.discharged == 1 && s.totals.noRead == 0
      && T.Count(T.ItemSendings(s.sent), T.ReadFailures) == 1
  {
    var s, injected, fired := Initial(config), ItemInjected(1, 0), TimerFired(0, Luck(0, false, true));
    NothingCountedAtFirst(config);
    AgreeingOn(s, [], NOTHING_NAMED);
    events := [] + [NOTHING_NAMED];
    var t := Run(s, events);
    StepAsConfiguredExactly(s, NOTHING_NAMED);
    FirstItem(t, 0);
    AgreeingOn(s, events, injected);
    events := events + [injected];
    DischargedNowhere(Run(s, events));
    AgreeingOn(s, events, fired);
    events := events + [fired];
    var sent := Run(s, events).sent;
    OneReadFailure(sent[0], sent[1]);
    assert sent == [] + [sent[0]] + [sent[1]];
  }
}
