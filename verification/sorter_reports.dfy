/** What the status telegrams tell whoever listens to them. */
module SorterReports {
  import opened Prelude
  import opened Messages
  import opened SorterState
  import opened SorterRuns
  import opened SorterItems

  /** The sorter status reported last; a sorter that never reported is taken to be stopped. */
  function LastStatus(sent: seq<Sending>): int {
    if sent == [] then 0
    else
      var m := sent[|sent| - 1].message;
      if m.SorterStatusReport? then m.status else LastStatus(sent[..|sent| - 1])
  }

  /** The status reported last for an induction; one never reported is taken to be stopped. */
  function LastOf(sent: seq<Sending>, no: int): int {
    if sent == [] then 0
    else
      var m := sent[|sent| - 1].message;
      if m.InductionStatusReport? && m.inductionNo == no then m.status else LastOf(sent[..|sent| - 1], no)
  }

  predicate TellsNothing(x: Sending) {
    !x.message.SorterStatusReport? && !x.message.InductionStatusReport?
  }

  lemma AfterOne(sent: seq<Sending>, x: Sending)
    ensures LastStatus(sent + [x]) == if x.message.SorterStatusReport? then x.message.status else LastStatus(sent)
    ensures forall no :: LastOf(sent + [x], no) ==
                         if x.message.InductionStatusReport? && x.message.inductionNo == no
                         then x.message.status else LastOf(sent, no)
  {
    assert (sent + [x])[..|sent|] == sent;
  }

  /** A report of all inductions says nothing about the sorter, and of each its status. */
  lemma {:induction false} AfterAll(sent: seq<Sending>, config: Config, inductions: seq<Induction>)
    requires forall i :: 0 <= i < |inductions| ==> inductions[i].no == i + 1
    ensures LastStatus(sent + StatusReports(config, inductions)) == LastStatus(sent)
    ensures forall no :: LastOf(sent + StatusReports(config, inductions), no) ==
                         if 1 <= no <= |inductions| then InductionCode(inductions[no - 1].status) else LastOf(sent, no)
    decreases |inductions|
  {
    if inductions == [] {
      assert sent + StatusReports(config, inductions) == sent;
    } else {
      var earlier, last := inductions[..|inductions| - 1], inductions[|inductions| - 1];
      AfterAll(sent, config, earlier);
      AfterOne(sent + StatusReports(config, earlier), StatusReport(config, last));
      assert StatusReports(config, inductions) == StatusReports(config, earlier) + [StatusReport(config, last)];
      Associative(sent, StatusReports(config, earlier), [StatusReport(config, last)]);
    }
  }

  /** Reports of repairs say that every faulty induction is stopped. */
  lemma {:induction false} AfterRepairs(sent: seq<Sending>, config: Config, inductions: seq<Induction>)
    requires forall i :: 0 <= i < |inductions| ==> inductions[i].no == i + 1
    ensures LastStatus(sent + RepairReports(config, inductions)) == LastStatus(sent)
    ensures forall no :: LastOf(sent + RepairReports(config, inductions), no) ==
                         if 1 <= no <= |inductions| && inductions[no - 1].status == Faulty then 0 else LastOf(sent, no)
    decreases |inductions|
  {
    if inductions == [] {
      assert sent + RepairReports(config, inductions) == sent;
    } else {
      var earlier, last := inductions[..|inductions| - 1], inductions[|inductions| - 1];
      AfterRepairs(sent, config, earlier);
      var report := StatusReport(config, last.(status := Off));
      AfterOne(sent + RepairReports(config, earlier), report);
      Associative(sent, RepairReports(config, earlier), [report]);
    }
  }

  // ---- the two kinds of reports against the state ----

  /** The last report is the status. */
  predicate StatusTold(s: State) {
    LastStatus(s.sent) == SorterCode(s.status)
  }

  /** What a listener believes of an induction is so; of numbers without an induction it
      believes that they are stopped. */
  ghost predicate InductionsTold(s: State) {
    forall no :: LastOf(s.sent, no)
      == if 1 <= no <= |s.inductions| then InductionCode(s.inductions[no - 1].status) else 0
  }

  ghost predicate NothingElseTold(s: State) {
    forall no :: no < 1 || no > |s.inductions| ==> LastOf(s.sent, no) == 0
  }

  ghost predicate AllOff(s: State) {
    forall i :: 0 <= i < |s.inductions| ==> s.inductions[i].status == Off
  }

  ghost predicate Told(s: State) {
    StatusTold(s) && InductionsTold(s)
  }

  /** The sorter's status is told afterwards, and the inductions' as well if it was before. */
  ghost predicate StillTold(s: State, t: State) {
    StatusTold(t) && (InductionsTold(s) ==> InductionsTold(t))
  }

  lemma SorterStatusTells(s: State)
    ensures StatusTold(SendSorterStatus(s))
    ensures forall no :: LastOf(SendSorterStatus(s).sent, no) == LastOf(s.sent, no)
  {
    AfterOne(s.sent, Sending(ReceiveMcs, SorterStatusReport(SorterCode(s.status))));
  }

  lemma AllInductionsTell(s: State)
    requires Numbered(s)
    ensures StatusTold(SendAllInductionStatus(s)) <==> StatusTold(s)
    ensures NothingElseTold(s) ==> InductionsTold(SendAllInductionStatus(s))
  {
    AfterAll(s.sent, s.config, s.inductions);
  }

  lemma StartTells(s: State)
    requires Numbered(s) && StatusTold(s)
    ensures StillTold(s, Start(s))
  {
    if s.status != Running {
      var t := s.(status := Running, inductions := WithStatus(s.inductions, On));
      SorterStatusTells(t);
      assert InductionsTold(s) ==> NothingElseTold(SendSorterStatus(t));
      AllInductionsTell(SendSorterStatus(t));
    }
  }

  /** A stop that is not ignored reports everything as stopped. */
  lemma StopTells(s: State)
    requires Numbered(s) && StatusTold(s)
    ensures StillTold(s, Stop(s)) && (s.status != Stopped ==> AllOff(Stop(s)))
  {
    if s.status != Stopped {
      var t := ClearPendingTimers(StopInductionTimers(SendSorterStatus(s.(status := Stopping))));
      SorterStatusTells(s.(status := Stopping));
      var u := t.(inductions := WithStatus(t.inductions, Off), status := Stopped);
      SorterStatusTells(u);
      assert InductionsTold(s) ==> NothingElseTold(SendSorterStatus(u));
      AllInductionsTell(SendSorterStatus(u));
    }
  }

  /** New inductions are stopped, so a listener is right about them exactly when the old
      ones were, too. */
  lemma InitializedTells(s: State)
    requires StatusTold(s)
    ensures StatusTold(Initialized(s))
    ensures InductionsTold(s) ==> (InductionsTold(Initialized(s)) <==> AllOff(s))
  {
    var t := Initialized(s);
    assert forall i :: 0 <= i < |t.inductions| ==> t.inductions[i].status == Off;
    if InductionsTold(s) && InductionsTold(t) {
      forall i | 0 <= i < |s.inductions| ensures s.inductions[i].status == Off {
        assert LastOf(t.sent, i + 1) == 0;
      }
    }
  }

  lemma OneInductionTells(s: State, i: nat, status: InductionStatus)
    requires Numbered(s) && StatusTold(s) && i < |s.inductions|
    ensures StillTold(s, SetInductionStatus(s, i, status))
  {
    AfterOne(s.sent, StatusReport(s.config, s.inductions[i].(status := status)));
  }

  lemma OthersTellNothing(s: State, t: State, x: Sending)
    requires StatusTold(s) && TellsNothing(x) && t.sent == s.sent + [x] && t.status == s.status
    requires |t.inductions| == |s.inductions|
    requires forall i :: 0 <= i < |s.inductions| ==> t.inductions[i].status == s.inductions[i].status
    ensures StillTold(s, t)
  {
    AfterOne(s.sent, x);
  }

  lemma LeavingEmergencyTells(s: State)
    requires StatusTold(s)
    ensures StillTold(s, LeaveEmergency(s))
  {
    SorterStatusTells(s.(status := Stopped));
  }

  lemma RepairingTells(s: State)
    requires Numbered(s) && StatusTold(s)
    ensures StillTold(s, RepairAll(s))
  {
    AfterRepairs(s.sent, s.config, s.inductions);
  }

  lemma ResetRequestTells(s: State)
    requires Numbered(s) && StatusTold(s)
    ensures StillTold(s, SetResetRequest(s))
  {
    var t := s.(inductions := Repaired(s.inductions));
    SorterStatusTells(t.(status := Stopped));
    assert InductionsTold(s) ==> NothingElseTold(LeaveEmergency(t));
    AllInductionsTell(LeaveEmergency(t));
  }

  lemma ClearFaultTells(s: State, fault: Option<Fault>)
    requires Numbered(s) && StatusTold(s)
    ensures StillTold(s, ClearFault(s, fault))
  {
    LeavingEmergencyTells(s);
    var t := if fault == None || fault.value == MotorTrip then LeaveEmergency(s) else s;
    RepairingTells(t);
  }

  lemma TriggerFaultTells(s: State, fault: Fault, no: Option<int>)
    requires Numbered(s) && StatusTold(s)
    ensures StillTold(s, TriggerFault(s, fault, no))
  {
    match fault
    case MotorTrip => SorterStatusTells(s.(status := Emergency));
    case Jam =>
      if JamPlace(s, no).Some? { OneInductionTells(s, JamPlace(s, no).value, Faulty); }
    case Overflow =>
    case UnknownFault =>
  }

  lemma ModeTells(s: State, no: int, request: int)
    requires Numbered(s) && StatusTold(s)
    ensures StillTold(s, SetInductionMode(s, no, request))
  {
    var place, t := Place(no, |s.inductions|), SetInductionMode(s, no, request);
    if place.Some? {
      OthersTellNothing(s, t, t.sent[|s.sent|]);
    }
  }

  lemma ConfiguringTells(s: State, changes: Changes)
    requires Numbered(s) && StatusTold(s)
    ensures var t := UpdateConfig(s, changes);
      && StatusTold(t)
      && (InductionsTold(s) ==> (InductionsTold(t) <==> (ChangesCounts(changes) && s.status != Running ==> AllOff(s))))
  {
    var t := s.(config := Assigned(s.config, changes));
    if ChangesCounts(changes) {
      StopTells(t);
      InitializedTells(if s.status == Running then Stop(t) else t);
      if s.status == Running {
        StartTells(Initialized(Stop(t)));
      }
    }
  }

  // ---- items do not report ----

  lemma InductingTells(s: State, i: nat, pick: nat)
    requires StatusTold(s) && i < |s.inductions|
    ensures StillTold(s, InductItem(s, i, pick))
  {
    var t := InductItem(s, i, pick);
    if t.sent != s.sent {
      OthersTellNothing(s, t, t.sent[|s.sent|]);
    }
  }

  lemma CallingTells(s: State, callback: Callback, luck: Luck)
    requires StatusTold(s)
    ensures StillTold(s, Call(s, callback, luck))
  {
    var t := Call(s, callback, luck);
    if callback.Induct? {
      if callback.index < |s.inductions| { InductingTells(s, callback.index, luck.pick); }
    } else if t.sent != s.sent {
      OthersTellNothing(s, t, t.sent[|s.sent|]);
    }
  }

  // ---- runs ----

  /** New inductions are not reported. So a reset of a stopped sorter, or new counts for one
      that does not run, must find all inductions stopped. */
  ghost predicate KeepsTold(s: State, e: Event) {
    match e
    case ResetAsked => s.status != Stopped || AllOff(s)
    case Configured(changes) => ChangesCounts(changes) && s.status != Running ==> AllOff(s)
    case _ => true
  }

  /** The sorter's status stays told in every step; that of all inductions, for a listener
      who was right about them, exactly in these. */
  lemma StepTellsExactly(s: State, e: Event)
    requires Numbered(s) && StatusTold(s)
    ensures StatusTold(Step(s, e))
    ensures InductionsTold(s) ==> (InductionsTold(Step(s, e)) <==> KeepsTold(s, e))
  {
    match e
    case StartAsked => StartTells(s);
    case StopAsked => StopTells(s);
    case ResetAsked => StopTells(s); InitializedTells(Wiped(Stop(s)));
    case Configured(changes) => ConfiguringTells(s, changes);
    case SorterCommand(_) => StartTells(s); StopTells(s);
    case InductionCommand(no, request) =>
      if Place(no, |s.inductions|).Some? {
        OneInductionTells(s, Place(no, |s.inductions|).value, if request == 1 then On else Off);
      }
    case ModeCommand(no, request) => ModeTells(s, no, request);
    case ResetCommand => ResetRequestTells(s);
    case FaultInjected(fault, no) => TriggerFaultTells(s, fault, no);
    case FaultCleared(fault) => ClearFaultTells(s, fault);
    case ItemInjected(no, pick) =>
      if Place(no, |s.inductions|).Some? { InductingTells(s, Place(no, |s.inductions|).value, pick); }
    case TimerFired(k, luck) =>
      if k < |s.timers| && k in s.live {
        CallingTells(if s.timers[k].Induct? then s else s.(live := s.live - {k}), s.timers[k], luck);
      }
    case LateCall(k, luck) =>
      if k < |s.timers| { CallingTells(s, s.timers[k], luck); }
  }

  /** In every run the sorter status reported last is the status of the sorter. */
  lemma {:induction false} StatusAlwaysTold(config: FullConfig, events: seq<Event>)
    ensures StatusTold(Run(Initial(config), events))
    decreases |events|
  {
    if events != [] {
      var earlier, last := events[..|events| - 1], events[|events| - 1];
      StatusAlwaysTold(config, earlier);
      AlwaysShaped(config, earlier);
      StepTellsExactly(Run(Initial(config), earlier), last);
    }
  }

  ghost predicate ToldThroughout(s: State, events: seq<Event>) {
    Told(Run(s, events)) && (events == [] || ToldThroughout(s, events[..|events| - 1]))
  }

  ghost predicate AllKeepTold(s: State, events: seq<Event>) {
    events == []
    || (AllKeepTold(s, events[..|events| - 1]) && KeepsTold(Run(s, events[..|events| - 1]), events[|events| - 1]))
  }

  /** Over a whole run a listener to the status telegrams knows the status of the sorter and
      of every induction throughout, exactly when every step keeps it so. */
  lemma {:induction false} ToldExactly(config: FullConfig, events: seq<Event>)
    ensures ToldThroughout(Initial(config), events) <==> AllKeepTold(Initial(config), events)
    decreases |events|
  {
    if events != [] {
      var earlier, last := events[..|events| - 1], events[|events| - 1];
      ToldExactly(config, earlier);
      if ToldThroughout(Initial(config), earlier) {
        AlwaysShaped(config, earlier);
        StepTellsExactly(Run(Initial(config), earlier), last);
      }
    }
  }

  /** One more step of a run that a listener has followed. */
  lemma FollowedOn(config: FullConfig, events: seq<Event>, e: Event)
    requires Told(Run(Initial(config), events))
    ensures Run(Initial(config), events + [e]) == Step(Run(Initial(config), events), e)
    ensures Told(Run(Initial(config), events + [e])) <==> KeepsTold(Run(Initial(config), events), e)
  {
    RunOfMore(Initial(config), events, e);
    AlwaysShaped(config, events);
    StepTellsExactly(Run(Initial(config), events), e);
  }

  ghost predicate AllOn(s: State) {
    forall i :: 0 <= i < |s.inductions| ==> s.inductions[i].status == On
  }

  /** Every induction was last reported as running. */
  ghost predicate AllReportedRunning(s: State) {
    forall no :: 1 <= no <= |s.inductions| ==> LastOf(s.sent, no) == InductionCode(On)
  }

  /** Started, tripped, cleared and reset: every induction is stopped, and every one was last
      reported as running. */
  lemma ResetAfterTripTellsNobody(config: FullConfig) returns (events: seq<Event>)
    ensures events == [StartAsked, FaultInjected(MotorTrip, None), FaultCleared(None), ResetAsked]
    ensures var s := Run(Initial(config), events);
      |s.inductions| == config.inductionCount.value && AllOff(s) && AllReportedRunning(s)
  {
    events := [];
    FollowedOn(config, events, StartAsked);
    events := events + [StartAsked];
    FollowedOn(config, events, FaultInjected(MotorTrip, None));
    events := events + [FaultInjected(MotorTrip, None)];
    FollowedOn(config, events, FaultCleared(None));
    events := events + [FaultCleared(None)];
    TrippedInductionsRun(Initial(config));
    SilentReset(Run(Initial(config), events));
    FollowedOn(config, events, ResetAsked);
    events := events + [ResetAsked];
  }

  lemma TrippedInductionsRun(s: State)
    requires s.status == Stopped
    ensures var t := Step(Step(Step(s, StartAsked), FaultInjected(MotorTrip, None)), FaultCleared(None));
      t.status == Stopped && |t.inductions| == |s.inductions| && AllOn(t) && t.config == s.config
  {
  }

  /** A reset of a stopped sorter reports nothing. */
  lemma SilentReset(s: State)
    requires s.status == Stopped && InductionsTold(s) && AllOn(s) && |s.inductions| == Amount(s.config.inductionCount)
    ensures |Reset(s).inductions| == |s.inductions| && AllOff(Reset(s)) && AllReportedRunning(Reset(s))
  {
    assert Reset(s).sent == s.sent;
  }
}
