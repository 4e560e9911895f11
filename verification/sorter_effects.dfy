/** What inducting, discharging and confirming an item do, by the numbers that come out. */
module SorterEffects {
  import opened Prelude
  import opened Messages
  import opened SorterState
  import opened SorterRuns
  import opened SorterItems
  import opened SorterPids
  import opened SorterControl

  // ---- inducting ----

  /** The PIDs of an induction lie behind a hundred thousand times its number, those keyed in
      behind the automatic ones. */
  predicate PidFits(no: int, mode: Pid.Mode, pid: int) {
    if mode == Pid.Key then 100000 * no + 15001 <= pid <= 100000 * no + 30000
    else 100000 * no + 1 <= pid <= 100000 * no + 15000
  }

  /** A new item of induction i + 1. */
  predicate MadeBy(s: State, i: nat, pick: nat, item: Item)
    requires i < |s.inductions|
  {
    && item.status == InTransit
    && item.inductionNo == i + 1 && item.mode == s.inductions[i].mode
    && PidFits(i + 1, s.inductions[i].mode, item.pid)
    && item.cellIndex == (if s.cellCounter >= 65535 then 1 else s.cellCounter + 1)
    && item.destination == (if s.config.chuteCount.Some? then pick % s.config.chuteCount.value + 1 else 0)
  }

  /** The telegram of a new item, and what waits to discharge it. */
  predicate Announced(s: State, t: State, item: Item) {
    && t.sent == s.sent + [Sending(ReceiveInduct,
         ItemInducted(item.cellIndex, item.inductionNo, if item.mode == Pid.Key then 1 else 0, item.pid,
                      item.destination))]
    && t.emitted == s.emitted + [Emitted(WasInducted, |s.objects|)]
    && t.timers == s.timers + [Discharge(|s.objects|)]
    && t.live == s.live + {|s.timers|} && t.pendingTimers == s.pendingTimers + [|s.timers|]
  }

  /** Only the induction that made the item counts it and remembers its PID. */
  ghost predicate CountedAt(s: State, t: State, i: nat, item: Item)
    requires i < |s.inductions|
  {
    && |t.inductions| == |s.inductions|
    && (forall j :: 0 <= j < |s.inductions| && j != i ==> t.inductions[j] == s.inductions[j])
    && t.inductions[i] == s.inductions[i].(itemCount := s.inductions[i].itemCount + 1, lastPid := Some(item.pid))
    && t.totals == s.totals.(inducted := s.totals.inducted + 1)
  }

  lemma PidRanges(key: Pid.PidKey)
    requires Pid.Known(key)
    ensures Pid.Start(key) == 100000 * key.inductionNo + (if key.mode == Pid.Key then 15001 else 1)
    ensures Pid.End(key) == Pid.Start(key) + 14999
  {
  }

  lemma NextPidFits(s: State, key: Pid.PidKey)
    requires Numbering(s) && Pid.Known(key)
    ensures Pid.Next(s.pids, key).0.Some? && PidFits(key.inductionNo, key.mode, Pid.Next(s.pids, key).0.value)
  {
    var n := KeyCount(s.objects, s.resetBase, key);
    assert Pid.CounterAfter(s.pids, key, n);
    Pid.NextIsNth(s.pids, key, n);
    PidRanges(key);
  }

  /** An induction makes one item, files and counts it, and unless its destination is too
      large for the telegram, announces it and sets its timer. */
  lemma InductingMakes(s: State, i: nat, pick: nat)
    requires Shaped(s) && Numbering(s) && i < |s.inductions|
    ensures var t := InductItem(s, i, pick);
      && |t.objects| == |s.objects| + 1 && t.objects[..|s.objects|] == s.objects
      && var item := t.objects[|s.objects|];
      && MadeBy(s, i, pick, item) && CountedAt(s, t, i, item)
      && t.items == s.items + [|s.objects|] && t.chutes == s.chutes && t.cellCounter == item.cellIndex
      && (item.destination <= 65535 && s.cellCounter <= 65535 ==> Announced(s, t, item) && t.failures == s.failures)
  {
    NextPidFits(s, Pid.PidKey(s.inductions[i].no, s.inductions[i].mode));
  }

  // ---- which events induct ----

  /** The place of the induction that makes an item, if one does: the one an item is asked of,
      or that of a live timer, as long as the sorter runs and the induction does. */
  function InductedBy(s: State, e: Event): Option<nat> {
    match e
    case ItemInjected(no, _) => if 1 <= no <= |s.inductions| then Some(no - 1) else None
    case TimerFired(k, _) =>
      if k < |s.timers| && k in s.live && s.timers[k].Induct? && s.timers[k].epoch == s.epoch
         && s.timers[k].index < |s.inductions| && s.status == Running && s.inductions[s.timers[k].index].status == On
      then Some(s.timers[k].index) else None
    case _ => None
  }

  function PickOf(e: Event): nat {
    match e
    case ItemInjected(_, pick) => pick
    case TimerFired(_, luck) => luck.pick
    case _ => 0
  }

  lemma ItemsAreNotMade(s: State, e: Event)
    requires InductedBy(s, e) == None
    ensures |Step(s, e).objects| == |s.objects|
  {
    if !HandlesItems(e) {
      OthersAreQuiet(s, e);
    } else if e.ResetAsked? {
      StopIsQuiet(s);
    }
  }

  lemma FiringInducts(s: State, k: nat, luck: Luck)
    requires InductedBy(s, TimerFired(k, luck)).Some?
    ensures Fire(s, k, luck) == InductItem(s, s.timers[k].index, luck.pick)
  {
  }

  lemma InductedStep(s: State, e: Event)
    requires InductedBy(s, e).Some?
    ensures Step(s, e) == InductItem(s, InductedBy(s, e).value, PickOf(e))
  {
    if e.TimerFired? {
      FiringInducts(s, e.timer, e.luck);
    }
  }

  /** An item is made exactly by these events, and then as the induction is set. */
  lemma StepInducts(s: State, e: Event)
    requires Shaped(s) && Numbering(s)
    ensures var t := Step(s, e);
      match InductedBy(s, e)
      case None => |t.objects| == |s.objects|
      case Some(i) => |t.objects| == |s.objects| + 1 && MadeBy(s, i, PickOf(e), t.objects[|s.objects|])
  {
    var place := InductedBy(s, e);
    if place == None {
      ItemsAreNotMade(s, e);
    } else {
      InductedStep(s, e);
      InductingMakes(s, place.value, PickOf(e));
    }
  }

  /** In every run the next item of an induction gets a PID of the keyed range exactly when
      the last mode command asked for keys, else one of the automatic range. */
  lemma NextItemIsKeyed(config: FullConfig, events: seq<Event>, i: nat, pick: nat)
    requires i < |Run(Initial(config), events).inductions|
    ensures var s := Run(Initial(config), events);
      && (s.inductions[i].mode == Pid.Key <==> KeysAsked(events, i + 1))
      && var t := Step(s, ItemInjected(i + 1, pick));
      && |t.objects| == |s.objects| + 1
      && (100000 * (i + 1) + 15001 <= t.objects[|s.objects|].pid <= 100000 * (i + 1) + 30000
          <==> KeysAsked(events, i + 1))
      && (100000 * (i + 1) + 1 <= t.objects[|s.objects|].pid <= 100000 * (i + 1) + 15000
          <==> !KeysAsked(events, i + 1))
  {
    var s := Run(Initial(config), events);
    AlwaysShaped(config, events);
    AlwaysNumbered(config, events);
    ModeIsWhatWasAsked(config, events, i);
    StepInducts(s, ItemInjected(i + 1, pick));
  }

  // ---- discharging and confirming ----

  /** The chute named in the telegram: none for a read failure. */
  function ChuteNamed(item: Item, noRead: bool): int {
    if noRead then 0 else item.destination
  }

  /** Only an item that is read and not sorted goes round again. */
  function GoesRound(noRead: bool, sorted: bool): int {
    if noRead then 0 else if sorted then 0 else 1
  }

  /** One item more in its chute, which is marked once it holds as many as the threshold. */
  ghost predicate DroppedOnly(s: State, t: State, chute: int) {
    && |t.chutes| == |s.chutes|
    && forall j :: 0 <= j < |s.chutes| ==>
         var before, after := s.chutes[j], t.chutes[j];
         if chute == j + 1 then
           && after.no == before.no
           && (if before.itemCount.Some? then after.itemCount == Some(before.itemCount.value + 1)
               else after.itemCount == None)
           && (after.overflow <==>
                 before.overflow
                 || (after.itemCount.Some? && s.config.overflowThreshold.Some?
                     && after.itemCount.value >= s.config.overflowThreshold.value))
         else after == before
  }

  /** The discharge of an item on its way: status, totals, chute, telegram, event, timer. */
  lemma DischargeDoes(s: State, id: nat, noRead: bool, sorted: bool)
    requires id < |s.objects| && s.objects[id].status == InTransit
    ensures var t, item := DischargeItem(s, id, noRead, sorted), s.objects[id];
      var chute, round := ChuteNamed(item, noRead), GoesRound(noRead, sorted);
      && t.objects == s.objects[id := item.(status := Discharged)] && t.items == s.items
      && t.totals.discharged == s.totals.discharged + 1 && t.totals.confirmed == s.totals.confirmed
      && t.totals.noRead == s.totals.noRead + (if noRead then 1 else 0)
      && t.totals.recirculated == s.totals.recirculated + round
      && t.totals.inducted == s.totals.inducted && t.totals.errors == s.totals.errors
      && DroppedOnly(s, t, chute)
      && t.sent == s.sent + [Sending(ReceiveDischarge,
           ItemDischarged(item.cellIndex, item.inductionNo, if item.mode == Pid.Key then 1 else 0, chute, round))]
      && t.emitted == s.emitted + [Emitted(WasDischarged, id)]
      && t.timers == s.timers + [Confirm(id, chute, round, noRead, !noRead && sorted)]
      && t.live == s.live + {|s.timers|} && t.pendingTimers == s.pendingTimers + [|s.timers|]
      && t.inductions == s.inductions
  {
  }

  /** The confirmation of a discharged item: 2 for a read failure, 1 for another round, 0. */
  lemma ConfirmDoes(s: State, id: nat, chute: int, round: int, noRead: bool, success: bool)
    requires id < |s.objects| && s.objects[id].status == Discharged
    ensures var t, item := ConfirmItem(s, id, chute, round, noRead, success), s.objects[id];
      && t.objects == s.objects[id := item.(status := Confirmed)]
      && (forall i :: i in t.items <==> i in s.items && i != id)
      && t.totals == s.totals.(confirmed := s.totals.confirmed + 1)
      && t.sent == s.sent + [Sending(ReceiveConfirm,
           ItemConfirmed(item.cellIndex, if item.mode == Pid.Key then 1 else 0, chute, round,
                         if noRead then 2 else if success then 0 else 1))]
      && t.emitted == s.emitted + [Emitted(WasConfirmed, id)]
      && t.timers == s.timers && t.live == s.live && t.chutes == s.chutes && t.inductions == s.inductions
  {
    WithoutLeavesOthers(s.items, id);
  }

  // ---- timers ----

  /** A timeout that has fired is spent, an interval goes on, and no other timer is touched. */
  lemma FiringSpends(s: State, k: nat, luck: Luck)
    requires k < |s.timers| && k in s.live
    ensures var t := Fire(s, k, luck);
      && (k in t.live <==> s.timers[k].Induct?)
      && forall j :: j < |s.timers| && j != k ==> (j in t.live <==> j in s.live)
  {
  }

  /** A timeout discharges or confirms its own item, with the fortune of the moment or with
      what the discharge has settled. */
  lemma FiringHandles(s: State, k: nat, luck: Luck)
    requires k < |s.timers| && k in s.live
    ensures var t, u := Fire(s, k, luck), s.(live := s.live - {k});
      match s.timers[k]
      case Induct(_, _) => true
      case Discharge(id) => if id < |s.objects| then t == DischargeItem(u, id, luck.noRead, luck.sorted) else t == u
      case Confirm(id, chute, round, noRead, success) =>
        if id < |s.objects| then t == ConfirmItem(u, id, chute, round, noRead, success) else t == u
  {
  }

  /** A new interval leaves no induction timer of before live, if the sorter runs. */
  lemma NewIntervalRestarts(s: State, changes: Changes)
    requires TimersInStep(s) && s.status == Running && changes.intervalGiven
    ensures var t := Step(s, Configured(changes));
      forall k :: k in t.live && k < |t.timers| && t.timers[k].Induct? ==> k >= |s.timers|
  {
    var c := s.(config := Assigned(s.config, changes));
    ReinitializeKeepsTimers(c);
    var u := if ChangesCounts(changes) then Reinitialize(c) else c;
    TimersOnlyGrow(c);
    StoppedTimers(u);
    var v := StopInductionTimers(u);
    assert forall k :: k in v.live && k < |v.timers| ==> !v.timers[k].Induct?;
  }

  lemma TimersOnlyGrow(s: State)
    ensures |Reinitialize(s).timers| >= |s.timers|
  {
  }

  // ---- cells ----

  /** The cells go round from 1 to 65535: the n-th item since the last reset is in cell
      (n - 1) % 65535 + 1. */
  ghost predicate CellsInTurn(s: State) {
    && s.resetBase <= |s.objects|
    && s.cellCounter == (if |s.objects| == s.resetBase then 0 else (|s.objects| - s.resetBase - 1) % 65535 + 1)
    && forall i :: s.resetBase <= i < |s.objects| ==> s.objects[i].cellIndex == (i - s.resetBase) % 65535 + 1
  }

  lemma NextInTurn(n: nat)
    ensures (if n % 65535 + 1 >= 65535 then 1 else n % 65535 + 2) == (n + 1) % 65535 + 1
  {
  }

  lemma CountingOn(counter: nat, n: nat)
    requires counter == if n == 0 then 0 else (n - 1) % 65535 + 1
    ensures (if counter >= 65535 then 1 else counter + 1) == n % 65535 + 1
  {
    if n > 0 {
      NextInTurn(n - 1);
    }
  }

  lemma OneMoreItem(s: State, t: State, item: Item)
    requires CellsInTurn(s) && t.objects == s.objects + [item] && t.resetBase == s.resetBase
    requires t.cellCounter == item.cellIndex == (if s.cellCounter >= 65535 then 1 else s.cellCounter + 1)
    ensures CellsInTurn(t)
  {
    CountingOn(s.cellCounter, |s.objects| - s.resetBase);
  }

  lemma InductingTakesTheNextCell(s: State, i: nat, pick: nat)
    requires Shaped(s) && Numbering(s) && CellsInTurn(s) && i < |s.inductions|
    ensures CellsInTurn(InductItem(s, i, pick))
  {
    var t := InductItem(s, i, pick);
    InductingMakes(s, i, pick);
    assert t.objects == s.objects + [t.objects[|s.objects|]];
    OneMoreItem(s, t, t.objects[|s.objects|]);
  }

  ghost predicate SameCells(s: State, t: State) {
    && t.cellCounter == s.cellCounter && t.resetBase == s.resetBase && |t.objects| == |s.objects|
    && forall i :: 0 <= i < |s.objects| ==> t.objects[i].cellIndex == s.objects[i].cellIndex
  }

  lemma CallsKeepCells(s: State, callback: Callback, luck: Luck)
    requires !callback.Induct?
    ensures SameCells(s, Call(s, callback, luck))
  {
  }

  lemma OthersKeepCells(s: State, e: Event)
    requires InductedBy(s, e) == None && !e.ResetAsked?
    ensures SameCells(s, Step(s, e))
  {
    if !HandlesItems(e) {
      OthersAreQuiet(s, e);
    } else if e.TimerFired? && e.timer < |s.timers| && !s.timers[e.timer].Induct? {
      CallsKeepCells(s.(live := s.live - {e.timer}), s.timers[e.timer], e.luck);
    } else if e.LateCall? && e.timer < |s.timers| && !s.timers[e.timer].Induct? {
      CallsKeepCells(s, s.timers[e.timer], e.luck);
    }
  }

  lemma StaysInTurn(s: State, t: State)
    requires CellsInTurn(s) && SameCells(s, t)
    ensures CellsInTurn(t)
  {
  }

  lemma ResetStartsOver(s: State)
    ensures CellsInTurn(Reset(s))
  {
    StopIsQuiet(s);
  }

  lemma StepTakesCellsInTurn(s: State, e: Event)
    requires Shaped(s) && Numbering(s) && CellsInTurn(s)
    ensures CellsInTurn(Step(s, e))
  {
    var place := InductedBy(s, e);
    if place.Some? {
      InductedStep(s, e);
      InductingTakesTheNextCell(s, place.value, PickOf(e));
    } else if e.ResetAsked? {
      ResetStartsOver(s);
    } else {
      OthersKeepCells(s, e);
      StaysInTurn(s, Step(s, e));
    }
  }

  /** In every run the items since the last reset are in the cells whose turn it was. */
  lemma {:induction false} CellsGoRound(config: FullConfig, events: seq<Event>)
    ensures CellsInTurn(Run(Initial(config), events))
    decreases |events|
  {
    if events != [] {
      var earlier := events[..|events| - 1];
      CellsGoRound(config, earlier);
      AlwaysShaped(config, earlier);
      AlwaysNumbered(config, earlier);
      StepTakesCellsInTurn(Run(Initial(config), earlier), events[|events| - 1]);
    }
  }

  // ---- errors, chutes and counts ----

  /** Faults injected since the last reset. */
  function FaultsInjected(events: seq<Event>): nat {
    if events == [] then 0
    else if events[|events| - 1].ResetAsked? then 0
    else FaultsInjected(events[..|events| - 1]) + One(events[|events| - 1].FaultInjected?)
  }

  lemma StepCountsErrors(s: State, e: Event)
    ensures Step(s, e).totals.errors == if e.ResetAsked? then 0 else s.totals.errors + One(e.FaultInjected?)
  {
    if !HandlesItems(e) && !e.FaultInjected? {
      OthersKeepErrors(s, e);
    }
  }

  lemma OthersKeepErrors(s: State, e: Event)
    requires !HandlesItems(e) && !e.FaultInjected?
    ensures Step(s, e).totals == s.totals
  {
  }

  /** In every run the errors counted are the faults injected, of any kind. */
  lemma {:induction false} ErrorsCountFaults(config: FullConfig, events: seq<Event>)
    ensures Run(Initial(config), events).totals.errors == FaultsInjected(events)
    decreases |events|
  {
    if events != [] {
      ErrorsCountFaults(config, events[..|events| - 1]);
      StepCountsErrors(Run(Initial(config), events[..|events| - 1]), events[|events| - 1]);
    }
  }

  /** An injected overflow fills and marks the chute named, or the first; clearing it takes
      all marks away and no item. */
  lemma OverflowDoes(s: State, no: Option<int>)
    requires Shaped(s)
    ensures var t := Step(s, FaultInjected(Overflow, no));
      var named := if no.Some? && no.value != 0 then no.value else 1;
      && |t.chutes| == |s.chutes|
      && forall j :: 0 <= j < |s.chutes| ==>
           t.chutes[j] == if named == j + 1 then Chute(j + 1, s.config.overflowThreshold, true) else s.chutes[j]
  {
  }

  lemma ClearingDoes(s: State, fault: Option<Fault>)
    ensures var t := Step(s, FaultCleared(fault));
      && |t.chutes| == |s.chutes|
      && forall j :: 0 <= j < |s.chutes| ==>
           t.chutes[j]
           == if fault == None || fault == Some(Overflow) then s.chutes[j].(overflow := false) else s.chutes[j]
  {
  }

  /** New inductions and chutes have counted nothing. */
  lemma InitializedDoes(s: State)
    ensures var t := Initialized(s);
      && |t.chutes| == Amount(s.config.chuteCount) && |t.inductions| == Amount(s.config.inductionCount)
      && (forall j :: 0 <= j < |t.chutes| ==> t.chutes[j] == Chute(j + 1, Some(0), false))
      && (forall j :: 0 <= j < |t.inductions| ==> t.inductions[j] == Induction(j + 1, Off, Pid.Auto, 0, None))
      && t.epoch == s.epoch + 1
  {
  }

  /** After a reset nothing is counted, active or numbered, and everything is made anew. */
  lemma ResetDoes(s: State)
    ensures var t := Step(s, ResetAsked);
      && t.totals == Totals(0, 0, 0, 0, 0, 0) && t.items == [] && t.cellCounter == 0 && t.pids == map[]
      && t.objects == s.objects && t.config == s.config && t.emitted == s.emitted
      && |t.chutes| == Amount(s.config.chuteCount)
      && forall j :: 0 <= j < |t.chutes| ==> t.chutes[j] == Chute(j + 1, Some(0), false)
  {
    StopIsQuiet(s);
  }
}
