/** What every run of the virtual sorter keeps about its items. */
module SorterItems {
  import opened Prelude
  import opened Messages
  import opened SorterState
  import opened SorterRuns

  // ---- operations that leave the items alone ----

  /** Items, counters and events are as they were; only errors may have been counted. */
  ghost predicate SameItems(s: State, t: State) {
    && t.objects == s.objects && t.items == s.items && t.cellCounter == s.cellCounter && t.pids == s.pids
    && t.resetBase == s.resetBase && t.emitted == s.emitted && t.failures == s.failures
    && t.totals == s.totals.(errors := t.totals.errors)
  }

  /** No discharge or confirmation was set, and no timer came back to life. */
  ghost predicate NoNewCalls(s: State, t: State) {
    && s.timers <= t.timers
    && (forall k :: |s.timers| <= k < |t.timers| ==> t.timers[k].Induct?)
    && (forall k :: k in t.live && k < |s.timers| ==> k in s.live)
  }

  ghost predicate Quiet(s: State, t: State) {
    SameItems(s, t) && NoNewCalls(s, t)
  }

  lemma QuietAfterQuiet(s: State, t: State, u: State)
    requires Quiet(s, t) && Quiet(t, u)
    ensures Quiet(s, u)
  {
  }

  lemma StartIsQuiet(s: State)
    ensures Quiet(s, Start(s))
  {
  }

  lemma StopIsQuiet(s: State)
    ensures Quiet(s, Stop(s))
  {
  }

  lemma UpdateConfigIsQuiet(s: State, changes: Changes)
    ensures Quiet(s, UpdateConfig(s, changes))
  {
    var t := s.(config := Assigned(s.config, changes));
    var u := if ChangesCounts(changes) then Reinitialize(t) else t;
    if ChangesCounts(changes) && s.status == Running {
      StopIsQuiet(t);
      QuietAfterQuiet(s, Stop(t), Initialized(Stop(t)));
      StartIsQuiet(Initialized(Stop(t)));
      QuietAfterQuiet(s, Initialized(Stop(t)), u);
    }
    if changes.intervalGiven && u.status == Running {
      QuietAfterQuiet(s, u, StopInductionTimers(u));
      QuietAfterQuiet(s, StopInductionTimers(u), UpdateConfig(s, changes));
    }
  }

  lemma CommandsAreQuiet(s: State, no: int, request: int)
    ensures Quiet(s, SetInductionControl(s, no, request)) && Quiet(s, SetInductionMode(s, no, request))
    ensures Quiet(s, SetResetRequest(s))
  {
  }

  lemma TriggerFaultIsQuiet(s: State, fault: Fault, no: Option<int>)
    ensures Quiet(s, TriggerFault(s, fault, no))
  {
  }

  lemma ClearFaultIsQuiet(s: State, fault: Option<Fault>)
    ensures Quiet(s, ClearFault(s, fault))
  {
  }

  lemma OthersAreQuiet(s: State, e: Event)
    requires !HandlesItems(e)
    ensures Quiet(s, Step(s, e))
  {
    match e
    case StartAsked => StartIsQuiet(s);
    case StopAsked => StopIsQuiet(s);
    case Configured(changes) => UpdateConfigIsQuiet(s, changes);
    case SorterCommand(request) => StartIsQuiet(s); StopIsQuiet(s);
    case InductionCommand(no, request) => CommandsAreQuiet(s, no, request);
    case ModeCommand(no, request) => CommandsAreQuiet(s, no, request);
    case ResetCommand => CommandsAreQuiet(s, 0, 0);
    case FaultInjected(fault, no) => TriggerFaultIsQuiet(s, fault, no);
    case FaultCleared(fault) => ClearFaultIsQuiet(s, fault);
  }

  // ---- counting ----

  function CountOf(objects: seq<Item>, items: seq<nat>, status: ItemStatus): nat {
    if items == [] then 0
    else
      var last := items[|items| - 1];
      CountOf(objects, items[..|items| - 1], status)
      + (if last < |objects| && objects[last].status == status then 1 else 0)
  }

  /** Active items are items, each once, in the order they were made. */
  ghost predicate Increasing(items: seq<nat>) {
    forall i, j :: 0 <= i < j < |items| ==> items[i] < items[j]
  }

  ghost predicate Within(items: seq<nat>, n: nat) {
    forall i :: i in items ==> i < n
  }

  function One(condition: bool): nat {
    if condition then 1 else 0
  }

  lemma {:induction false} CountWithNewObject(objects: seq<Item>, items: seq<nat>, item: Item, status: ItemStatus)
    requires Within(items, |objects|)
    ensures CountOf(objects + [item], items, status) == CountOf(objects, items, status)
    decreases |items|
  {
    if items != [] {
      var rest, last := items[..|items| - 1], items[|items| - 1];
      assert items == rest + [last] && last in items;
      forall i | i in rest ensures i < |objects| { assert i in items; }
      CountWithNewObject(objects, rest, item, status);
    }
  }

  lemma CountWithNewItem(objects: seq<Item>, items: seq<nat>, item: Item, status: ItemStatus)
    requires Within(items, |objects|)
    ensures CountOf(objects + [item], items + [|objects|], status)
         == CountOf(objects, items, status) + One(item.status == status)
  {
    assert (items + [|objects|])[..|items|] == items;
    CountWithNewObject(objects, items, item, status);
  }

  lemma {:induction false} CountAfterUpdate(objects: seq<Item>, items: seq<nat>, id: nat, item: Item,
                                            status: ItemStatus)
    requires id < |objects| && Increasing(items)
    ensures CountOf(objects[id := item], items, status) + One(id in items && objects[id].status == status)
         == CountOf(objects, items, status) + One(id in items && item.status == status)
    decreases |items|
  {
    if items != [] {
      var rest, last := items[..|items| - 1], items[|items| - 1];
      CountAfterUpdate(objects, rest, id, item, status);
      assert items == rest + [last];
      assert last !in rest;
    }
  }

  lemma {:induction false} WithoutLeavesOthers(items: seq<nat>, id: nat)
    ensures forall k :: k in SorterState.Without(items, id) <==> k in items && k != id
    ensures Increasing(items) ==> Increasing(SorterState.Without(items, id))
    decreases |items|
  {
    if items != [] {
      var rest, last := items[..|items| - 1], items[|items| - 1];
      WithoutLeavesOthers(rest, id);
      assert items == rest + [last];
      var kept := SorterState.Without(rest, id);
      if Increasing(items) {
        forall i | 0 <= i < |kept| ensures kept[i] < last {
          assert kept[i] in rest;
        }
      }
    }
  }

  lemma CountExtended(objects: seq<Item>, items: seq<nat>, id: nat, status: ItemStatus)
    ensures CountOf(objects, items + [id], status)
         == CountOf(objects, items, status) + One(id < |objects| && objects[id].status == status)
  {
    assert (items + [id])[..|items|] == items;
  }

  lemma {:induction false} CountWithout(objects: seq<Item>, items: seq<nat>, id: nat, status: ItemStatus)
    requires id < |objects| && Increasing(items)
    ensures CountOf(objects, SorterState.Without(items, id), status) + One(id in items && objects[id].status == status)
         == CountOf(objects, items, status)
    decreases |items|
  {
    if items != [] {
      var rest, last := items[..|items| - 1], items[|items| - 1];
      CountWithout(objects, rest, id, status);
      assert items == rest + [last];
      assert last !in rest;
      CountExtended(objects, rest, last, status);
      CountExtended(objects, SorterState.Without(rest, id), last, status);
    }
  }

  // ---- conservation ----

  /** The guard of a callback: it changes something when called now. */
  predicate Acts(s: State, callback: Callback) {
    match callback
    case Induct(_, _) => false
    case Discharge(id) => id < |s.objects| && s.objects[id].status == InTransit
    case Confirm(id, _, _, _, _) => id < |s.objects| && s.objects[id].status == Discharged
  }

  /** A live timer that will change an item if it fires now. */
  ghost predicate Waiting(s: State, k: nat) {
    k < |s.timers| && k in s.live && Acts(s, s.timers[k])
  }

  ghost predicate ActiveInOrder(s: State) {
    Increasing(s.items) && Within(s.items, |s.objects|)
  }

  ghost predicate CallsKnownItems(s: State) {
    forall k :: 0 <= k < |s.timers| && !s.timers[k].Induct? ==> s.timers[k].item < |s.objects|
  }

  /** Whatever still waits for a timer is an active item. */
  ghost predicate Anchored(s: State) {
    forall k: nat :: Waiting(s, k) ==> s.timers[k].item in s.items
  }

  /** Conservation: what is in transit was inducted and not yet discharged, what is
      discharged is not yet confirmed, and nothing confirmed is still active. */
  ghost predicate Balanced(s: State) {
    && CountOf(s.objects, s.items, InTransit) == s.totals.inducted - s.totals.discharged
    && CountOf(s.objects, s.items, Discharged) == s.totals.discharged - s.totals.confirmed
    && CountOf(s.objects, s.items, Confirmed) == 0
    && s.totals.noRead + s.totals.recirculated <= s.totals.discharged
  }

  ghost predicate InBalance(s: State) {
    ActiveInOrder(s) && Balanced(s)
  }

  ghost predicate Conserved(s: State) {
    InBalance(s) && CallsKnownItems(s) && Anchored(s)
  }

  // ---- what each operation does to the balance ----

  lemma SameStockBalances(s: State, t: State)
    requires InBalance(s) && t.objects == s.objects && t.items == s.items
    requires t.totals == s.totals.(errors := t.totals.errors)
    ensures InBalance(t)
  {
  }

  lemma FilingBalances(s: State, i: nat, item: Item)
    requires InBalance(s) && i < |s.inductions| && item.status == InTransit
    ensures InBalance(File(s, i, item)) && |s.objects| in File(s, i, item).items
  {
    var t := File(s, i, item);
    assert t.items[|s.items|] == |s.objects|;
    forall j | 0 <= j < |s.items| ensures s.items[j] < |s.objects| {
      assert s.items[j] in s.items;
    }
    CountWithNewItem(s.objects, s.items, item, InTransit);
    CountWithNewItem(s.objects, s.items, item, Discharged);
    CountWithNewItem(s.objects, s.items, item, Confirmed);
  }

  lemma InductingBalances(s: State, i: nat, pick: nat)
    requires InBalance(s) && i < |s.inductions|
    ensures InBalance(InductItem(s, i, pick))
  {
    var ind := s.inductions[i];
    var generated := Pid.Next(s.pids, Pid.PidKey(ind.no, ind.mode));
    var t := s.(cellCounter := NextCell(s.cellCounter), pids := generated.1);
    if generated.0.Some? {
      MakingBalances(t, i, Made(t, ind, generated.0.value, pick));
    }
  }

  lemma MakingBalances(s: State, i: nat, item: Item)
    requires InBalance(s) && i < |s.inductions| && item.status == InTransit
    ensures InBalance(Announce(File(s, i, item), |s.objects|))
  {
    FilingBalances(s, i, item);
    AnnouncingBalances(File(s, i, item), |s.objects|);
  }

  lemma AnnouncingBalances(s: State, id: nat)
    requires InBalance(s) && id < |s.objects|
    ensures InBalance(Announce(s, id))
  {
    SameStockBalances(s, Announce(s, id));
  }

  /** A discharge keeps the balance exactly when its item is still active. */
  lemma UnloadingBalances(s: State, id: nat, chute: int, noRead: bool, success: bool)
    requires InBalance(s) && id < |s.objects| && s.objects[id].status == InTransit
    ensures var t := Unloaded(s, id, chute, noRead, success);
      ActiveInOrder(t) && (Balanced(t) <==> id in s.items)
  {
    var item := s.objects[id].(status := Discharged);
    CountAfterUpdate(s.objects, s.items, id, item, InTransit);
    CountAfterUpdate(s.objects, s.items, id, item, Discharged);
    CountAfterUpdate(s.objects, s.items, id, item, Confirmed);
  }

  lemma DischargingBalances(s: State, id: nat, noRead: bool, sorted: bool)
    requires InBalance(s) && id < |s.objects| && s.objects[id].status == InTransit
    ensures var t := DischargeItem(s, id, noRead, sorted); ActiveInOrder(t) && (Balanced(t) <==> id in s.items)
  {
    UnloadingBalances(s, id, if noRead then 0 else s.objects[id].destination, noRead, !noRead && sorted);
  }

  lemma ConfirmingCounts(s: State, id: nat, item: Item, status: ItemStatus)
    requires ActiveInOrder(s) && id < |s.objects| && item.status == Confirmed && s.objects[id].status == Discharged
    ensures CountOf(s.objects[id := item], SorterState.Without(s.items, id), status)
         == CountOf(s.objects, s.items, status) - One(id in s.items && status == Discharged)
  {
    CountAfterUpdate(s.objects, s.items, id, item, status);
    CountWithout(s.objects[id := item], s.items, id, status);
  }

  /** So does a confirmation. */
  lemma FinishingBalances(s: State, id: nat)
    requires InBalance(s) && id < |s.objects| && s.objects[id].status == Discharged
    ensures ActiveInOrder(Finished(s, id)) && (Balanced(Finished(s, id)) <==> id in s.items)
  {
    var item := s.objects[id].(status := Confirmed);
    ConfirmingCounts(s, id, item, InTransit);
    ConfirmingCounts(s, id, item, Discharged);
    ConfirmingCounts(s, id, item, Confirmed);
    WithoutLeavesOthers(s.items, id);
  }

  lemma ConfirmingBalances(s: State, id: nat, chute: int, recirculation: int, noRead: bool, success: bool)
    requires InBalance(s) && id < |s.objects| && s.objects[id].status == Discharged
    ensures var t := ConfirmItem(s, id, chute, recirculation, noRead, success);
      ActiveInOrder(t) && (Balanced(t) <==> id in s.items)
  {
    FinishingBalances(s, id);
  }

  predicate CallKeepsBalance(s: State, callback: Callback) {
    Acts(s, callback) ==> callback.item in s.items
  }

  lemma CallingBalances(s: State, callback: Callback, luck: Luck)
    requires InBalance(s)
    ensures ActiveInOrder(Call(s, callback, luck))
        && (Balanced(Call(s, callback, luck)) <==> CallKeepsBalance(s, callback))
  {
    match callback
    case Induct(_, i) =>
      if i < |s.inductions| { InductingBalances(s, i, luck.pick); }
    case Discharge(id) =>
      if Acts(s, callback) { DischargingBalances(s, id, luck.noRead, luck.sorted); }
    case Confirm(id, chute, recirculation, noRead, success) =>
      if Acts(s, callback) { ConfirmingBalances(s, id, chute, recirculation, noRead, success); }
  }

  /** Only a discharge or confirmation of an item that is not active any more, because of a
      reset or because the callback runs again, upsets the balance. */
  predicate KeepsBalance(s: State, e: Event) {
    match e
    case TimerFired(k, _) => k < |s.timers| && k in s.live ==> CallKeepsBalance(s, s.timers[k])
    case LateCall(k, _) => k < |s.timers| ==> CallKeepsBalance(s, s.timers[k])
    case _ => true
  }

  lemma StepBalancesExactly(s: State, e: Event)
    requires InBalance(s)
    ensures ActiveInOrder(Step(s, e)) && (Balanced(Step(s, e)) <==> KeepsBalance(s, e))
  {
    if !HandlesItems(e) {
      OthersAreQuiet(s, e);
      SameStockBalances(s, Step(s, e));
    } else {
      match e
      case ResetAsked =>
      case ItemInjected(no, pick) =>
        if Place(no, |s.inductions|).Some? { InductingBalances(s, Place(no, |s.inductions|).value, pick); }
      case TimerFired(k, luck) =>
        if k < |s.timers| && k in s.live {
          CallingBalances(if s.timers[k].Induct? then s else s.(live := s.live - {k}), s.timers[k], luck);
        }
      case LateCall(k, luck) =>
        if k < |s.timers| { CallingBalances(s, s.timers[k], luck); }
    }
  }

  ghost predicate BalancedThroughout(s: State, events: seq<Event>) {
    Balanced(Run(s, events)) && (events == [] || BalancedThroughout(s, events[..|events| - 1]))
  }

  ghost predicate AllKeepBalance(s: State, events: seq<Event>) {
    events == []
    || (AllKeepBalance(s, events[..|events| - 1]) && KeepsBalance(Run(s, events[..|events| - 1]), events[|events| - 1]))
  }

  /** Over a whole run, resets at any time included, the items in transit are throughout those
      inducted and not discharged, and those discharged are not yet confirmed, if and only if
      every callback that changes an item finds it active. */
  lemma {:induction false} ConservationExactly(config: FullConfig, events: seq<Event>)
    ensures BalancedThroughout(Initial(config), events) <==> AllKeepBalance(Initial(config), events)
    ensures BalancedThroughout(Initial(config), events) ==> ActiveInOrder(Run(Initial(config), events))
    decreases |events|
  {
    if events != [] {
      var earlier, last := events[..|events| - 1], events[|events| - 1];
      ConservationExactly(config, earlier);
      if BalancedThroughout(Initial(config), earlier) {
        StepBalancesExactly(Run(Initial(config), earlier), last);
      }
    }
  }

  // ---- when every callback finds its item ----

  lemma QuietConserves(s: State, t: State)
    requires Conserved(s) && Quiet(s, t)
    ensures Conserved(t)
  {
    forall k: nat | Waiting(t, k) ensures t.timers[k].item in t.items {
      assert k < |s.timers| && t.timers[k] == s.timers[k];
      assert Waiting(s, k);
    }
  }

  /** Wiping the counters while something waits for a timer loses the items behind it. */
  lemma WipingConserves(s: State)
    requires ActiveInOrder(s) && CallsKnownItems(s)
    ensures Conserved(Wiped(s)) <==> forall k :: !Waiting(s, k)
  {
    var t := Wiped(s);
    assert forall k :: Waiting(t, k) <==> Waiting(s, k);
    if Conserved(t) {
      forall k ensures !Waiting(s, k) {
        assert !Waiting(t, k);
      }
    }
  }

  lemma FilingConserves(s: State, i: nat, item: Item)
    requires Conserved(s) && i < |s.inductions| && item.status == InTransit
    ensures Conserved(File(s, i, item)) && |s.objects| in File(s, i, item).items
  {
    var t := File(s, i, item);
    FilingBalances(s, i, item);
    forall k: nat | Waiting(t, k) ensures t.timers[k].item in t.items {
      assert s.timers[k].item < |s.objects|;
      assert Waiting(s, k);
    }
  }

  /** A callback set for an active item keeps everything anchored. */
  lemma SchedulingConserves(s: State, callback: Callback)
    requires Conserved(s) && !callback.Induct? && callback.item in s.items
    ensures Conserved(Schedule(s, callback))
  {
    var t := Schedule(s, callback);
    forall k: nat | Waiting(t, k) ensures t.timers[k].item in t.items {
      if k != |s.timers| {
        assert Waiting(s, k);
      }
    }
  }

  lemma AnnouncingConserves(s: State, id: nat)
    requires Conserved(s) && id < |s.objects| && id in s.items
    ensures Conserved(Announce(s, id))
  {
    var m := InductedMessage(s.objects[id]);
    if Encodable(m) {
      var t := Send(s, ReceiveInduct, m).(emitted := s.emitted + [Emitted(WasInducted, id)]);
      SameStockConserves(s, t);
      SchedulingConserves(t, Discharge(id));
    } else {
      SameStockConserves(s, s.(failures := s.failures + 1));
    }
  }

  /** Conservation speaks of items, totals and timers only. */
  lemma SameStockConserves(s: State, t: State)
    requires Conserved(s)
    requires t.objects == s.objects && t.items == s.items && t.totals == s.totals && t.timers == s.timers
        && t.live <= s.live
    ensures Conserved(t)
  {
    forall k: nat | Waiting(t, k) ensures t.timers[k].item in t.items {
      assert Waiting(s, k);
    }
  }

  lemma FilingAndAnnouncingConserves(s: State, i: nat, item: Item)
    requires Conserved(s) && i < |s.inductions| && item.status == InTransit
    ensures Conserved(Announce(File(s, i, item), |s.objects|))
  {
    FilingConserves(s, i, item);
    AnnouncingConserves(File(s, i, item), |s.objects|);
  }

  lemma InductingConserves(s: State, i: nat, pick: nat)
    requires Conserved(s) && i < |s.inductions|
    ensures Conserved(InductItem(s, i, pick))
  {
    var ind := s.inductions[i];
    var generated := Pid.Next(s.pids, Pid.PidKey(ind.no, ind.mode));
    var t := s.(cellCounter := NextCell(s.cellCounter), pids := generated.1);
    SameStockConserves(s, t);
    if generated.0.Some? {
      FilingAndAnnouncingConserves(t, i, Made(t, ind, generated.0.value, pick));
    } else {
      SameStockConserves(s, t.(failures := t.failures + 1));
    }
  }

  lemma UnloadingConserves(s: State, id: nat, chute: int, noRead: bool, success: bool)
    requires Conserved(s) && id in s.items && id < |s.objects| && s.objects[id].status == InTransit
    ensures Conserved(Unloaded(s, id, chute, noRead, success))
  {
    var t := Unloaded(s, id, chute, noRead, success);
    UnloadingBalances(s, id, chute, noRead, success);
    forall k: nat | Waiting(t, k) ensures t.timers[k].item in t.items {
      if t.timers[k].item != id {
        assert Waiting(s, k);
      }
    }
  }

  lemma DischargingConserves(s: State, id: nat, noRead: bool, sorted: bool)
    requires Conserved(s) && id < |s.objects|
    requires s.objects[id].status == InTransit ==> id in s.items
    ensures Conserved(DischargeItem(s, id, noRead, sorted))
  {
    var item := s.objects[id];
    if item.status == InTransit {
      var success := !noRead && sorted;
      var chute := if noRead then 0 else item.destination;
      var recirculation := if !noRead && !success then 1 else 0;
      var t := Unloaded(s, id, chute, noRead, success);
      UnloadingConserves(s, id, chute, noRead, success);
      var m := ItemDischarged(item.cellIndex, item.inductionNo, ModeCode(item.mode), chute, recirculation);
      var u := Send(t, ReceiveDischarge, m).(emitted := t.emitted + [Emitted(WasDischarged, id)]);
      SameStockConserves(t, u);
      SchedulingConserves(u, Confirm(id, chute, recirculation, noRead, success));
    }
  }

  lemma ConfirmingConserves(s: State, id: nat, chute: int, recirculation: int, noRead: bool, success: bool)
    requires Conserved(s) && id < |s.objects|
    requires s.objects[id].status == Discharged ==> id in s.items
    ensures Conserved(ConfirmItem(s, id, chute, recirculation, noRead, success))
  {
    if s.objects[id].status == Discharged {
      FinishingConserves(s, id);
      SameStockConserves(Finished(s, id), ConfirmItem(s, id, chute, recirculation, noRead, success));
    }
  }

  lemma FinishingConserves(s: State, id: nat)
    requires Conserved(s) && id < |s.objects| && id in s.items && s.objects[id].status == Discharged
    ensures Conserved(Finished(s, id))
  {
    var t := Finished(s, id);
    FinishingBalances(s, id);
    WithoutLeavesOthers(s.items, id);
    forall k: nat | Waiting(t, k) ensures t.timers[k].item in t.items {
      assert Waiting(s, k);
    }
  }

  lemma CallingConserves(s: State, callback: Callback, luck: Luck)
    requires Conserved(s) && (Acts(s, callback) ==> callback.item in s.items)
    ensures Conserved(Call(s, callback, luck))
  {
    match callback
    case Induct(_, i) =>
      if i < |s.inductions| { InductingConserves(s, i, luck.pick); }
    case Discharge(id) =>
      if id < |s.objects| { DischargingConserves(s, id, luck.noRead, luck.sorted); }
    case Confirm(id, chute, recirculation, noRead, success) =>
      if id < |s.objects| { ConfirmingConserves(s, id, chute, recirculation, noRead, success); }
  }

  /** What conservation asks of a caller. A reset needs a stop that clears the timers, which
      a stopped sorter does not do, or that no timer waits; a late call must not touch an
      item that is no longer active. */
  ghost predicate SafeReset(s: State) {
    s.status != Stopped || forall k :: !Waiting(s, k)
  }

  ghost predicate Allowed(s: State, e: Event) {
    match e
    case ResetAsked => SafeReset(s)
    case LateCall(k, _) => k < |s.timers| && Acts(s, s.timers[k]) ==> s.timers[k].item in s.items
    case _ => true
  }

  ghost predicate AllAllowed(s: State, events: seq<Event>) {
    events == []
    || (AllAllowed(s, events[..|events| - 1]) && Allowed(Run(s, events[..|events| - 1]), events[|events| - 1]))
  }

  lemma ResettingConserves(s: State)
    requires Conserved(s) && TimersInStep(s)
    ensures Conserved(Reset(s)) <==> SafeReset(s)
  {
    var t := Stop(s);
    StopIsQuiet(s);
    QuietConserves(s, t);
    StopKeepsTimers(s);
    WipingConserves(t);
    InitializingConserves(Wiped(t));
  }

  lemma InitializingConserves(s: State)
    ensures Conserved(Initialized(s)) <==> Conserved(s)
  {
    var t := Initialized(s);
    assert forall k :: Waiting(t, k) <==> Waiting(s, k);
  }

  lemma StepConserves(s: State, e: Event)
    requires Conserved(s) && TimersInStep(s) && Allowed(s, e)
    ensures Conserved(Step(s, e))
  {
    if !HandlesItems(e) {
      OthersAreQuiet(s, e);
      QuietConserves(s, Step(s, e));
    } else {
      match e
      case ResetAsked => ResettingConserves(s);
      case ItemInjected(no, pick) =>
        if Place(no, |s.inductions|).Some? { InductingConserves(s, Place(no, |s.inductions|).value, pick); }
      case TimerFired(k, luck) =>
        if k < |s.timers| && k in s.live {
          var t := if s.timers[k].Induct? then s else s.(live := s.live - {k});
          SameStockConserves(s, t);
          assert Acts(s, s.timers[k]) ==> Waiting(s, k);
          CallingConserves(t, s.timers[k], luck);
        }
      case LateCall(k, luck) =>
        if k < |s.timers| { CallingConserves(s, s.timers[k], luck); }
    }
  }

  lemma {:induction false} RunsConserve(s: State, events: seq<Event>)
    requires Conserved(s) && TimersInStep(s) && AllAllowed(s, events)
    ensures Conserved(Run(s, events)) && TimersInStep(Run(s, events))
    decreases |events|
  {
    if events != [] {
      var earlier, last := events[..|events| - 1], events[|events| - 1];
      RunsConserve(s, earlier);
      StepConserves(Run(s, earlier), last);
      StepKeepsTimers(Run(s, earlier), last);
    }
  }

  /** In every run that resets safely the items in transit are those inducted and not
      discharged, those discharged are not yet confirmed, and none confirmed is active. */
  lemma Conservation(config: FullConfig, events: seq<Event>)
    requires AllAllowed(Initial(config), events)
    ensures Balanced(Run(Initial(config), events))
  {
    RunsConserve(Initial(config), events);
  }

  // ---- when a reset is safe ----

  lemma RunOfOne(s: State, e: Event)
    ensures Run(s, [e]) == Step(s, e)
    ensures AllAllowed(s, [e]) <==> Allowed(s, e)
  {
    assert [e][..0] == [];
  }

  /** Firing a timer that an unsafe reset has left waiting unbalances the totals. */
  lemma UnsafeResetUnbalances(s: State, k: nat, luck: Luck)
    requires s.status == Stopped && Waiting(s, k)
    ensures !Balanced(Step(Reset(s), TimerFired(k, luck)))
  {
    var t := Reset(s);
    assert t.items == [] && t.totals == NO_TOTALS;
    match s.timers[k]
    case Discharge(id) =>
      assert Step(t, TimerFired(k, luck)).totals.discharged == 1;
    case Confirm(id, _, _, _, _) =>
      assert SorterState.Without([], id) == [];
      assert Step(t, TimerFired(k, luck)).totals.confirmed == 1;
  }

  /** A reset keeps conservation in every future exactly when the sorter is not stopped, or
      no timer waits for an item. */
  lemma ResetIsSafeExactly(config: FullConfig, events: seq<Event>)
    requires AllAllowed(Initial(config), events)
    ensures var s := Run(Initial(config), events);
      SafeReset(s) <==> forall more :: AllAllowed(Reset(s), more) ==> Balanced(Run(Reset(s), more))
  {
    var s := Run(Initial(config), events);
    RunsConserve(Initial(config), events);
    if SafeReset(s) {
      ResettingConserves(s);
      StepKeepsTimers(s, ResetAsked);
      forall more | AllAllowed(Reset(s), more) ensures Balanced(Run(Reset(s), more)) {
        RunsConserve(Reset(s), more);
      }
    } else {
      var k :| Waiting(s, k);
      var fired := TimerFired(k, Luck(0, false, true));
      UnsafeResetUnbalances(s, k, Luck(0, false, true));
      RunOfOne(Reset(s), fired);
    }
  }

  lemma RunOfMore(s: State, events: seq<Event>, e: Event)
    ensures Run(s, events + [e]) == Step(Run(s, events), e)
    ensures AllAllowed(s, events + [e]) <==> AllAllowed(s, events) && Allowed(Run(s, events), e)
  {
    assert (events + [e])[..|events|] == events;
  }

  lemma FirstInduction(config: FullConfig)
    ensures var s, n := Fire(Start(Initial(config)), 0, Luck(0, false, true)), config.inductionCount.value;
      && |s.objects| == 1 && s.objects[0].status == InTransit
      && |s.timers| == n + 1 && s.timers[n] == Discharge(0) && n in s.live && s.pendingTimers == [n]
      && s.inductionTimers == From(0, n)
  {
    var s, n := Start(Initial(config)), config.inductionCount.value;
    assert s.timers == Inductors(1, n) && s.inductionTimers == From(0, n);
    assert s.timers[0] == Induct(1, 0) && From(0, n)[0] == 0;
    var ind := s.inductions[0];
    assert ind.no == 1 && ind.status == On && ind.mode == Pid.Auto;
    assert Pid.Next(s.pids, Pid.PidKey(1, Pid.Auto)).0 == Some(100001);
  }

  /** A motor trip and its repair stop the sorter but leave discharges and confirmations waiting. */
  lemma TripLeavesWaiting(s: State, k: nat)
    requires Waiting(s, k) && k !in s.inductionTimers
    ensures var t := Step(Step(s, FaultInjected(MotorTrip, None)), FaultCleared(None));
      t.status == Stopped && Waiting(t, k)
  {
    var t := Step(s, FaultInjected(MotorTrip, None));
    assert t.status == Emergency && k in t.live;
  }

  /** An item is inducted, the motor trips, the fault is cleared: the sorter is stopped, the
      item is still on its way, and a reset would lose it. */
  lemma TrippedSorterIsNotSafeToReset(config: FullConfig) returns (events: seq<Event>)
    ensures AllAllowed(Initial(config), events) && !SafeReset(Run(Initial(config), events))
  {
    var s, luck := Initial(config), Luck(0, false, true);
    RunOfOne(s, StartAsked);
    RunOfMore(s, [StartAsked], TimerFired(0, luck));
    events := [StartAsked] + [TimerFired(0, luck)];
    FirstInduction(config);
    var t := Run(s, events);
    assert Waiting(t, config.inductionCount.value);
    TripLeavesWaiting(t, config.inductionCount.value);
    RunOfMore(s, events, FaultInjected(MotorTrip, None));
    events := events + [FaultInjected(MotorTrip, None)];
    RunOfMore(s, events, FaultCleared(None));
    events := events + [FaultCleared(None)];
  }
}
