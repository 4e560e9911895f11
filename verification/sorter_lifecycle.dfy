/** The life of an item, and its parcel id, in every run whatsoever: resets at any time,
    timers in any order, callbacks late or repeated. */
module SorterLifecycle {
  import opened Messages
  import opened SorterState
  import opened SorterRuns
  import opened SorterItems

  // ---- the events of one item ----

  /** What was emitted about one item, in order. */
  function Trace(emitted: seq<Emitted>, id: nat): seq<Stage> {
    if emitted == [] then []
    else
      var earlier, last := Trace(emitted[..|emitted| - 1], id), emitted[|emitted| - 1];
      if last.item == id then earlier + [last.stage] else earlier
  }

  lemma TraceExtended(emitted: seq<Emitted>, e: Emitted, id: nat)
    ensures Trace(emitted + [e], id) == Trace(emitted, id) + (if e.item == id then [e.stage] else [])
  {
    assert (emitted + [e])[..|emitted|] == emitted;
  }

  /** An item is announced when its telegram can be built. */
  predicate Announced(item: Item) {
    Encodable(InductedMessage(item))
  }

  /** The life of an item up to its status. One that could not be announced has none. */
  function Life(item: Item): seq<Stage> {
    if !Announced(item) then []
    else match item.status
      case InTransit => [WasInducted]
      case Discharged => [WasInducted, WasDischarged]
      case Confirmed => [WasInducted, WasDischarged, WasConfirmed]
  }

  ghost predicate LivesTraced(s: State) {
    && (forall id :: 0 <= id < |s.objects| ==> Trace(s.emitted, id) == Life(s.objects[id]))
    && (forall id: nat :: id >= |s.objects| ==> Trace(s.emitted, id) == [])
    && (forall id :: 0 <= id < |s.objects| ==> Announced(s.objects[id]) || s.objects[id].status == InTransit)
  }

  /** Every callback ever set is about an item that was announced. */
  ghost predicate CallsAnnounced(s: State) {
    forall k :: 0 <= k < |s.timers| && !s.timers[k].Induct? ==>
      s.timers[k].item < |s.objects| && Announced(s.objects[s.timers[k].item])
  }

  ghost predicate Traced(s: State) {
    LivesTraced(s) && CallsAnnounced(s)
  }

  lemma QuietKeepsTraces(s: State, t: State)
    requires Traced(s) && Quiet(s, t)
    ensures Traced(t)
  {
    forall k | 0 <= k < |t.timers| && !t.timers[k].Induct?
      ensures t.timers[k].item < |t.objects| && Announced(t.objects[t.timers[k].item])
    {
      assert k < |s.timers| && t.timers[k] == s.timers[k];
    }
  }

  /** An item moves on in life while the matching event is emitted. */
  lemma MovingOn(s: State, id: nat, item: Item, stage: Stage)
    requires Traced(s) && id < |s.objects| && Announced(item) && Announced(s.objects[id])
    requires Life(item) == Life(s.objects[id]) + [stage]
    ensures Traced(s.(objects := s.objects[id := item], emitted := s.emitted + [Emitted(stage, id)]))
  {
    var t := s.(objects := s.objects[id := item], emitted := s.emitted + [Emitted(stage, id)]);
    forall j: nat ensures Trace(t.emitted, j) == Trace(s.emitted, j) + (if j == id then [stage] else []) {
      TraceExtended(s.emitted, Emitted(stage, id), j);
    }
  }

  lemma SchedulingKeepsTraces(s: State, callback: Callback)
    requires Traced(s) && !callback.Induct?
    requires callback.item < |s.objects| && Announced(s.objects[callback.item])
    ensures Traced(Schedule(s, callback))
  {
  }

  lemma SameLives(s: State, t: State)
    requires Traced(s) && t.objects == s.objects && t.emitted == s.emitted && t.timers == s.timers
    ensures Traced(t)
  {
  }

  lemma AnnouncingTraces(s: State, i: nat, item: Item)
    requires Traced(s) && i < |s.inductions| && item.status == InTransit
    ensures Traced(Announce(File(s, i, item), |s.objects|))
  {
    var t, id := File(s, i, item), |s.objects|;
    var u := t.(emitted := t.emitted + [Emitted(WasInducted, id)]);
    forall j: nat ensures Trace(u.emitted, j) == Trace(s.emitted, j) + (if j == id then [WasInducted] else []) {
      TraceExtended(s.emitted, Emitted(WasInducted, id), j);
    }
    if Announced(item) {
      var m := InductedMessage(item);
      var v := Send(t, ReceiveInduct, m).(emitted := t.emitted + [Emitted(WasInducted, id)]);
      assert LivesTraced(v);
      SchedulingKeepsTraces(v, Discharge(id));
    }
  }

  lemma InductingTraces(s: State, i: nat, pick: nat)
    requires Traced(s) && i < |s.inductions|
    ensures Traced(InductItem(s, i, pick))
  {
    var ind := s.inductions[i];
    var generated := Pid.Next(s.pids, Pid.PidKey(ind.no, ind.mode));
    var t := s.(cellCounter := NextCell(s.cellCounter), pids := generated.1);
    SameLives(s, t);
    if generated.0.Some? {
      AnnouncingTraces(t, i, Made(t, ind, generated.0.value, pick));
    }
  }

  lemma DischargingTraces(s: State, id: nat, noRead: bool, sorted: bool)
    requires Traced(s) && id < |s.objects| && Announced(s.objects[id])
    ensures Traced(DischargeItem(s, id, noRead, sorted))
  {
    var item := s.objects[id];
    if item.status == InTransit {
      var success := !noRead && sorted;
      var chute := if noRead then 0 else item.destination;
      var recirculation := if !noRead && !success then 1 else 0;
      MovingOn(s, id, item.(status := Discharged), WasDischarged);
      var t := Unloaded(s, id, chute, noRead, success);
      var m := ItemDischarged(item.cellIndex, item.inductionNo, ModeCode(item.mode), chute, recirculation);
      var u := Send(t, ReceiveDischarge, m).(emitted := t.emitted + [Emitted(WasDischarged, id)]);
      SameLives(s.(objects := t.objects, emitted := u.emitted), u);
      SchedulingKeepsTraces(u, Confirm(id, chute, recirculation, noRead, success));
    }
  }

  lemma ConfirmingTraces(s: State, id: nat, chute: int, recirculation: int, noRead: bool, success: bool)
    requires Traced(s) && id < |s.objects| && Announced(s.objects[id])
    ensures Traced(ConfirmItem(s, id, chute, recirculation, noRead, success))
  {
    var item := s.objects[id];
    if item.status == Discharged {
      MovingOn(s, id, item.(status := Confirmed), WasConfirmed);
      var t := ConfirmItem(s, id, chute, recirculation, noRead, success);
      SameLives(s.(objects := t.objects, emitted := t.emitted), t);
    }
  }

  lemma CallingTraces(s: State, callback: Callback, luck: Luck)
    requires Traced(s)
    requires !callback.Induct? ==> callback.item < |s.objects| && Announced(s.objects[callback.item])
    ensures Traced(Call(s, callback, luck))
  {
    match callback
    case Induct(_, i) =>
      if i < |s.inductions| { InductingTraces(s, i, luck.pick); }
    case Discharge(id) => DischargingTraces(s, id, luck.noRead, luck.sorted);
    case Confirm(id, chute, recirculation, noRead, success) =>
      ConfirmingTraces(s, id, chute, recirculation, noRead, success);
  }

  lemma StepTraces(s: State, e: Event)
    requires Traced(s)
    ensures Traced(Step(s, e))
  {
    if !HandlesItems(e) {
      OthersAreQuiet(s, e);
      QuietKeepsTraces(s, Step(s, e));
    } else {
      match e
      case ResetAsked =>
        StopIsQuiet(s);
        QuietKeepsTraces(s, Stop(s));
        SameLives(Stop(s), Reset(s));
      case ItemInjected(no, pick) =>
        if Place(no, |s.inductions|).Some? { InductingTraces(s, Place(no, |s.inductions|).value, pick); }
      case TimerFired(k, luck) =>
        if k < |s.timers| && k in s.live {
          var t := if s.timers[k].Induct? then s else s.(live := s.live - {k});
          SameLives(s, t);
          CallingTraces(t, s.timers[k], luck);
        }
      case LateCall(k, luck) =>
        if k < |s.timers| { CallingTraces(s, s.timers[k], luck); }
    }
  }

  lemma {:induction false} AlwaysTraced(config: FullConfig, events: seq<Event>)
    ensures Traced(Run(Initial(config), events))
    decreases |events|
  {
    if events != [] {
      AlwaysTraced(config, events[..|events| - 1]);
      StepTraces(Run(Initial(config), events[..|events| - 1]), events[|events| - 1]);
    }
  }

  lemma LifeIsInOrder(item: Item)
    ensures Life(item) <= [WasInducted, WasDischarged, WasConfirmed]
  {
    assert [WasInducted, WasDischarged, WasConfirmed][..2] == [WasInducted, WasDischarged];
  }

  /** In every run every item is inducted, discharged and confirmed at most once and in this
      order, however late or often its callbacks come; how far it has come is its status. An
      item whose telegram could not be built stays in transit without any event. */
  lemma ItemLifecycle(config: FullConfig, events: seq<Event>, id: nat)
    requires id < |Run(Initial(config), events).objects|
    ensures var s := Run(Initial(config), events);
      && Trace(s.emitted, id) == Life(s.objects[id])
      && Trace(s.emitted, id) <= [WasInducted, WasDischarged, WasConfirmed]
      && (!Announced(s.objects[id]) ==> s.objects[id].status == InTransit)
  {
    AlwaysTraced(config, events);
    LifeIsInOrder(Run(Initial(config), events).objects[id]);
  }
}
