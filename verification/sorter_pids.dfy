/** The parcel ids of the items a run makes. */
module SorterPids {
  import opened Prelude
  import opened SorterState
  import opened SorterRuns
  import opened SorterItems

  function KeyOf(item: Item): Pid.PidKey {
    Pid.PidKey(item.inductionNo, item.mode)
  }

  /** Items of one induction and mode made since the last reset. */
  function KeyCount(objects: seq<Item>, base: nat, key: Pid.PidKey): nat {
    if |objects| <= base then 0
    else KeyCount(objects[..|objects| - 1], base, key) + One(KeyOf(objects[|objects| - 1]) == key)
  }

  /** An item's number among those of its induction and mode. */
  function Turn(s: State, i: nat): nat
    requires i < |s.objects|
  {
    KeyCount(s.objects[..i], s.resetBase, KeyOf(s.objects[i]))
  }

  ghost predicate NthOfItsKey(s: State, i: nat) {
    i < |s.objects| && Pid.Known(KeyOf(s.objects[i])) && s.objects[i].pid == Pid.NthPid(KeyOf(s.objects[i]), Turn(s, i))
  }

  ghost predicate Numbering(s: State) {
    && s.resetBase <= |s.objects|
    && (forall key :: Pid.CounterAfter(s.pids, key, KeyCount(s.objects, s.resetBase, key)))
    && (forall i: nat :: s.resetBase <= i < |s.objects| ==> NthOfItsKey(s, i))
    && (forall i :: i in s.items ==> s.resetBase <= i < |s.objects|)
  }

  ghost predicate SameOrigins(before: seq<Item>, after: seq<Item>) {
    |before| == |after|
    && forall i :: 0 <= i < |before| ==> KeyOf(after[i]) == KeyOf(before[i]) && after[i].pid == before[i].pid
  }

  lemma {:induction false} KeyCountOfSameOrigins(before: seq<Item>, after: seq<Item>, base: nat, key: Pid.PidKey)
    requires SameOrigins(before, after)
    ensures KeyCount(after, base, key) == KeyCount(before, base, key)
    decreases |before|
  {
    if |before| > base {
      KeyCountOfSameOrigins(before[..|before| - 1], after[..|after| - 1], base, key);
    }
  }

  lemma SameOriginsKeepNumbering(s: State, t: State)
    requires Numbering(s) && SameOrigins(s.objects, t.objects)
    requires t.pids == s.pids && t.resetBase == s.resetBase && (forall i :: i in t.items ==> i in s.items)
    ensures Numbering(t)
  {
    forall key ensures KeyCount(t.objects, t.resetBase, key) == KeyCount(s.objects, s.resetBase, key) {
      KeyCountOfSameOrigins(s.objects, t.objects, s.resetBase, key);
    }
    forall i: nat | t.resetBase <= i < |t.objects| ensures NthOfItsKey(t, i) {
      assert NthOfItsKey(s, i);
      KeyCountOfSameOrigins(s.objects[..i], t.objects[..i], s.resetBase, KeyOf(s.objects[i]));
    }
  }

  lemma WipingKeepsNumbering(s: State)
    ensures Numbering(Wiped(s))
  {
    var t := Wiped(s);
    assert forall key :: KeyCount(t.objects, t.resetBase, key) == 0;
  }

  /** The induction's next PID goes to the item that now is the next of its key. */
  lemma FilingNumbers(s: State, i: nat, item: Item, pids: Pid.Counters)
    requires Numbering(s) && i < |s.inductions| && Pid.Known(KeyOf(item))
    requires Pid.Next(s.pids, KeyOf(item)) == (Some(item.pid), pids)
    ensures Numbering(File(s.(pids := pids), i, item))
  {
    var t, key := File(s.(pids := pids), i, item), KeyOf(item);
    var n := KeyCount(s.objects, s.resetBase, key);
    Pid.NextIsNth(s.pids, key, n);
    assert t.objects[..|s.objects|] == s.objects;
    forall other ensures Pid.CounterAfter(t.pids, other, KeyCount(t.objects, t.resetBase, other)) {
      assert Pid.CounterAfter(s.pids, other, KeyCount(s.objects, s.resetBase, other));
    }
    forall j: nat | t.resetBase <= j < |t.objects| ensures NthOfItsKey(t, j) {
      if j < |s.objects| {
        assert NthOfItsKey(s, j);
        assert t.objects[..j] == s.objects[..j];
      }
    }
  }

  lemma SameNumbering(s: State, t: State)
    requires Numbering(s) && t.objects == s.objects && t.items == s.items
    requires t.pids == s.pids && t.resetBase == s.resetBase
    ensures Numbering(t)
  {
    SameOriginsKeepNumbering(s, t);
  }

  lemma InductingNumbers(s: State, i: nat, pick: nat)
    requires Numbering(s) && Shaped(s) && i < |s.inductions|
    ensures Numbering(InductItem(s, i, pick))
  {
    var ind := s.inductions[i];
    var key := Pid.PidKey(ind.no, ind.mode);
    var generated := Pid.Next(s.pids, key);
    assert Pid.Known(key);
    var t := s.(cellCounter := NextCell(s.cellCounter));
    SameNumbering(s, t);
    var item := Made(t, ind, generated.0.value, pick);
    FilingNumbers(t, i, item, generated.1);
    var u := File(t.(pids := generated.1), i, item);
    SameNumbering(u, Announce(u, |s.objects|));
  }

  lemma DischargingNumbers(s: State, id: nat, noRead: bool, sorted: bool)
    requires Numbering(s) && id < |s.objects|
    ensures Numbering(DischargeItem(s, id, noRead, sorted))
  {
    SameOriginsKeepNumbering(s, DischargeItem(s, id, noRead, sorted));
  }

  lemma ConfirmingNumbers(s: State, id: nat, chute: int, recirculation: int, noRead: bool, success: bool)
    requires Numbering(s) && id < |s.objects|
    ensures Numbering(ConfirmItem(s, id, chute, recirculation, noRead, success))
  {
    WithoutLeavesOthers(s.items, id);
    SameOriginsKeepNumbering(s, ConfirmItem(s, id, chute, recirculation, noRead, success));
  }

  lemma CallingNumbers(s: State, callback: Callback, luck: Luck)
    requires Numbering(s) && Shaped(s)
    ensures Numbering(Call(s, callback, luck))
  {
    match callback
    case Induct(_, i) =>
      if i < |s.inductions| { InductingNumbers(s, i, luck.pick); }
    case Discharge(id) =>
      if id < |s.objects| { DischargingNumbers(s, id, luck.noRead, luck.sorted); }
    case Confirm(id, chute, recirculation, noRead, success) =>
      if id < |s.objects| { ConfirmingNumbers(s, id, chute, recirculation, noRead, success); }
  }

  lemma StepNumbers(s: State, e: Event)
    requires Numbering(s) && Shaped(s)
    ensures Numbering(Step(s, e))
  {
    if !HandlesItems(e) {
      OthersAreQuiet(s, e);
      SameNumbering(s, Step(s, e));
    } else {
      match e
      case ResetAsked =>
        WipingKeepsNumbering(Stop(s));
        SameNumbering(Wiped(Stop(s)), Reset(s));
      case ItemInjected(no, pick) =>
        if Place(no, |s.inductions|).Some? { InductingNumbers(s, Place(no, |s.inductions|).value, pick); }
      case TimerFired(k, luck) =>
        if k < |s.timers| && k in s.live {
          var t := if s.timers[k].Induct? then s else s.(live := s.live - {k});
          SameNumbering(s, t);
          CallingNumbers(t, s.timers[k], luck);
        }
      case LateCall(k, luck) =>
        if k < |s.timers| { CallingNumbers(s, s.timers[k], luck); }
    }
  }

  lemma {:induction false} AlwaysNumbered(config: FullConfig, events: seq<Event>)
    ensures Numbering(Run(Initial(config), events))
    decreases |events|
  {
    if events == [] {
      WipingKeepsNumbering(Initial(config));
      SameNumbering(Wiped(Initial(config)), Initial(config));
    } else {
      AlwaysNumbered(config, events[..|events| - 1]);
      AlwaysShaped(config, events[..|events| - 1]);
      StepNumbers(Run(Initial(config), events[..|events| - 1]), events[|events| - 1]);
    }
  }

  lemma {:induction false} LaterTurn(objects: seq<Item>, base: nat, i: nat, j: nat)
    requires base <= i < j <= |objects|
    ensures KeyCount(objects[..i], base, KeyOf(objects[i])) < KeyCount(objects[..j], base, KeyOf(objects[i]))
    decreases j
  {
    assert objects[..j][..j - 1] == objects[..j - 1];
    if i < j - 1 {
      LaterTurn(objects, base, i, j - 1);
    }
  }

  /** In every run two active items carry the same PID exactly when one induction and mode
      made both, whole cycles apart: at least 15000 of its items lie between them. */
  lemma ActiveItemsSharePid(config: FullConfig, events: seq<Event>, i: nat, j: nat)
    requires i < j && i in Run(Initial(config), events).items && j in Run(Initial(config), events).items
    ensures var s := Run(Initial(config), events);
      && j < |s.objects|
      && var a, b := s.objects[i], s.objects[j];
      && (a.pid == b.pid <==> KeyOf(a) == KeyOf(b) && Turn(s, i) % Pid.CYCLE == Turn(s, j) % Pid.CYCLE)
      && (a.pid == b.pid ==> Turn(s, j) - Turn(s, i) >= 15000)
  {
    AlwaysNumbered(config, events);
    var s := Run(Initial(config), events);
    assert NthOfItsKey(s, i) && NthOfItsKey(s, j);
    var a, b := KeyOf(s.objects[i]), KeyOf(s.objects[j]);
    Pid.SamePid(a, Turn(s, i), b, Turn(s, j));
    if a == b {
      LaterTurn(s.objects, s.resetBase, i, j);
    }
  }
}
