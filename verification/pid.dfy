/** PIDGenerator: parcel ids, counted per induction and mode inside fixed ranges. */
module Pid {
  import opened Prelude

  datatype Mode = Auto | Key

  datatype PidKey = PidKey(inductionNo: int, mode: Mode)

  datatype Range = Range(autoStart: int, autoEnd: int, keyStart: int, keyEnd: int)

  const PID_RANGES: map<int, Range> := map[
    1 := Range(100001, 115000, 115001, 130000),
    2 := Range(200001, 215000, 215001, 230000),
    3 := Range(300001, 315000, 315001, 330000),
    4 := Range(400001, 415000, 415001, 430000)]

  /** PIDs in the cycle of one key. */
  const CYCLE := 15000

  type Counters = map<PidKey, int>

  predicate Known(key: PidKey) {
    1 <= key.inductionNo <= 4
  }

  function Start(key: PidKey): int
    requires Known(key)
  {
    var range := PID_RANGES[key.inductionNo];
    if key.mode == Auto then range.autoStart else range.keyStart
  }

  function End(key: PidKey): int
    requires Known(key)
  {
    var range := PID_RANGES[key.inductionNo];
    if key.mode == Auto then range.autoEnd else range.keyEnd
  }

  /** The n-th PID of a key, counted from zero since its counter was reset. */
  function NthPid(key: PidKey, n: nat): int
    requires Known(key)
  {
    Start(key) + n % CYCLE
  }

  // ---- the generator on values ----

  datatype Op = Generate(key: PidKey) | ResetOne(inductionNo: int) | ResetAll

  /** The PID handed out, if any, and the counters afterwards. */
  function Next(counters: Counters, key: PidKey): (r: (Option<int>, Counters)) {
    if !Known(key) then (None, counters)
    else
      var stored := if key in counters then counters[key] else Start(key);
      var current := if stored > End(key) then Start(key) else stored;
      (Some(current), counters[key := current + 1])
  }

  function Apply(counters: Counters, op: Op): Counters {
    match op
    case Generate(key) => Next(counters, key).1
    case ResetOne(n) => counters - {PidKey(n, Auto), PidKey(n, Key)}
    case ResetAll => map[]
  }

  function Run(ops: seq<Op>): Counters {
    if ops == [] then map[] else Apply(Run(ops[..|ops| - 1]), ops[|ops| - 1])
  }

  /** PIDs of a key generated since its last reset. */
  function Issued(ops: seq<Op>, key: PidKey): nat {
    if ops == [] then 0
    else
      var earlier := Issued(ops[..|ops| - 1], key);
      match ops[|ops| - 1]
      case Generate(k) => if k == key && Known(key) then earlier + 1 else earlier
      case ResetOne(n) => if n == key.inductionNo then 0 else earlier
      case ResetAll => 0
  }

  /** What the counter of a key says after n PIDs. */
  predicate CounterAfter(counters: Counters, key: PidKey, n: nat) {
    if !Known(key) || n == 0 then key !in counters
    else key in counters && counters[key] == NthPid(key, n - 1) + 1
  }

  class PidGenerator {
    var counters: Counters

    constructor ()
      ensures counters == map[]
    {
      counters := map[];
    }

    method Generate(inductionNo: int, mode: Mode) returns (pid: Option<int>)
      modifies this
      ensures (pid, counters) == Next(old(counters), PidKey(inductionNo, mode))
    {
      if inductionNo !in PID_RANGES { return None; }
      var key := PidKey(inductionNo, mode);
      var range := PID_RANGES[inductionNo];
      var start := if mode == Auto then range.autoStart else range.keyStart;
      var end := if mode == Auto then range.autoEnd else range.keyEnd;
      var current := if key in counters then counters[key] else start;
      if current > end {
        current := start;
      }
      counters := counters[key := current + 1];
      return Some(current);
    }

    method Reset(inductionNo: Option<int>)
      modifies this
      ensures counters == Apply(old(counters), if inductionNo == None then ResetAll else ResetOne(inductionNo.value))
      ensures inductionNo == None ==> counters == map[]
    {
      if inductionNo.Some? {
        counters := counters - {PidKey(inductionNo.value, Auto)};
        counters := counters - {PidKey(inductionNo.value, Key)};
      } else {
        counters := map[];
      }
    }

    /** The key that hands out this PID, by searching the range table; None for a number
        that no key ever hands out. */
    static method Resolve(pid: int) returns (r: Option<PidKey>)
      ensures r.Some? ==> Known(r.value) && exists n: nat :: NthPid(r.value, n) == pid
      ensures forall k, n: nat :: Known(k) && NthPid(k, n) == pid ==> r == Some(k)
    {
      r := FindRange(pid);
      if r.Some? {
        RangeIsWhatIsHandedOut(r.value, pid);
      }
      forall k, n: nat | Known(k) && NthPid(k, n) == pid ensures r == Some(k) {
        RangeIsWhatIsHandedOut(k, pid);
        if r.Some? {
          ResolveInvertsGenerate(k, n, r.value);
        }
      }
    }

    static method FindRange(pid: int) returns (key: Option<PidKey>)
      ensures key.Some? ==> Known(key.value) && Start(key.value) <= pid <= End(key.value)
      ensures key == None ==> forall k :: Known(k) ==> !(Start(k) <= pid <= End(k))
    {
      for n := 1 to 5
        invariant forall k :: Known(k) && k.inductionNo < n ==> !(Start(k) <= pid <= End(k))
      {
        var range := PID_RANGES[n];
        if range.autoStart <= pid <= range.autoEnd {
          return Some(PidKey(n, Auto));
        }
        if range.keyStart <= pid <= range.keyEnd {
          return Some(PidKey(n, Key));
        }
        forall k | Known(k) && k.inductionNo == n ensures !(Start(k) <= pid <= End(k)) {
          assert k.mode == Auto || k.mode == Key;
        }
      }
      return None;
    }
  }

  // ---- what the PIDs are ----

  lemma RangesAreCycles(key: PidKey)
    requires Known(key)
    ensures End(key) == Start(key) + CYCLE - 1
  {
  }

  lemma NextIsNth(counters: Counters, key: PidKey, n: nat)
    requires Known(key) && CounterAfter(counters, key, n)
    ensures Next(counters, key).0 == Some(NthPid(key, n))
    ensures CounterAfter(Next(counters, key).1, key, n + 1)
  {
    RangesAreCycles(key);
  }

  /** After any history of generating and resetting, the next PID of a key is the n-th,
      where n counts that key's PIDs since its last reset. */
  lemma {:induction false} EveryCounterIsItsCount(ops: seq<Op>, key: PidKey)
    ensures CounterAfter(Run(ops), key, Issued(ops, key))
    ensures Known(key) ==> Next(Run(ops), key).0 == Some(NthPid(key, Issued(ops, key)))
    decreases |ops|
  {
    if ops != [] {
      EveryCounterIsItsCount(ops[..|ops| - 1], key);
      var op := ops[|ops| - 1];
      if op.Generate? && op.key == key && Known(key) {
        NextIsNth(Run(ops[..|ops| - 1]), key, Issued(ops[..|ops| - 1], key));
      }
    }
    if Known(key) {
      NextIsNth(Run(ops), key, Issued(ops, key));
    }
  }

  /** Two PIDs are equal exactly when they have the same key and lie whole cycles apart:
      different keys never collide, and within a key a PID returns after 15000 others. */
  lemma SamePid(a: PidKey, m: nat, b: PidKey, n: nat)
    requires Known(a) && Known(b)
    ensures NthPid(a, m) == NthPid(b, n) <==> a == b && m % CYCLE == n % CYCLE
    ensures NthPid(a, m) == NthPid(b, n) && m < n ==> n - m >= CYCLE
  {
    if NthPid(a, m) == NthPid(b, n) {
      if a != b {
        DifferentKeysAreApart(a, b);
        assert false;
      }
    }
  }

  lemma DifferentKeysAreApart(a: PidKey, b: PidKey)
    requires Known(a) && Known(b) && a != b
    ensures Start(a) - Start(b) >= CYCLE || Start(b) - Start(a) >= CYCLE
  {
    assert a.inductionNo != b.inductionNo || a.mode != b.mode;
  }

  /** A number lies in the range of a key exactly when that key hands it out. */
  lemma RangeIsWhatIsHandedOut(key: PidKey, pid: int)
    requires Known(key)
    ensures Start(key) <= pid <= End(key) <==> exists n: nat :: NthPid(key, n) == pid
  {
    RangesAreCycles(key);
    if Start(key) <= pid <= End(key) {
      assert NthPid(key, pid - Start(key)) == pid;
    }
  }

  /** Only one range holds a PID: that of the key that made it. */
  lemma ResolveInvertsGenerate(key: PidKey, n: nat, found: PidKey)
    requires Known(key) && Known(found) && Start(found) <= NthPid(key, n) <= End(found)
    ensures found == key
  {
    RangesAreCycles(key);
    RangesAreCycles(found);
    if found != key {
      DifferentKeysAreApart(key, found);
    }
  }
}
