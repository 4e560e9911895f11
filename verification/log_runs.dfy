/** What clients are sent, over every interleaving of logging, expiry, connections and ticks. */
module LogRuns {
  import opened Prelude
  import opened CommLog

  datatype Event =
    | Logged(message: string, now: int)
    | Expired(cutoff: int)
    | Connected
    | Disconnected
    | Ticked

  function Step(s: State, e: Event): State {
    match e
    case Logged(message, now) => Append(s, message, now)
    case Expired(cutoff) => Expire(s, cutoff)
    case Connected => s.(clients := s.clients + 1)
    case Disconnected => s.(clients := s.clients - 1)
    case Ticked => Tick(s)
  }

  function Run(events: seq<Event>): State {
    if events == [] then INITIAL else Step(Run(events[..|events| - 1]), events[|events| - 1])
  }

  /** The clock reading of the latest entry logged. */
  ghost predicate NotBefore(events: seq<Event>, now: int) {
    events == []
    || (NotBefore(events[..|events| - 1], now) && (events[|events| - 1].Logged? ==> events[|events| - 1].now <= now))
  }

  /** Entries are logged with non-decreasing clock readings. */
  ghost predicate Steady(events: seq<Event>) {
    events == []
    || (var earlier, last := events[..|events| - 1], events[|events| - 1];
        Steady(earlier) && (last.Logged? ==> NotBefore(earlier, last.now)))
  }

  /** What has been broadcast, each broadcast newest first. */
  function Sent(broadcasts: seq<seq<Entry>>): seq<Entry> {
    if broadcasts == [] then []
    else Sent(broadcasts[..|broadcasts| - 1]) + broadcasts[|broadcasts| - 1]
  }

  /** The log is the newest entries without a gap, in order of number and of time. */
  ghost predicate NewestWithoutGap(s: State) {
    && |s.logs| <= s.counter
    && (forall i :: 0 <= i < |s.logs| ==> s.logs[i].id == s.counter - i)
    && (forall i, j :: 0 <= i < j < |s.logs| ==> s.logs[i].timestamp >= s.logs[j].timestamp)
  }

  lemma {:induction false} KeptSinceIsAFront(logs: seq<Entry>, cutoff: int)
    requires forall i, j :: 0 <= i < j < |logs| ==> logs[i].timestamp >= logs[j].timestamp
    ensures KeptSince(logs, cutoff) <= logs
    ensures |KeptSince(logs, cutoff)| < |logs| ==> logs[|logs| - 1].timestamp < cutoff
  {
    if logs != [] {
      KeptSinceIsAFront(logs[..|logs| - 1], cutoff);
    }
  }

  lemma {:induction false} LatestTime(events: seq<Event>, now: int)
    requires NotBefore(events, now)
    ensures forall i :: 0 <= i < |Run(events).logs| ==> Run(events).logs[i].timestamp <= now
  {
    if events != [] {
      var earlier, last := events[..|events| - 1], events[|events| - 1];
      LatestTime(earlier, now);
      if last.Expired? {
        KeptSinceMembers(Run(earlier).logs, last.cutoff);
        var logs := Run(events).logs;
        forall i | 0 <= i < |logs| ensures logs[i].timestamp <= now {
          assert logs[i] in Run(earlier).logs;
        }
      }
    }
  }

  lemma {:induction false} KeptSinceMembers(logs: seq<Entry>, cutoff: int)
    ensures forall e :: e in KeptSince(logs, cutoff) ==> e in logs
  {
    if logs != [] {
      KeptSinceMembers(logs[..|logs| - 1], cutoff);
    }
  }

  lemma {:induction false} LogHasNoGap(events: seq<Event>)
    requires Steady(events)
    ensures NewestWithoutGap(Run(events)) && Run(events).lastId <= Run(events).counter
  {
    if events != [] {
      var earlier, last := events[..|events| - 1], events[|events| - 1];
      var s := Run(earlier);
      LogHasNoGap(earlier);
      match last
      case Logged(message, now) => LatestTime(earlier, now);
      case Expired(cutoff) => KeptSinceIsAFront(s.logs, cutoff);
      case _ =>
    }
  }

  lemma {:induction false} BeforeByNumber(logs: seq<Entry>, top: nat, id: nat)
    requires |logs| <= top && id <= top
    requires forall i :: 0 <= i < |logs| ==> logs[i].id == top - i
    ensures Before(logs, id) == Take(logs, top - id)
  {
    if logs != [] && logs[0].id != id {
      BeforeByNumber(logs[1..], top - 1, id);
      assert logs == [logs[0]] + logs[1..];
    }
  }

  /** How many entries a tick sends. */
  function Batch(s: State): nat
    requires s.lastId <= s.counter
  {
    Min(Min(10, |s.logs|), s.counter - s.lastId)
  }

  predicate Serves(s: State) {
    s.clients != 0 && s.logs != [] && s.lastId != s.counter
  }

  /** A tick sends the newest entries not yet numbered as sent, and remembers the newest. */
  lemma TickSendsTheNewest(s: State)
    requires NewestWithoutGap(s) && s.lastId <= s.counter
    ensures Serves(s) ==> Tick(s) == s.(lastId := s.counter, broadcasts := s.broadcasts + [s.logs[..Batch(s)]])
    ensures !Serves(s) ==> Tick(s) == s
  {
    var recent := Take(s.logs, 10);
    if Serves(s) {
      BeforeByNumber(recent, s.counter, s.lastId);
      assert Take(recent, s.counter - s.lastId) == s.logs[..Batch(s)];
    }
  }

  lemma SentAppend(broadcasts: seq<seq<Entry>>, batch: seq<Entry>)
    ensures Sent(broadcasts + [batch]) == Sent(broadcasts) + batch
  {
    assert (broadcasts + [batch])[..|broadcasts|] == broadcasts;
  }

  ghost predicate NoneTwice(sent: seq<Entry>) {
    forall i, j :: 0 <= i < j < |sent| ==> sent[i].id != sent[j].id
  }

  /** No entry is ever broadcast twice, whatever is dropped or expires in between. */
  lemma {:induction false} AtMostOnce(events: seq<Event>)
    requires Steady(events)
    ensures var s := Run(events);
      && NoneTwice(Sent(s.broadcasts))
      && (forall e :: e in Sent(s.broadcasts) ==> 1 <= e.id <= s.lastId)
  {
    if events != [] {
      var earlier, last := events[..|events| - 1], events[|events| - 1];
      var s := Run(earlier);
      AtMostOnce(earlier);
      LogHasNoGap(earlier);
      if last.Ticked? {
        TickSendsOnce(s);
      }
    }
  }

  lemma TickSendsOnce(s: State)
    requires NewestWithoutGap(s) && s.lastId <= s.counter
    requires NoneTwice(Sent(s.broadcasts)) && forall e :: e in Sent(s.broadcasts) ==> 1 <= e.id <= s.lastId
    ensures var t := Tick(s);
      NoneTwice(Sent(t.broadcasts)) && forall e :: e in Sent(t.broadcasts) ==> 1 <= e.id <= t.lastId
  {
    TickSendsTheNewest(s);
    if Serves(s) {
      var batch := s.logs[..Batch(s)];
      SentAppend(s.broadcasts, batch);
      Joined(Sent(s.broadcasts), batch, s.lastId, s.counter);
    }
  }

  lemma Joined(sent: seq<Entry>, batch: seq<Entry>, sentSoFar: nat, top: nat)
    requires NoneTwice(sent) && forall e :: e in sent ==> 1 <= e.id <= sentSoFar
    requires forall i :: 0 <= i < |batch| ==> batch[i].id == top - i && sentSoFar < batch[i].id
    requires sentSoFar <= top
    ensures NoneTwice(sent + batch) && forall e :: e in sent + batch ==> 1 <= e.id <= top
  {
    var all := sent + batch;
    forall i, j | 0 <= i < j < |all| ensures all[i].id != all[j].id {
      if i < |sent| <= j {
        assert all[i] in sent && all[j] == batch[j - |sent|];
      }
    }
    forall e | e in all ensures 1 <= e.id <= top {
      var i :| 0 <= i < |all| && all[i] == e;
      if i < |sent| {
        assert e in sent;
      }
    }
  }

  // ---- exactly once ----

  /** The tick finds everything new among the ten newest entries still in the log. */
  predicate KeepsUp(s: State) {
    Serves(s) ==> s.counter - s.lastId <= 10 && s.counter - s.lastId <= |s.logs|
  }

  ghost predicate AlwaysKeepsUp(events: seq<Event>) {
    events == []
    || (AlwaysKeepsUp(events[..|events| - 1])
        && (events[|events| - 1].Ticked? ==> KeepsUp(Run(events[..|events| - 1]))))
  }

  ghost predicate SentNumber(s: State, n: nat) {
    exists e :: e in Sent(s.broadcasts) && e.id == n
  }

  /** Everything up to the newest entry broadcast has been broadcast (and by AtMostOnce only
      once) if and only if every tick kept up. */
  lemma {:induction false} AllSentIffKeptUp(events: seq<Event>)
    requires Steady(events)
    ensures (forall n :: 1 <= n <= Run(events).lastId ==> SentNumber(Run(events), n)) <==> AlwaysKeepsUp(events)
  {
    if events != [] {
      var earlier, last := events[..|events| - 1], events[|events| - 1];
      var s, t := Run(earlier), Run(events);
      AllSentIffKeptUp(earlier);
      AtMostOnce(earlier);
      LogHasNoGap(earlier);
      if last.Ticked? {
        TickSendsTheNewest(s);
        if Serves(s) {
          TickCompletes(s);
        }
      } else {
        assert forall n: nat :: SentNumber(t, n) <==> SentNumber(s, n);
      }
    }
  }

  lemma TickCompletes(s: State)
    requires NewestWithoutGap(s) && s.lastId <= s.counter && Serves(s)
    requires forall e :: e in Sent(s.broadcasts) ==> 1 <= e.id <= s.lastId
    ensures (forall n :: 1 <= n <= Tick(s).lastId ==> SentNumber(Tick(s), n))
      <==> (forall n :: 1 <= n <= s.lastId ==> SentNumber(s, n)) && KeepsUp(s)
  {
    var t, batch := Tick(s), s.logs[..Batch(s)];
    TickSendsTheNewest(s);
    SentAppend(s.broadcasts, batch);
    forall n: nat ensures SentNumber(t, n) <==> SentNumber(s, n) || s.counter - Batch(s) < n <= s.counter {
      if s.counter - Batch(s) < n <= s.counter {
        assert batch[s.counter - n].id == n && batch[s.counter - n] in Sent(t.broadcasts);
      }
      if SentNumber(s, n) {
        var e :| e in Sent(s.broadcasts) && e.id == n;
        assert e in Sent(t.broadcasts);
      }
      if SentNumber(t, n) {
        var e :| e in Sent(t.broadcasts) && e.id == n;
        assert e in Sent(s.broadcasts) || e in batch;
      }
    }
    if !KeepsUp(s) {
      assert Batch(s) < s.counter - s.lastId;
      assert !SentNumber(t, s.lastId + 1);
    }
  }

  // ---- at most once, whatever the clock does ----

  /** The numbers fall along the log. */
  ghost predicate Falling(logs: seq<Entry>) {
    forall i, j :: 0 <= i < j < |logs| ==> logs[i].id > logs[j].id
  }

  /** In every run: numbers fall along the log, nothing has a number still to be given, and
      what is newer than the last entry broadcast has not been sent. */
  ghost predicate InOrder(s: State) {
    && s.lastId <= s.counter
    && Falling(s.logs)
    && (forall e :: e in s.logs ==> 1 <= e.id <= s.counter)
    && (forall e :: e in Sent(s.broadcasts) ==> e.id <= s.counter)
    && (forall e :: e in s.logs && e.id > s.lastId ==> !SentNumber(s, e.id))
  }

  function Recent(s: State): seq<Entry> {
    Take(s.logs, 10)
  }

  predicate InNumbers(logs: seq<Entry>, id: nat) {
    exists e :: e in logs && e.id == id
  }

  /** A tick would send something again: the last entry broadcast is no longer among the ten
      newest, and an older one that was sent still is. */
  ghost predicate WouldRepeat(s: State) {
    s.clients != 0 && !InNumbers(Recent(s), s.lastId) && exists e :: Outlived(s, e)
  }

  ghost predicate Outlived(s: State, e: Entry) {
    e in Recent(s) && e.id < s.lastId && SentNumber(s, e.id)
  }

  ghost predicate NeverRepeats(events: seq<Event>) {
    events == []
    || (NeverRepeats(events[..|events| - 1])
        && (events[|events| - 1].Ticked? ==> !WouldRepeat(Run(events[..|events| - 1]))))
  }

  lemma {:induction false} KeptSinceFalls(logs: seq<Entry>, cutoff: int)
    requires Falling(logs)
    ensures Falling(KeptSince(logs, cutoff))
  {
    if logs != [] {
      var init, last := logs[..|logs| - 1], logs[|logs| - 1];
      var rest := KeptSince(init, cutoff);
      KeptSinceFalls(init, cutoff);
      KeptSinceMembers(init, cutoff);
      forall i | 0 <= i < |rest| ensures rest[i].id > last.id {
        assert rest[i] in init;
      }
      assert Falling(rest + [last]);
    }
  }

  /** What a tick sends from a log in order: everything newer than the last entry broadcast
      if that is still among the newest, else everything. */
  lemma BeforeInOrder(logs: seq<Entry>, id: nat)
    requires Falling(logs)
    ensures Before(logs, id) <= logs
    ensures !InNumbers(logs, id) ==> Before(logs, id) == logs
    ensures InNumbers(logs, id) ==> forall e :: e in Before(logs, id) ==> e.id > id
  {
    BeforeIsTheFront(logs, id);
    if InNumbers(logs, id) {
      var e :| e in logs && e.id == id;
      var i :| 0 <= i < |logs| && logs[i] == e;
      assert |Before(logs, id)| <= i;
      forall d | d in Before(logs, id) ensures d.id > id {
        var j :| 0 <= j < |Before(logs, id)| && Before(logs, id)[j] == d;
        assert logs[j] == d;
      }
    }
  }

  lemma {:induction false} BeforeIsTheFront(logs: seq<Entry>, id: nat)
    ensures Before(logs, id) <= logs
    ensures forall i :: 0 <= i < |Before(logs, id)| ==> Before(logs, id)[i].id != id
    ensures |Before(logs, id)| < |logs| ==> logs[|Before(logs, id)|].id == id
  {
    if logs != [] && logs[0].id != id {
      BeforeIsTheFront(logs[1..], id);
      assert logs == [logs[0]] + logs[1..];
    }
  }

  predicate Ticks(s: State) {
    s.clients != 0 && s.logs != [] && s.logs[0].id != s.lastId
  }

  function ToSend(s: State): seq<Entry> {
    Before(Recent(s), s.lastId)
  }

  lemma TickSends(s: State)
    ensures Tick(s) == if Ticks(s) then s.(lastId := s.logs[0].id, broadcasts := s.broadcasts + [ToSend(s)]) else s
    ensures Ticks(s) ==> Sent(Tick(s).broadcasts) == Sent(s.broadcasts) + ToSend(s)
  {
    SentAppend(s.broadcasts, ToSend(s));
  }

  lemma RecentInOrder(s: State)
    requires InOrder(s)
    ensures Falling(Recent(s))
    ensures forall e :: e in Recent(s) ==> e in s.logs
  {
  }

  lemma FirstIsHighest(logs: seq<Entry>, e: Entry)
    requires Falling(logs) && e in logs
    ensures e.id <= logs[0].id
  {
    var i :| 0 <= i < |logs| && logs[i] == e;
  }

  lemma TickStaysInOrder(s: State)
    requires InOrder(s)
    ensures InOrder(Tick(s))
  {
    TickSends(s);
    if Ticks(s) {
      var t := Tick(s);
      RecentInOrder(s);
      BeforeInOrder(Recent(s), s.lastId);
      assert s.logs[0] in s.logs;
      forall e | e in t.logs ensures e.id <= t.lastId {
        FirstIsHighest(s.logs, e);
      }
      forall e | e in Sent(t.broadcasts) ensures e.id <= t.counter {
        assert e in Sent(s.broadcasts) || e in Recent(s);
      }
    }
  }

  lemma ExpireStaysInOrder(s: State, cutoff: int)
    requires InOrder(s)
    ensures InOrder(Expire(s, cutoff))
  {
    KeptSinceFalls(s.logs, cutoff);
    KeptSinceMembers(s.logs, cutoff);
    var t := Expire(s, cutoff);
    forall e | e in t.logs && e.id > t.lastId ensures !SentNumber(t, e.id) {
      assert !SentNumber(s, e.id);
    }
  }

  lemma AppendStaysInOrder(s: State, message: string, now: int)
    requires InOrder(s)
    ensures InOrder(Append(s, message, now))
  {
    var t, all := Append(s, message, now), [Entry(s.counter + 1, now, message)] + s.logs;
    forall i, j | 0 <= i < j < |all| ensures all[i].id > all[j].id {
      assert s.logs[j - 1] in s.logs;
    }
    assert Falling(all);
    forall e | e in t.logs ensures 1 <= e.id <= t.counter && (e.id > t.lastId ==> !SentNumber(t, e.id)) {
      assert e in all;
    }
  }

  lemma {:induction false} AlwaysInOrder(events: seq<Event>)
    ensures InOrder(Run(events))
  {
    if events != [] {
      var earlier, last := events[..|events| - 1], events[|events| - 1];
      var s := Run(earlier);
      AlwaysInOrder(earlier);
      match last
      case Logged(message, now) => AppendStaysInOrder(s, message, now);
      case Expired(cutoff) => ExpireStaysInOrder(s, cutoff);
      case Ticked => TickStaysInOrder(s);
      case _ =>
    }
  }

  /** What a tick sends was sent before exactly when the guard says so. */
  lemma RepeatsExactly(s: State)
    requires InOrder(s)
    ensures WouldRepeat(s) <==> Ticks(s) && exists e :: e in ToSend(s) && SentNumber(s, e.id)
  {
    RecentInOrder(s);
    BeforeInOrder(Recent(s), s.lastId);
    if WouldRepeat(s) {
      var e :| Outlived(s, e);
      assert s.logs[0] in Recent(s);
      assert e in ToSend(s);
    }
    if Ticks(s) && exists e :: e in ToSend(s) && SentNumber(s, e.id) {
      var e :| e in ToSend(s) && SentNumber(s, e.id);
      assert e in s.logs;
      if !InNumbers(Recent(s), s.lastId) {
        assert Outlived(s, e);
      }
    }
  }

  lemma JoinedExactly(sent: seq<Entry>, batch: seq<Entry>)
    requires Falling(batch)
    ensures NoneTwice(sent + batch) <==> NoneTwice(sent) && forall e, d :: e in batch && d in sent ==> e.id != d.id
  {
    var all := sent + batch;
    forall i | 0 <= i < |sent| ensures all[i] == sent[i] {}
    forall i | 0 <= i < |batch| ensures all[|sent| + i] == batch[i] {}
    if NoneTwice(all) {
      forall e, d | e in batch && d in sent ensures e.id != d.id {
        var i :| 0 <= i < |sent| && sent[i] == d;
        var j :| 0 <= j < |batch| && batch[j] == e;
        assert all[i].id != all[|sent| + j].id;
      }
      forall i, j | 0 <= i < j < |sent| ensures sent[i].id != sent[j].id {
        assert all[i].id != all[j].id;
      }
    }
    if NoneTwice(sent) && forall e, d :: e in batch && d in sent ==> e.id != d.id {
      forall i, j | 0 <= i < j < |all| ensures all[i].id != all[j].id {
        if i < |sent| <= j {
          assert all[i] in sent && all[j] in batch;
        }
      }
    }
  }

  lemma TickRepeatsExactly(s: State)
    requires InOrder(s)
    ensures NoneTwice(Sent(Tick(s).broadcasts)) <==> NoneTwice(Sent(s.broadcasts)) && !WouldRepeat(s)
  {
    TickSends(s);
    RepeatsExactly(s);
    if Ticks(s) {
      RecentInOrder(s);
      BeforeInOrder(Recent(s), s.lastId);
      JoinedExactly(Sent(s.broadcasts), ToSend(s));
      if !WouldRepeat(s) {
        forall e, d | e in ToSend(s) && d in Sent(s.broadcasts) ensures e.id != d.id {
          assert !SentNumber(s, e.id);
        }
      }
    }
  }

  /** With any clock and any expiry, no entry is ever broadcast twice if and only if no tick
      comes while the last entry broadcast has left the ten newest and an older one that was
      sent is still among them. */
  lemma {:induction false} AtMostOnceExactly(events: seq<Event>)
    ensures NoneTwice(Sent(Run(events).broadcasts)) <==> NeverRepeats(events)
  {
    if events != [] {
      var earlier, last := events[..|events| - 1], events[|events| - 1];
      AtMostOnceExactly(earlier);
      AlwaysInOrder(earlier);
      if last.Ticked? {
        TickRepeatsExactly(Run(earlier));
      }
    }
  }

  // ---- nothing missed, whatever the clock does ----

  /** Every number up to that of the last entry broadcast has been broadcast. */
  ghost predicate AllSent(s: State) {
    forall n: nat :: 1 <= n <= s.lastId ==> SentNumber(s, n)
  }

  /** Whatever number lies between the last entry broadcast and the newest one is among the
      ten newest, or was sent before the clock fell back. */
  ghost predicate CatchesUp(s: State) {
    Ticks(s) ==> forall n: nat :: s.lastId < n <= s.logs[0].id ==> SentNumber(s, n) || InNumbers(Recent(s), n)
  }

  lemma NewerIsBefore(logs: seq<Entry>, id: nat, e: Entry)
    requires Falling(logs) && e in logs && e.id > id
    ensures e in Before(logs, id)
  {
    BeforeIsTheFront(logs, id);
    var front := Before(logs, id);
    var i :| 0 <= i < |logs| && logs[i] == e;
    if i < |front| {
      assert front[i] == e;
    }
  }

  lemma SentAfterTick(s: State, n: nat)
    requires InOrder(s) && Ticks(s)
    ensures SentNumber(Tick(s), n) ==> SentNumber(s, n) || InNumbers(Recent(s), n)
    ensures SentNumber(s, n) || (n > s.lastId && InNumbers(Recent(s), n)) ==> SentNumber(Tick(s), n)
  {
    var t := Tick(s);
    TickSends(s);
    RecentInOrder(s);
    BeforeIsTheFront(Recent(s), s.lastId);
    if SentNumber(t, n) {
      var e :| e in Sent(t.broadcasts) && e.id == n;
      assert e in Sent(s.broadcasts) || e in ToSend(s);
    }
    if SentNumber(s, n) {
      var e :| e in Sent(s.broadcasts) && e.id == n;
      assert e in Sent(t.broadcasts);
    } else if n > s.lastId && InNumbers(Recent(s), n) {
      var e :| e in Recent(s) && e.id == n;
      NewerIsBefore(Recent(s), s.lastId, e);
      assert e in Sent(t.broadcasts);
    }
  }

  lemma TickCatchesUpExactly(s: State)
    requires InOrder(s) && AllSent(s)
    ensures AllSent(Tick(s)) <==> CatchesUp(s)
  {
    TickSends(s);
    if Ticks(s) && CatchesUp(s) {
      forall n: nat | 1 <= n <= Tick(s).lastId ensures SentNumber(Tick(s), n) {
        SentAfterTick(s, n);
      }
    }
    if Ticks(s) && AllSent(Tick(s)) {
      forall n: nat | s.lastId < n <= s.logs[0].id ensures SentNumber(s, n) || InNumbers(Recent(s), n) {
        SentAfterTick(s, n);
      }
    }
  }

  ghost predicate AllSentThroughout(events: seq<Event>) {
    AllSent(Run(events)) && (events == [] || AllSentThroughout(events[..|events| - 1]))
  }

  ghost predicate AlwaysCatchesUp(events: seq<Event>) {
    events == []
    || (AlwaysCatchesUp(events[..|events| - 1])
        && (events[|events| - 1].Ticked? ==> CatchesUp(Run(events[..|events| - 1]))))
  }

  lemma OthersSendNothing(s: State, e: Event)
    requires !e.Ticked?
    ensures Step(s, e).broadcasts == s.broadcasts && Step(s, e).lastId == s.lastId
  {
  }

  /** With any clock and any expiry, every number up to that of the last entry broadcast has
      been broadcast throughout, if and only if every tick catches up. */
  lemma {:induction false} AllSentExactly(events: seq<Event>)
    ensures AllSentThroughout(events) <==> AlwaysCatchesUp(events)
  {
    if events != [] {
      var earlier, last := events[..|events| - 1], events[|events| - 1];
      var s := Run(earlier);
      AllSentExactly(earlier);
      AlwaysInOrder(earlier);
      if last.Ticked? {
        if AllSent(s) {
          TickCatchesUpExactly(s);
        }
      } else {
        OthersSendNothing(s, last);
        assert forall n: nat :: SentNumber(Run(events), n) <==> SentNumber(s, n);
      }
    }
  }

  // ---- when the clock falls back ----

  /** The later of two loggings has the earlier time. */
  ghost predicate ClockFellBack(events: seq<Event>, i: nat, j: nat) {
    i < j < |events| && events[i].Logged? && events[j].Logged? && events[j].now < events[i].now
  }

  lemma {:induction false} LaterTime(events: seq<Event>, now: int) returns (i: nat)
    requires !NotBefore(events, now)
    ensures i < |events| && events[i].Logged? && events[i].now > now
  {
    if events[|events| - 1].Logged? && events[|events| - 1].now > now {
      i := |events| - 1;
    } else {
      i := LaterTime(events[..|events| - 1], now);
    }
  }

  lemma {:induction false} UnsteadyFallsBack(events: seq<Event>) returns (i: nat, j: nat)
    requires !Steady(events)
    ensures ClockFellBack(events, i, j)
  {
    var earlier, last := events[..|events| - 1], events[|events| - 1];
    if !Steady(earlier) {
      i, j := UnsteadyFallsBack(earlier);
    } else {
      i := LaterTime(earlier, last.now);
      j := |events| - 1;
    }
  }

  /** That takes an entry logged later than another but with an earlier time. */
  lemma RepeatingNeedsFallBack(events: seq<Event>)
    requires WouldRepeat(Run(events))
    ensures exists i: nat, j: nat :: ClockFellBack(events, i, j)
  {
    if Steady(events) {
      assert Steady(events + [Ticked]) by { assert (events + [Ticked])[..|events|] == events; }
      assert (events + [Ticked])[..|events|] == events;
      AtMostOnce(events + [Ticked]);
      AlwaysInOrder(events);
      TickRepeatsExactly(Run(events));
    }
    var i, j := UnsteadyFallsBack(events);
  }

  // ---- a run that misses an entry ----

  /** A client connects and n entries are logged before the next tick. */
  function Burst(n: nat): seq<Event> {
    [Connected] + seq(n, _ => Logged("", 0))
  }

  lemma {:induction false} AfterBurst(n: nat)
    requires n < 100000
    ensures Steady(Burst(n)) && NotBefore(Burst(n), 0)
    ensures var s := Run(Burst(n));
      s.counter == |s.logs| == n && s.clients == 1 && s.lastId == 0 && s.broadcasts == []
  {
    if n == 0 {
      assert Burst(0) == [Connected] && [Connected][..0] == [];
    } else {
      AfterBurst(n - 1);
      assert Burst(n) == Burst(n - 1) + [Logged("", 0)];
      assert Burst(n)[..|Burst(n)| - 1] == Burst(n - 1);
    }
  }

  /** Eleven entries between two ticks: the first of them is never broadcast. */
  lemma ElevenEntriesLoseOne() returns (events: seq<Event>)
    ensures Steady(events) && Run(events).lastId == 11 && !SentNumber(Run(events), 1)
  {
    AfterBurst(11);
    LogHasNoGap(Burst(11));
    var s := Run(Burst(11));
    events := Burst(11) + [Ticked];
    assert events[..|events| - 1] == Burst(11);
    TickSendsTheNewest(s);
    SentAppend([], s.logs[..10]);
  }

  // ---- with a clock that goes back ----

  /** Two entries, the later one with the earlier time: expiry takes the newer entry out
      from before the older one, and the older one is broadcast a second time. */
  lemma BackwardClockSendsTwice() returns (events: seq<Event>)
    ensures !Steady(events) && !NoneTwice(Sent(Run(events).broadcasts))
  {
    var s;
    events, s := OlderOutlives();
    assert WouldRepeat(s) by {
      var first, second := Entry(1, 100, "a"), Entry(2, 50, "b");
      SentAppend([], [second, first]);
      assert [] + [[second, first]] == [[second, first]];
      assert first in Sent(s.broadcasts);
      assert SentNumber(s, 1) && Outlived(s, first);
    }
    assert (events + [Ticked])[..|events|] == events;
    events := events + [Ticked];
    AtMostOnceExactly(events);
    if Steady(events) {
      AtMostOnce(events);
    }
  }

  lemma OlderOutlives() returns (events: seq<Event>, s: State)
    ensures Run(events) == s
    ensures var first, second := Entry(1, 100, "a"), Entry(2, 50, "b");
      s == State([first], 2, 1, 2, [[second, first]])
  {
    var first, second := Entry(1, 100, "a"), Entry(2, 50, "b");
    BothAreNew(first, second);
    s := INITIAL.(clients := 1);
    events := AndThen([], Connected, s);
    s := s.(logs := [first], counter := 1);
    events := AndThen(events, Logged("a", 100), s);
    s := s.(logs := [second, first], counter := 2);
    events := AndThen(events, Logged("b", 50), s);
    s := s.(lastId := 2, broadcasts := [[second, first]]);
    events := AndThen(events, Ticked, s);
    s := s.(logs := [first]);
    events := AndThen(events, Expired(60), s);
  }

  lemma BothAreNew(first: Entry, second: Entry)
    requires first == Entry(1, 100, "a") && second == Entry(2, 50, "b")
    ensures Before([second, first], 0) == [second, first]
    ensures Before([first], 2) == [first]
    ensures KeptSince([second, first], 60) == [first]
  {
    assert [second, first][1..] == [first] && [first][1..] == [];
    assert Before([first], 0) == [first];
    assert [second, first][..1] == [second] && [second][..0] == [];
    assert KeptSince([second], 60) == [];
  }

  lemma AndThen(events: seq<Event>, e: Event, next: State) returns (more: seq<Event>)
    requires Step(Run(events), e) == next
    ensures more == events + [e] && Run(more) == next
  {
    more := events + [e];
    assert more[..|more| - 1] == events;
  }

  // ---- the runs are those of the two services ----

  /** One event, by the method that handles it. */
  method Perform(gateway: LogsGateway, e: Event)
    modifies gateway, gateway.commLog
    ensures gateway.View() == Step(old(gateway.View()), e)
  {
    match e
    case Logged(message, now) => var entry := gateway.commLog.Log(message, now);
    case Expired(cutoff) => var deleted := gateway.commLog.CleanupExpiredLogs(cutoff);
    case Connected => var recent := gateway.HandleConnection();
    case Disconnected => gateway.HandleDisconnect();
    case Ticked => gateway.BroadcastNewLogs();
  }

  /** A log and a gateway that have handled these events are in the state of their run. */
  method Replay(events: seq<Event>) returns (gateway: LogsGateway)
    ensures fresh(gateway) && fresh(gateway.commLog)
    ensures gateway.View() == Run(events)
  {
    var log := new CommLogService();
    gateway := new LogsGateway(log);
    for i := 0 to |events|
      invariant fresh(gateway) && fresh(gateway.commLog)
      invariant gateway.View() == Run(events[..i])
    {
      assert events[..i + 1][..i] == events[..i];
      Perform(gateway, events[i]);
    }
    assert events[..|events|] == events;
  }
}
