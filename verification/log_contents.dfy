/** What the communication log holds after any history, entry by entry. */
module LogContents {
  import opened Prelude
  import opened CommLog
  import opened LogRuns

  /** The entries not older than the cutoff, in order. */
  function Fresh(logs: seq<Entry>, cutoff: int): seq<Entry> {
    if logs == [] then []
    else (if logs[0].timestamp >= cutoff then [logs[0]] else []) + Fresh(logs[1..], cutoff)
  }

  lemma {:induction false} KeptOfMore(a: seq<Entry>, b: seq<Entry>, cutoff: int)
    ensures KeptSince(a + b, cutoff) == KeptSince(a, cutoff) + KeptSince(b, cutoff)
    decreases |b|
  {
    if b == [] {
      assert a + b == a;
    } else {
      assert (a + b)[..|a + b| - 1] == a + b[..|b| - 1];
      KeptOfMore(a, b[..|b| - 1], cutoff);
    }
  }

  lemma {:induction false} KeptAreFresh(logs: seq<Entry>, cutoff: int)
    ensures KeptSince(logs, cutoff) == Fresh(logs, cutoff)
  {
    if logs != [] {
      KeptAreFresh(logs[1..], cutoff);
      KeptOfOne(logs[0], cutoff);
      KeptOfMore([logs[0]], logs[1..], cutoff);
      assert [logs[0]] + logs[1..] == logs;
    }
  }

  lemma KeptOfOne(e: Entry, cutoff: int)
    ensures KeptSince([e], cutoff) == if e.timestamp >= cutoff then [e] else []
  {
    assert [e][..0] == [];
  }

  /** Logging puts the entry with the next number in front, and a hundred thousand stay; expiry
      keeps the entries from the cutoff on; nothing else touches the log. */
  lemma StepLogs(s: State, e: Event)
    requires |s.logs| <= 100000
    ensures var t := Step(s, e);
      match e
      case Logged(message, now) =>
        && t.counter == s.counter + 1
        && t.logs == [Entry(s.counter + 1, now, message)] + if |s.logs| == 100000 then s.logs[..99999] else s.logs
      case Expired(cutoff) => t.counter == s.counter && t.logs == Fresh(s.logs, cutoff)
      case _ => t.counter == s.counter && t.logs == s.logs
  {
    match e
    case Logged(message, now) =>
      var entry := Entry(s.counter + 1, now, message);
      if |s.logs| == 100000 {
        assert ([entry] + s.logs)[..100000] == [entry] + s.logs[..99999];
      }
    case Expired(cutoff) => KeptAreFresh(s.logs, cutoff);
    case _ =>
  }

  /** Everything ever logged, in order. */
  function Everything(events: seq<Event>): seq<Entry> {
    if events == [] then []
    else
      var earlier, last := Everything(events[..|events| - 1]), events[|events| - 1];
      if last.Logged? then earlier + [Entry(|earlier| + 1, last.now, last.message)] else earlier
  }

  predicate AsLogged(e: Entry, all: seq<Entry>) {
    1 <= e.id <= |all| && e == all[e.id - 1]
  }

  ghost predicate AllAsLogged(logs: seq<Entry>, all: seq<Entry>) {
    forall e :: e in logs ==> AsLogged(e, all)
  }

  lemma {:induction false} FreshMembers(logs: seq<Entry>, cutoff: int)
    ensures |Fresh(logs, cutoff)| <= |logs| && forall e :: e in Fresh(logs, cutoff) ==> e in logs
  {
    if logs != [] {
      FreshMembers(logs[1..], cutoff);
    }
  }

  lemma PutFirst(e: Entry, rest: seq<Entry>)
    requires Falling(rest) && forall other :: other in rest ==> other.id < e.id
    ensures Falling([e] + rest)
  {
    var logs := [e] + rest;
    forall i, j | 0 <= i < j < |logs| ensures logs[i].id > logs[j].id {
      assert logs[j] == rest[j - 1] && rest[j - 1] in rest;
    }
  }

  lemma RestFalls(logs: seq<Entry>)
    requires Falling(logs) && logs != []
    ensures Falling(logs[1..]) && forall other :: other in logs[1..] ==> other.id < logs[0].id
  {
  }

  lemma {:induction false} FreshFalls(logs: seq<Entry>, cutoff: int)
    requires Falling(logs)
    ensures Falling(Fresh(logs, cutoff))
  {
    if logs != [] {
      var rest := Fresh(logs[1..], cutoff);
      RestFalls(logs);
      FreshFalls(logs[1..], cutoff);
      FreshMembers(logs[1..], cutoff);
      PutFirst(logs[0], rest);
      assert [] + rest == rest;
    }
  }

  lemma LoggedOnTop(older: seq<Entry>, all: seq<Entry>, entry: Entry)
    requires AllAsLogged(older, all) && Falling(older) && entry.id == |all| + 1
    ensures AllAsLogged([entry] + older, all + [entry]) && Falling([entry] + older)
  {
    PutFirst(entry, older);
    forall e | e in [entry] + older ensures AsLogged(e, all + [entry]) {
      assert e == entry || AsLogged(e, all);
    }
  }

  lemma OlderStay(logs: seq<Entry>, n: nat, all: seq<Entry>)
    requires n <= |logs| && AllAsLogged(logs, all) && Falling(logs)
    ensures AllAsLogged(logs[..n], all) && Falling(logs[..n])
  {
  }

  /** In every run, with any clock and any expiry, the log holds at most a hundred thousand
      entries, each just as it was logged and under its number, the newest first. */
  lemma {:induction false} LogHoldsWhatWasLogged(events: seq<Event>)
    ensures var s := Run(events);
      && s.counter == |Everything(events)| && |s.logs| <= 100000
      && AllAsLogged(s.logs, Everything(events)) && Falling(s.logs)
    decreases |events|
  {
    if events != [] {
      var earlier, last := events[..|events| - 1], events[|events| - 1];
      LogHoldsWhatWasLogged(earlier);
      var s, all := Run(earlier), Everything(earlier);
      StepLogs(s, last);
      match last
      case Logged(message, now) =>
        var older := if |s.logs| == 100000 then s.logs[..99999] else s.logs;
        OlderStay(s.logs, |older|, all);
        assert s.logs[..|older|] == older;
        LoggedOnTop(older, all, Entry(|all| + 1, now, message));
      case Expired(cutoff) =>
        FreshMembers(s.logs, cutoff);
        FreshFalls(s.logs, cutoff);
      case _ =>
    }
  }

  /** Clients are counted as they come and go. */
  function Present(events: seq<Event>): int {
    if events == [] then 0
    else
      Present(events[..|events| - 1])
      + match events[|events| - 1] case Connected => 1 case Disconnected => -1 case _ => 0
  }

  lemma {:induction false} ClientsAreCounted(events: seq<Event>)
    ensures Run(events).clients == Present(events)
    decreases |events|
  {
    if events != [] {
      ClientsAreCounted(events[..|events| - 1]);
    }
  }
}
