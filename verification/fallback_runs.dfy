/** What the fallback service guarantees over every history of checks, records and exports. */
module FallbackRuns {
  import opened Prelude
  import opened Fallback

  datatype Event =
    | Checked(connected: bool)
    | Settled
    /** `filed` is what the clock says when the record, if it fills a file, has that file named. */
    | Added(kind: Kind, data: string, now: nat, filed: nat, written: bool)
    | Exported(which: Option<Kind>, now: nat, written: bool)

  function Step(s: State, e: Event): State {
    match e
    case Checked(connected) => Check(s, connected)
    case Settled => Settle(s)
    case Added(kind, data, now, filed, written) => Add(s, kind, data, now, filed, written)
    case Exported(which, now, written) => Export(s, which, now, written)
  }

  function Run(events: seq<Event>): State {
    if events == [] then INITIAL else Step(Run(events[..|events| - 1]), events[|events| - 1])
  }

  // ---- what the status means ----

  /** Every recovery is over before the next check. */
  ghost predicate Prompt(events: seq<Event>) {
    events == []
    || (Prompt(events[..|events| - 1])
        && (events[|events| - 1].Checked? ==> Run(events[..|events| - 1]).status != Recovering))
  }

  /** The results of the health checks so far. */
  function History(events: seq<Event>): seq<bool> {
    if events == [] then []
    else
      var earlier := History(events[..|events| - 1]);
      if events[|events| - 1].Checked? then earlier + [events[|events| - 1].connected] else earlier
  }

  /** The checks end, after the first `end` of them, in n equal results. */
  predicate Window(h: seq<bool>, end: int, result: bool, n: nat) {
    n <= end <= |h| && forall i :: end - n <= i < end ==> h[i] == result
  }

  /** The latest threshold window seen is three failures, not five successes. */
  ghost predicate Down(h: seq<bool>) {
    exists end :: Window(h, end, false, 3)
      && forall other :: Window(h, other, true, 5) ==> other < end
  }

  /** How many of the last results are equal to the given one. */
  function Trailing(h: seq<bool>, result: bool): (n: nat)
    ensures n <= |h|
  {
    if h == [] || h[|h| - 1] != result then 0 else 1 + Trailing(h[..|h| - 1], result)
  }

  lemma {:induction false} TrailingIsWindow(h: seq<bool>, result: bool, n: nat)
    ensures Window(h, |h|, result, n) <==> n <= Trailing(h, result)
  {
    if h != [] && n > 0 {
      TrailingIsWindow(h[..|h| - 1], result, n - 1);
      if h[|h| - 1] == result {
        assert Window(h, |h|, result, n) <==> Window(h[..|h| - 1], |h| - 1, result, n - 1) by {
          assert forall i :: 0 <= i < |h| - 1 ==> h[i] == h[..|h| - 1][i];
        }
      }
    }
  }

  lemma OlderWindows(h: seq<bool>, x: bool, end: int, result: bool, n: nat)
    requires end <= |h|
    ensures Window(h + [x], end, result, n) <==> Window(h, end, result, n)
  {
    assert forall i :: 0 <= i < |h| ==> (h + [x])[i] == h[i];
  }

  /** How one more result changes the verdict. */
  lemma DownAfter(h: seq<bool>, x: bool)
    ensures var g := h + [x];
      Down(g) <==>
        if Window(g, |g|, false, 3) then true
        else if Window(g, |g|, true, 5) then false
        else Down(h)
  {
    var g := h + [x];
    forall end: int, result: bool, n: nat | end <= |h|
      ensures Window(g, end, result, n) <==> Window(h, end, result, n)
    {
      OlderWindows(h, x, end, result, n);
    }
    if Window(g, |g|, false, 3) {
      assert g[|g| - 1] == false;
      forall other | Window(g, other, true, 5) ensures other < |g| {
        assert g[other - 1] == true;
      }
    } else if Window(g, |g|, true, 5) {
    } else {
      forall end, result, n
        | Window(g, end, result, n) && n == (if result then 5 else 3)
        ensures end <= |h|
      {
      }
      if Down(h) {
        var end :| Window(h, end, false, 3)
          && forall other :: Window(h, other, true, 5) ==> other < end;
        assert Window(g, end, false, 3);
      }
      if Down(g) {
        var end :| Window(g, end, false, 3)
          && forall other :: Window(g, other, true, 5) ==> other < end;
        assert Window(h, end, false, 3);
      }
    }
  }

  /** What status and counters ought to say after these results. */
  ghost predicate Means(s: State, h: seq<bool>) {
    && (s.status == Activated <==> Down(h))
    && s.failures == Trailing(h, false)
    && s.successes == Trailing(h, true)
  }

  /** The service is fallen back exactly while the latest threshold window says down, and
      its counters are the lengths of the trailing runs. */
  lemma {:induction false} StatusMeansLatestWindow(events: seq<Event>)
    requires Prompt(events)
    ensures Means(Run(events), History(events))
    ensures Run(events).status == Recovering ==> Run(events).failures == 0
  {
    if events == [] {
      assert History(events) == [];
    } else {
      var earlier, last := events[..|events| - 1], events[|events| - 1];
      StatusMeansLatestWindow(earlier);
      if last.Checked? {
        CheckedStatus(Run(earlier), History(earlier), last.connected);
      }
    }
  }

  /** What a slow recovery must not see: a third failure in a row, which would not be
      noticed, or its own end after a failure, which would be forgotten. */
  predicate KeepsMeaning(s: State, e: Event) {
    s.status == Recovering ==>
      match e
      case Checked(connected) => connected || s.failures + 1 < 3
      case Settled => s.failures == 0
      case _ => true
  }

  lemma CheckedWhileRecovering(s: State, h: seq<bool>, connected: bool)
    requires Means(s, h) && s.status == Recovering
    ensures Means(Check(s, connected), h + [connected]) <==> KeepsMeaning(s, Checked(connected))
  {
    var g := h + [connected];
    assert g[..|g| - 1] == h;
    DownAfter(h, connected);
    TrailingIsWindow(g, false, 3);
    TrailingIsWindow(g, true, 5);
  }

  lemma RecordsDoNotCount(s: State, e: Event)
    requires e.Added? || e.Exported?
    ensures var t := Step(s, e); t.status == s.status && t.failures == s.failures && t.successes == s.successes
  {
  }

  lemma StepMeansExactly(s: State, h: seq<bool>, e: Event)
    requires Means(s, h)
    ensures Means(Step(s, e), if e.Checked? then h + [e.connected] else h) <==> KeepsMeaning(s, e)
  {
    if e.Checked? {
      if s.status == Recovering {
        CheckedWhileRecovering(s, h, e.connected);
      } else {
        CheckedStatus(s, h, e.connected);
      }
    } else if !e.Settled? {
      RecordsDoNotCount(s, e);
    }
  }

  ghost predicate MeansThroughout(events: seq<Event>) {
    Means(Run(events), History(events)) && (events == [] || MeansThroughout(events[..|events| - 1]))
  }

  ghost predicate AllKeepMeaning(events: seq<Event>) {
    events == []
    || (AllKeepMeaning(events[..|events| - 1])
        && KeepsMeaning(Run(events[..|events| - 1]), events[|events| - 1]))
  }

  /** However slow the recoveries and whatever happens meanwhile: status and counters say
      what they ought to throughout, if and only if no recovery sees a third failure in a
      row or ends after a failure. */
  lemma {:induction false} MeaningExactly(events: seq<Event>)
    ensures MeansThroughout(events) <==> AllKeepMeaning(events)
  {
    if events == [] {
      assert History(events) == [];
    } else {
      var earlier, last := events[..|events| - 1], events[|events| - 1];
      MeaningExactly(earlier);
      if MeansThroughout(earlier) {
        StepMeansExactly(Run(earlier), History(earlier), last);
      }
    }
  }

  lemma CheckedStatus(s: State, h: seq<bool>, connected: bool)
    requires Means(s, h) && s.status != Recovering
    ensures Means(Check(s, connected), h + [connected])
    ensures Check(s, connected).status == Recovering ==> Check(s, connected).failures == 0
  {
    var g := h + [connected];
    assert g[..|g| - 1] == h;
    DownAfter(h, connected);
    TrailingIsWindow(g, false, 3);
    TrailingIsWindow(g, true, 5);
  }

  lemma FailureSeen(events: seq<Event>)
    ensures Trailing(History(events + [Checked(false)] + [Settled]), false) > 0
  {
    var more := events + [Checked(false)];
    assert more[..|more| - 1] == events && (more + [Settled])[..|more|] == more;
  }

  /** A check fails while a recovery lasts, and the end of the recovery forgets it. */
  lemma SlowRecoveryForgets() returns (events: seq<Event>)
    ensures Run(events) == INITIAL && Trailing(History(events), false) > 0
    ensures !Means(Run(events), History(events))
  {
    var s := INITIAL.(status := Activated);
    events := FallenBack();
    events := AndThen(events, Checked(true), s.(successes := 1));
    events := AndThen(events, Checked(true), s.(successes := 2));
    events := AndThen(events, Checked(true), s.(successes := 3));
    events := AndThen(events, Checked(true), s.(successes := 4));
    s := INITIAL.(status := Recovering);
    events := AndThen(events, Checked(true), s.(successes := 5));
    FailureSeen(events);
    events := AndThen(events, Checked(false), s.(failures := 1));
    events := AndThen(events, Settled, INITIAL);
  }

  // ---- pending records only exist while fallen back ----

  lemma {:induction false} PendingOnlyWhenActivated(events: seq<Event>)
    ensures Run(events).status != Activated ==> Run(events).pending == []
  {
    if events != [] {
      PendingOnlyWhenActivated(events[..|events| - 1]);
    }
  }

  // ---- recovery ----

  /** A recovery takes off every pending record, in order, in as few batches as the size allows. */
  lemma {:induction false} RecoveryDrainsInOrder(records: seq<Record>)
    ensures Flat(Batches(records)) == records
    ensures |Batches(records)| == (|records| + 100 - 1) / 100
    ensures forall b :: b in Batches(records) ==> 0 < |b| <= 100
    decreases |records|
  {
    if records != [] {
      var n := Min(100, |records|);
      RecoveryDrainsInOrder(records[n..]);
      assert records == records[..n] + records[n..];
      assert Batches(records)[1..] == Batches(records[n..]);
    }
  }

  lemma {:induction false} FlatConcat(a: seq<seq<Record>>, b: seq<seq<Record>>)
    ensures Flat(a + b) == Flat(a) + Flat(b)
  {
    if a == [] {
      assert a + b == b;
    } else {
      assert (a + b)[1..] == a[1..] + b;
      FlatConcat(a[1..], b);
    }
  }

  // ---- what an export takes off the pending records ----

  /** No record that stays shares its id with one that is exported. */
  ghost predicate NoCollision(records: seq<Record>, kind: Option<Kind>) {
    forall i, j :: 0 <= i < |records| && 0 <= j < |records| && Matches(records[j], kind) && !Matches(records[i], kind)
      ==> IdOf(records[i]) != IdOf(records[j])
  }

  ghost predicate DistinctIds(records: seq<Record>) {
    forall i, j :: 0 <= i < j < |records| ==> IdOf(records[i]) != IdOf(records[j])
  }

  lemma {:induction false} SelectedMembers(records: seq<Record>, kind: Option<Kind>)
    ensures forall r :: r in Selected(records, kind) <==> r in records && Matches(r, kind)
  {
    if records != [] {
      var init, last := records[..|records| - 1], records[|records| - 1];
      assert records == init + [last];
      SelectedMembers(init, kind);
    }
  }

  /** Removing by id removes exactly the chosen records if ids tell them apart... */
  lemma {:induction false} WithoutKeepsTheOthers(records: seq<Record>, kind: Option<Kind>, ids: set<Id>)
    requires forall r :: r in records ==> (Matches(r, kind) <==> IdOf(r) in ids)
    ensures multiset(Without(records, ids)) + multiset(Selected(records, kind)) == multiset(records)
  {
    if records != [] {
      var init, last := records[..|records| - 1], records[|records| - 1];
      assert records == init + [last] && last in records;
      WithoutKeepsTheOthers(init, kind, ids);
    }
  }

  /** ...and otherwise removes more. */
  lemma {:induction false} WithoutLoses(records: seq<Record>, kind: Option<Kind>, ids: set<Id>)
    requires forall r :: r in records && Matches(r, kind) ==> IdOf(r) in ids
    ensures |Without(records, ids)| + |Selected(records, kind)| <= |records|
    ensures (exists r :: r in records && !Matches(r, kind) && IdOf(r) in ids)
      ==> |Without(records, ids)| + |Selected(records, kind)| < |records|
  {
    if records != [] {
      var init, last := records[..|records| - 1], records[|records| - 1];
      assert records == init + [last] && last in records;
      WithoutLoses(init, kind, ids);
    }
  }

  /** A successful export moves exactly the chosen records from pending to the file if and
      only if no record that stays shares an id with a chosen one; otherwise the one that
      should stay is dropped from both. */
  lemma ExportConserves(records: seq<Record>, kind: Option<Kind>)
    ensures var chosen := Selected(records, kind);
      multiset(Without(records, Ids(chosen))) + multiset(chosen) == multiset(records) <==> NoCollision(records, kind)
  {
    var chosen := Selected(records, kind);
    SelectedMembers(records, kind);
    if NoCollision(records, kind) {
      forall r, q | r in records && !Matches(r, kind) && q in chosen ensures IdOf(r) != IdOf(q) {
        var i :| 0 <= i < |records| && records[i] == r;
        var j :| 0 <= j < |records| && records[j] == q;
        assert Matches(records[j], kind);
      }
      WithoutKeepsTheOthers(records, kind, Ids(chosen));
    } else {
      var i, j :| 0 <= i < |records| && 0 <= j < |records| && Matches(records[j], kind) && !Matches(records[i], kind)
        && IdOf(records[i]) == IdOf(records[j]);
      assert records[j] in chosen && records[i] in records;
      WithoutLoses(records, kind, Ids(chosen));
      assert |multiset(Without(records, Ids(chosen))) + multiset(chosen)| < |multiset(records)|;
    }
  }

  lemma DistinctIdsDoNotCollide(records: seq<Record>, kind: Option<Kind>)
    requires DistinctIds(records)
    ensures NoCollision(records, kind)
  {
    forall i, j | 0 <= i < |records| && 0 <= j < |records| && Matches(records[j], kind) && !Matches(records[i], kind)
      ensures IdOf(records[i]) != IdOf(records[j])
    {
      assert i != j;
      assert i < j || j < i;
    }
  }

  // ---- what a file holds ----

  /** The records in the files that exist. */
  function Rows(files: seq<File>): multiset<Record> {
    if files == [] then multiset{} else Rows(files[..|files| - 1]) + multiset(files[|files| - 1].rows)
  }

  function RowsNamed(files: seq<File>, name: FileName): multiset<Record> {
    if files == [] then multiset{}
    else
      var rest, last := RowsNamed(files[..|files| - 1], name), files[|files| - 1];
      if last.name == name then rest + multiset(last.rows) else rest
  }

  ghost predicate Exists(files: seq<File>, name: FileName) {
    exists i :: 0 <= i < |files| && files[i].name == name
  }

  ghost predicate AllHaveRows(files: seq<File>) {
    forall i :: 0 <= i < |files| ==> files[i].rows != []
  }

  lemma {:induction false} OthersAndNamed(files: seq<File>, name: FileName)
    ensures Rows(OtherFiles(files, name)) + RowsNamed(files, name) == Rows(files)
    decreases |files|
  {
    if files != [] {
      var init, last := files[..|files| - 1], files[|files| - 1];
      OthersAndNamed(init, name);
      if last.name != name {
        assert (OtherFiles(init, name) + [last])[..|OtherFiles(init, name)|] == OtherFiles(init, name);
      }
    }
  }

  lemma {:induction false} NamedExactly(files: seq<File>, name: FileName)
    requires AllHaveRows(files)
    ensures RowsNamed(files, name) == multiset{} <==> !Exists(files, name)
    decreases |files|
  {
    if files != [] {
      var init, last := files[..|files| - 1], files[|files| - 1];
      NamedExactly(init, name);
      if last.name == name {
        assert last.rows[0] in RowsNamed(files, name);
      } else if Exists(files, name) {
        var i :| 0 <= i < |files| && files[i].name == name;
        assert init[i].name == name;
      }
    }
  }

  /** Writing a file loses what a file of the same name held, and nothing else. */
  lemma SavedRows(files: seq<File>, file: File)
    ensures Rows(Saved(files, file)) + RowsNamed(files, file.name) == Rows(files) + multiset(file.rows)
  {
    var others := OtherFiles(files, file.name);
    OthersAndNamed(files, file.name);
    assert (others + [file])[..|others|] == others;
  }

  lemma {:induction false} OthersExist(files: seq<File>, name: FileName)
    ensures forall n :: Exists(OtherFiles(files, name), n) <==> Exists(files, n) && n != name
    ensures AllHaveRows(files) ==> AllHaveRows(OtherFiles(files, name))
    decreases |files|
  {
    if files != [] {
      var init, last := files[..|files| - 1], files[|files| - 1];
      OthersExist(init, name);
      forall n ensures Exists(OtherFiles(files, name), n) <==> Exists(files, n) && n != name {
        OneMoreExists(init, last, n);
        OneMoreExists(OtherFiles(init, name), last, n);
        assert init + [last] == files;
      }
    }
  }

  lemma OneMoreExists(files: seq<File>, file: File, name: FileName)
    ensures Exists(files + [file], name) <==> Exists(files, name) || file.name == name
  {
    assert (files + [file])[|files|] == file;
    if Exists(files, name) {
      var i :| 0 <= i < |files| && files[i].name == name;
      assert (files + [file])[i].name == name;
    }
  }

  // ---- the files are those generated ----

  /** Every name generated is that of a file with rows, and there are no other files. */
  ghost predicate FilesAreGenerated(s: State) {
    AllHaveRows(s.files) && forall name :: name in s.generated <==> Exists(s.files, name)
  }

  lemma ExportGenerates(s: State, kind: Option<Kind>, now: nat, written: bool)
    requires FilesAreGenerated(s)
    ensures FilesAreGenerated(Export(s, kind, now, written))
  {
    var chosen, name := Selected(s.pending, kind), NameAt(kind, now);
    if chosen != [] && written {
      OthersExist(s.files, name);
      forall n ensures n in s.generated + [name] <==> Exists(Saved(s.files, File(name, chosen)), n) {
        OneMoreExists(OtherFiles(s.files, name), File(name, chosen), n);
      }
    }
  }

  lemma {:induction false} AlwaysGenerated(events: seq<Event>)
    ensures FilesAreGenerated(Run(events))
  {
    if events != [] {
      var earlier, last := events[..|events| - 1], events[|events| - 1];
      var s := Run(earlier);
      AlwaysGenerated(earlier);
      match last
      case Checked(_) =>
      case Settled =>
      case Added(kind, data, now, filed, written) =>
        ExportGenerates(Push(s, kind, data, now), Some(kind), filed, written);
      case Exported(which, now, written) => ExportGenerates(s, which, now, written);
    }
  }

  /** A file that a step writes: what is pending then, what is asked for, and when. */
  datatype Writing = Writing(pending: seq<Record>, kind: Option<Kind>, now: nat)

  function WritingOf(s: State, e: Event): Option<Writing> {
    match e
    case Exported(which, now, written) =>
      if written && Selected(s.pending, which) != [] then Some(Writing(s.pending, which, now)) else None
    case Added(kind, data, now, filed, written) =>
      var t := Push(s, kind, data, now);
      if s.status == Activated && written && |Selected(t.pending, Some(kind))| >= 10000
      then Some(Writing(t.pending, Some(kind), filed)) else None
    case _ => None
  }

  function NameOf(w: Writing): FileName {
    NameAt(w.kind, w.now)
  }

  lemma StepGenerates(s: State, e: Event)
    ensures var w := WritingOf(s, e);
      Step(s, e).generated == if w == None then s.generated else s.generated + [NameOf(w.value)]
  {
  }

  ghost predicate DistinctNames(names: seq<FileName>) {
    forall i, j :: 0 <= i < j < |names| ==> names[i] != names[j]
  }

  lemma OneMoreName(names: seq<FileName>, name: FileName)
    ensures DistinctNames(names + [name]) <==> DistinctNames(names) && name !in names
  {
    var more := names + [name];
    assert forall i :: 0 <= i < |names| ==> more[i] == names[i];
    assert more[|names|] == name;
  }

  // ---- every record is somewhere, exactly once ----

  /** Everything that is still known: pending, in a file that exists, or taken off by a recovery. */
  function Known(s: State): multiset<Record> {
    multiset(s.pending) + Rows(s.files) + multiset(Flat(s.batches))
  }

  /** The step writes no file, or ids tell its records from those that stay. */
  ghost predicate TellsApart(s: State, e: Event) {
    WritingOf(s, e).Some? ==> NoCollision(WritingOf(s, e).value.pending, WritingOf(s, e).value.kind)
  }

  /** The step writes no file, or one of a new name. */
  ghost predicate NamesAfresh(s: State, e: Event) {
    WritingOf(s, e).Some? ==> NameOf(WritingOf(s, e).value) !in s.generated
  }

  ghost predicate AlwaysApart(events: seq<Event>) {
    events == []
    || (AlwaysApart(events[..|events| - 1]) && TellsApart(Run(events[..|events| - 1]), events[|events| - 1]))
  }

  /** What an export takes off the pending records is at least what it writes. */
  lemma ChosenAndLeft(records: seq<Record>, kind: Option<Kind>)
    ensures var chosen := Selected(records, kind);
      && |Without(records, Ids(chosen))| + |chosen| <= |records|
      && (!NoCollision(records, kind) ==> |Without(records, Ids(chosen))| + |chosen| < |records|)
  {
    SelectedMembers(records, kind);
    WithoutLoses(records, kind, Ids(Selected(records, kind)));
    if |Without(records, Ids(Selected(records, kind)))| + |Selected(records, kind)| == |records| {
      NothingLostMeansClean(records, kind);
    }
  }

  lemma NothingLostMeansClean(records: seq<Record>, kind: Option<Kind>)
    requires |Without(records, Ids(Selected(records, kind)))| + |Selected(records, kind)| == |records|
    ensures NoCollision(records, kind)
  {
    SelectedMembers(records, kind);
    var ids := Ids(Selected(records, kind));
    WithoutLoses(records, kind, ids);
    forall i, j | 0 <= i < |records| && 0 <= j < |records| && Matches(records[j], kind) && !Matches(records[i], kind)
      ensures IdOf(records[i]) != IdOf(records[j])
    {
      assert records[j] in Selected(records, kind) && IdOf(records[j]) in ids;
      assert records[i] in records;
    }
  }

  /** An export that writes a file keeps every record known exactly when ids tell the chosen
      ones from the others and there is no file of its name; else it loses some. */
  lemma ExportStep(s: State, kind: Option<Kind>, now: nat)
    requires FilesAreGenerated(s) && Selected(s.pending, kind) != []
    ensures var t := Export(s, kind, now, true);
      var clean := NoCollision(s.pending, kind) && NameAt(kind, now) !in s.generated;
      && (clean ==> Known(t) == Known(s))
      && (!clean ==> |Known(t)| < |Known(s)|)
  {
    var chosen, name := Selected(s.pending, kind), NameAt(kind, now);
    var left, over := Without(s.pending, Ids(chosen)), RowsNamed(s.files, name);
    SavedRows(s.files, File(name, chosen));
    NamedExactly(s.files, name);
    ChosenAndLeft(s.pending, kind);
    ExportConserves(s.pending, kind);
    Sums(multiset(left), multiset(chosen), multiset(s.pending), Rows(Saved(s.files, File(name, chosen))),
         Rows(s.files), over, multiset(Flat(s.batches)));
  }

  lemma Sums(left: multiset<Record>, chosen: multiset<Record>, pending: multiset<Record>, after: multiset<Record>,
             before: multiset<Record>, over: multiset<Record>, others: multiset<Record>)
    requires after + over == before + chosen
    ensures left + chosen == pending && over == multiset{} ==> left + after + others == pending + before + others
    ensures |left| + |chosen| - |over| < |pending| ==> |left + after + others| < |pending + before + others|
  {
    assert |after + over| == |before + chosen|;
    if left + chosen == pending && over == multiset{} {
      assert after == after + over;
    }
  }

  lemma PushStep(s: State, kind: Kind, data: string, now: nat)
    ensures var t := Push(s, kind, data, now);
      && Known(t) + multiset(s.accepted) == Known(s) + multiset(t.accepted)
      && |Known(t)| == |Known(s)| + 1
  {
    var r := Record(now, |s.pending|, kind, |s.accepted|, data);
    var t := Push(s, kind, data, now);
    assert Known(t) == Known(s) + multiset{r};
    assert multiset(t.accepted) == multiset(s.accepted) + multiset{r};
  }

  lemma RecoveryStep(s: State, connected: bool)
    ensures Known(Check(s, connected)) == Known(s)
  {
    TakenOff(s.batches, s.pending);
    var t := Check(s, connected);
    assert multiset(t.pending) + multiset(Flat(t.batches)) == multiset(s.pending) + multiset(Flat(s.batches));
    assert t.files == s.files;
  }

  lemma TakenOff(batches: seq<seq<Record>>, records: seq<Record>)
    ensures multiset(Flat(batches + Batches(records))) == multiset(Flat(batches)) + multiset(records)
  {
    RecoveryDrainsInOrder(records);
    FlatConcat(batches, Batches(records));
  }

  lemma AddKnown(s: State, e: Event)
    requires FilesAreGenerated(s) && e.Added?
    ensures var t := Step(s, e);
      var clean := TellsApart(s, e) && NamesAfresh(s, e);
      && (clean ==> Known(t) + multiset(s.accepted) == Known(s) + multiset(t.accepted))
      && (!clean ==> |Known(t)| + |s.accepted| < |Known(s)| + |t.accepted|)
  {
    if s.status == Activated {
      var t := Push(s, e.kind, e.data, e.now);
      PushStep(s, e.kind, e.data, e.now);
      if WritingOf(s, e).Some? {
        ExportStep(t, Some(e.kind), e.filed);
      }
    }
  }

  /** A clean step keeps every record and adds the new one; any other loses some. */
  lemma StepKnown(s: State, e: Event)
    requires FilesAreGenerated(s)
    ensures var t := Step(s, e);
      var clean := TellsApart(s, e) && NamesAfresh(s, e);
      && (clean ==> Known(t) + multiset(s.accepted) == Known(s) + multiset(t.accepted))
      && (!clean ==> |Known(t)| + |s.accepted| < |Known(s)| + |t.accepted|)
  {
    match e
    case Checked(connected) => RecoveryStep(s, connected);
    case Settled =>
    case Added(_, _, _, _, _) => AddKnown(s, e);
    case Exported(which, now, written) =>
      if WritingOf(s, e).Some? {
        ExportStep(s, which, now);
      }
  }

  /** Every accepted record is in exactly one of pending, a file that exists, and the batches
      of recoveries, if and only if no export ever met colliding ids and no two files ever
      written had the same name. */
  lemma {:induction false} EveryRecordIsSomewhere(events: seq<Event>)
    ensures var s := Run(events);
      var clean := AlwaysApart(events) && DistinctNames(s.generated);
      && (Known(s) == multiset(s.accepted) <==> clean)
      && |Known(s)| <= |s.accepted|
      && (!clean ==> |Known(s)| < |s.accepted|)
  {
    if events != [] {
      var earlier, last := events[..|events| - 1], events[|events| - 1];
      EveryRecordIsSomewhere(earlier);
      AlwaysGenerated(earlier);
      StepKnown(Run(earlier), last);
      StepNames(Run(earlier), last);
      Balance(Known(Run(earlier)), multiset(Run(earlier).accepted), Known(Run(events)), multiset(Run(events).accepted));
    }
  }

  lemma StepNames(s: State, e: Event)
    ensures DistinctNames(Step(s, e).generated) <==> DistinctNames(s.generated) && NamesAfresh(s, e)
  {
    StepGenerates(s, e);
    if WritingOf(s, e).Some? {
      OneMoreName(s.generated, NameOf(WritingOf(s, e).value));
    }
  }

  lemma Balance(known: multiset<Record>, accepted: multiset<Record>, known': multiset<Record>,
                accepted': multiset<Record>)
    ensures known' + accepted == known + accepted' ==>
      && (known == accepted ==> known' == accepted')
      && |known'| + |accepted| == |known| + |accepted'|
  {
    if known' + accepted == known + accepted' {
      assert |known' + accepted| == |known + accepted'|;
      if known == accepted {
        assert known' == (known' + accepted) - accepted;
        assert accepted' == (known + accepted') - known;
      }
    }
  }

  /** No two accepted records are the same. */
  lemma {:induction false} AcceptedAreNumbered(events: seq<Event>)
    ensures forall i :: 0 <= i < |Run(events).accepted| ==> Run(events).accepted[i].serial == i
  {
    if events != [] {
      var earlier, last := events[..|events| - 1], events[|events| - 1];
      AcceptedAreNumbered(earlier);
      StepAccepts(Run(earlier), last);
    }
  }

  lemma StepAccepts(s: State, e: Event)
    ensures Step(s, e).accepted
         == if e.Added? && s.status == Activated then Push(s, e.kind, e.data, e.now).accepted else s.accepted
  {
  }

  // ---- a clock that moves on keeps ids and names apart ----

  function TimeOf(e: Event, clock: nat): nat {
    match e
    case Added(_, _, _, filed, _) => filed
    case Exported(_, now, _) => now
    case _ => clock
  }

  /** The clock reading of the last timed event. */
  function Clock(events: seq<Event>): nat {
    if events == [] then 0 else TimeOf(events[|events| - 1], Clock(events[..|events| - 1]))
  }

  /** The clock reading of the last event that wrote a file, if any. */
  ghost function LastRemoval(events: seq<Event>): int {
    if events == [] then -1
    else
      var earlier, last := events[..|events| - 1], events[|events| - 1];
      var w := WritingOf(Run(earlier), last);
      if w.Some? then w.value.now else LastRemoval(earlier)
  }

  /** The second in which the last file of this kind was written, if any. */
  ghost function LastSecond(events: seq<Event>, kind: Option<Kind>): int {
    if events == [] then -1
    else
      var earlier, last := events[..|events| - 1], events[|events| - 1];
      var w := WritingOf(Run(earlier), last);
      if w.Some? && w.value.kind == kind then w.value.now / 1000 else LastSecond(earlier, kind)
  }

  /** The clock never goes back, has moved on since the last file when a record is added, and
      by a full second when a file of the same kind is written. */
  ghost predicate Timely(events: seq<Event>) {
    events == []
    || (var earlier, last := events[..|events| - 1], events[|events| - 1];
        && Timely(earlier)
        && Clock(earlier) <= TimeOf(last, Clock(earlier))
        && (last.Added? ==> Clock(earlier) <= last.now <= last.filed && LastRemoval(earlier) < last.now)
        && LaterSecond(earlier, last))
  }

  ghost predicate LaterSecond(earlier: seq<Event>, last: Event) {
    var w := WritingOf(Run(earlier), last);
    w.Some? ==> LastSecond(earlier, w.value.kind) < w.value.now / 1000
  }

  /** The names generated so far, seen from their seconds. */
  ghost predicate NamedBy(names: seq<FileName>, events: seq<Event>) {
    forall n :: n in names ==> n.second <= LastSecond(events, n.kind)
  }

  lemma {:induction false} TimelyNamesAreDistinct(events: seq<Event>)
    requires Timely(events)
    ensures NamedBy(Run(events).generated, events) && DistinctNames(Run(events).generated)
  {
    if events != [] {
      var earlier, last := events[..|events| - 1], events[|events| - 1];
      TimelyNamesAreDistinct(earlier);
      StepGenerates(Run(earlier), last);
      StepNames(Run(earlier), last);
    }
  }

  lemma {:induction false} WithoutIsThinner(records: seq<Record>, ids: set<Id>)
    ensures forall r :: r in Without(records, ids) ==> r in records
    ensures DistinctIds(records) ==> DistinctIds(Without(records, ids))
  {
    if records != [] {
      var init, last := records[..|records| - 1], records[|records| - 1];
      WithoutIsThinner(init, ids);
      if DistinctIds(records) {
        var kept := Without(init, ids);
        forall i | 0 <= i < |kept| ensures IdOf(kept[i]) != IdOf(last) {
          assert kept[i] in init;
        }
      }
    }
  }

  /** Records pending, seen from their ids. */
  ghost predicate IdsTellApart(pending: seq<Record>, clock: nat, removal: int) {
    && DistinctIds(pending)
    && (forall i :: 0 <= i < |pending| ==> pending[i].time <= clock)
    && (forall i :: 0 <= i < |pending| && pending[i].time > removal ==> pending[i].length == i)
  }

  lemma PushKeepsApart(s: State, kind: Kind, data: string, now: nat, clock: nat, removal: int)
    requires IdsTellApart(s.pending, clock, removal) && clock <= now && removal < now
    ensures IdsTellApart(Push(s, kind, data, now).pending, now, removal)
  {
  }

  lemma ExportKeepsApart(pending: seq<Record>, kind: Option<Kind>, clock: nat, removal: int, now: nat)
    requires IdsTellApart(pending, clock, removal) && clock <= now
    ensures IdsTellApart(Without(pending, Ids(Selected(pending, kind))), now, now)
  {
    var left := Without(pending, Ids(Selected(pending, kind)));
    WithoutIsThinner(pending, Ids(Selected(pending, kind)));
    forall i | 0 <= i < |left| ensures left[i].time <= now {
      assert left[i] in pending;
    }
  }

  /** What a step leaves pending is told apart by ids, and so is what it writes. */
  ghost predicate LeavesApart(s: State, e: Event, clock: nat, removal: int) {
    var w := WritingOf(s, e);
    IdsTellApart(Step(s, e).pending, clock, if w.Some? then w.value.now else removal) && TellsApart(s, e)
  }

  lemma AddingKeepsApart(s: State, e: Event, clock: nat, removal: int)
    requires e.Added? && IdsTellApart(s.pending, clock, removal) && clock <= e.now <= e.filed && removal < e.now
    ensures LeavesApart(s, e, e.filed, removal)
  {
    var t := Push(s, e.kind, e.data, e.now);
    PushKeepsApart(s, e.kind, e.data, e.now, clock, removal);
    DistinctIdsDoNotCollide(t.pending, Some(e.kind));
    ExportKeepsApart(t.pending, Some(e.kind), e.now, removal, e.filed);
    LaterIsApart(t.pending, e.now, e.filed, removal);
    LaterIsApart(s.pending, clock, e.filed, removal);
  }

  lemma LaterIsApart(pending: seq<Record>, clock: nat, later: nat, removal: int)
    requires IdsTellApart(pending, clock, removal) && clock <= later
    ensures IdsTellApart(pending, later, removal)
  {
  }

  lemma ExportingKeepsApart(s: State, e: Event, clock: nat, removal: int)
    requires e.Exported? && IdsTellApart(s.pending, clock, removal) && clock <= e.now
    ensures LeavesApart(s, e, e.now, removal)
  {
    DistinctIdsDoNotCollide(s.pending, e.which);
    ExportKeepsApart(s.pending, e.which, clock, removal, e.now);
    LaterIsApart(s.pending, clock, e.now, removal);
  }

  lemma StepKeepsApart(s: State, e: Event, clock: nat, removal: int)
    requires IdsTellApart(s.pending, clock, removal) && clock <= TimeOf(e, clock)
    requires e.Added? ==> clock <= e.now <= e.filed && removal < e.now
    ensures LeavesApart(s, e, TimeOf(e, clock), removal)
  {
    match e
    case Checked(_) =>
    case Settled =>
    case Added(_, _, _, _, _) => AddingKeepsApart(s, e, clock, removal);
    case Exported(_, _, _) => ExportingKeepsApart(s, e, clock, removal);
  }

  lemma {:induction false} TimelyIdsTellApart(events: seq<Event>)
    requires Timely(events)
    ensures IdsTellApart(Run(events).pending, Clock(events), LastRemoval(events))
    ensures AlwaysApart(events)
  {
    if events != [] {
      var earlier, last := events[..|events| - 1], events[|events| - 1];
      TimelyIdsTellApart(earlier);
      StepKeepsApart(Run(earlier), last, Clock(earlier), LastRemoval(earlier));
    }
  }

  lemma {:induction false} NumberedOccurOnce(records: seq<Record>)
    requires forall i :: 0 <= i < |records| ==> records[i].serial == i
    ensures forall r :: r in records ==> multiset(records)[r] == 1
  {
    if records != [] {
      var init, last := records[..|records| - 1], records[|records| - 1];
      NumberedOccurOnce(init);
      assert records == init + [last];
      assert forall r :: r in init ==> r.serial < last.serial;
    }
  }

  /** So with such a clock no record is ever lost, doubled or made up. */
  lemma TimelyConserves(events: seq<Event>)
    requires Timely(events)
    ensures Known(Run(events)) == multiset(Run(events).accepted)
    ensures forall r :: r in Run(events).accepted ==> Known(Run(events))[r] == 1
  {
    TimelyIdsTellApart(events);
    TimelyNamesAreDistinct(events);
    EveryRecordIsSomewhere(events);
    AcceptedAreNumbered(events);
    NumberedOccurOnce(Run(events).accepted);
  }

  // ---- two ways to lose a record ----

  const DOWN := INITIAL.(failures := 3, status := Activated)

  lemma FallenBack() returns (events: seq<Event>)
    ensures events == [Checked(false), Checked(false), Checked(false)] && Run(events) == DOWN
  {
    events := [];
    events := AndThen(events, Checked(false), INITIAL.(failures := 1));
    events := AndThen(events, Checked(false), INITIAL.(failures := 2));
    events := AndThen(events, Checked(false), DOWN);
  }

  lemma AndThen(events: seq<Event>, e: Event, next: State) returns (more: seq<Event>)
    requires Step(Run(events), e) == next
    ensures more == events + [e] && Run(more) == next
  {
    more := events + [e];
    assert more[..|more| - 1] == events;
  }

  /** While few records are pending, a record is only kept. */
  lemma Kept(events: seq<Event>, kind: Kind, data: string, now: nat) returns (more: seq<Event>)
    requires Run(events).status == Activated && |Run(events).pending| + 1 < 10000
    ensures more == events + [Added(kind, data, now, now, true)]
    ensures Run(more) == Push(Run(events), kind, data, now)
  {
    more := AndThen(events, Added(kind, data, now, now, true), Push(Run(events), kind, data, now));
  }

  /** An export of all sorting results, when one is pending and no file has the name. */
  lemma OneExported(events: seq<Event>, r: Record, left: seq<Record>, now: nat) returns (more: seq<Event>)
    requires var s := Run(events);
      && Selected(s.pending, Some(SortingResult)) == [r] && Without(s.pending, Ids([r])) == left
    ensures more == events + [Exported(Some(SortingResult), now, true)]
    ensures var s, name := Run(events), NameAt(Some(SortingResult), now);
      Run(more) == s.(pending := left, files := Saved(s.files, File(name, [r])), generated := s.generated + [name])
  {
    var s, name := Run(events), NameAt(Some(SortingResult), now);
    more := AndThen(events, Exported(Some(SortingResult), now, true),
                    s.(pending := left, files := Saved(s.files, File(name, [r])), generated := s.generated + [name]));
  }

  /** Told apart by their ids, only the chosen record goes. */
  lemma OneGoes(a: Record, b: Record)
    requires a.kind == SortingResult && b.kind == BindingInfo && IdOf(a) != IdOf(b)
    ensures Selected([a, b], Some(SortingResult)) == [a] && Without([a, b], Ids([a])) == [b]
  {
    assert [a, b][..1] == [a] && [a][..0] == [];
    assert a in [a];
    assert Ids([a]) == {IdOf(a)};
    OnlyOneGoes(a);
  }

  lemma OnlyOneGoes(a: Record)
    requires a.kind == SortingResult
    ensures Selected([a], Some(SortingResult)) == [a] && Without([a], Ids([a])) == []
  {
    assert [a][..0] == [] && a in [a];
  }

  /** With the same id, both go. */
  lemma BothGo(b: Record, c: Record)
    requires b.kind == BindingInfo && c.kind == SortingResult && IdOf(b) == IdOf(c)
    ensures Selected([b, c], Some(SortingResult)) == [c] && Without([b, c], Ids([c])) == []
  {
    assert [b, c][..1] == [b] && [b][..0] == [];
    assert c in [c];
    assert Ids([c]) == {IdOf(c)};
    assert Selected([b], Some(SortingResult)) == [];
    assert Without([b], Ids([c])) == [];
  }

  /** Two records of one millisecond with an export between them: the pending count falls
      back, the id is given out again, and the next export of one kind drops a record of
      the other kind that was never written or sent. */
  lemma CollidingIdsLoseARecord() returns (events: seq<Event>, lost: Record)
    ensures lost in Run(events).accepted && lost !in Known(Run(events)) && DistinctNames(Run(events).generated)
  {
    var a := Record(7, 0, SortingResult, 0, "a");
    var b := Record(7, 1, BindingInfo, 1, "b");
    var c := Record(7, 1, SortingResult, 2, "c");
    lost := b;
    events := SameIdAgain(a, b, c);
    BothGo(b, c);
    events := OneExported(events, c, [], 1007);
    TwoFiles(File(NameAt(Some(SortingResult), 7), [a]), File(NameAt(Some(SortingResult), 1007), [c]));
    assert Run(events).accepted[1] == b;
  }

  lemma TwoPending(a: Record, b: Record) returns (events: seq<Event>)
    requires a == Record(7, 0, SortingResult, 0, "a") && b == Record(7, 1, BindingInfo, 1, "b")
    ensures Run(events) == DOWN.(pending := [a, b], accepted := [a, b])
  {
    events := FallenBack();
    events := Kept(events, SortingResult, "a", 7);
    assert Run(events) == DOWN.(pending := [a], accepted := [a]);
    events := Kept(events, BindingInfo, "b", 7);
    assert [a] + [b] == [a, b];
  }

  lemma SameIdAgain(a: Record, b: Record, c: Record) returns (events: seq<Event>)
    requires a == Record(7, 0, SortingResult, 0, "a") && b == Record(7, 1, BindingInfo, 1, "b")
    requires c == Record(7, 1, SortingResult, 2, "c")
    ensures var name := NameAt(Some(SortingResult), 7);
      Run(events) == DOWN.(pending := [b, c], files := [File(name, [a])], generated := [name], accepted := [a, b, c])
  {
    events := TwoPending(a, b);
    OneGoes(a, b);
    events := OneExported(events, a, [b], 7);
    events := Kept(events, SortingResult, "c", 7);
    assert [b] + [c] == [b, c] && [a, b] + [c] == [a, b, c];
  }

  lemma OneFile(file: File, name: FileName)
    ensures OtherFiles([file], name) == if file.name == name then [] else [file]
    ensures Rows([file]) == multiset(file.rows)
  {
    assert [file][..0] == [];
  }

  lemma TwoFiles(first: File, second: File)
    requires first.name != second.name
    ensures Saved([first], second) == [first, second]
    ensures Rows([first, second]) == multiset(first.rows) + multiset(second.rows)
  {
    OneFile(first, second.name);
    assert [first, second][..1] == [first];
  }

  /** Two exports of one kind within a second: the second file replaces the first, whose
      record is no longer pending. The clock never goes back and ids do not collide. */
  lemma SameSecondLosesARecord() returns (events: seq<Event>, lost: Record)
    ensures events == [Checked(false), Checked(false), Checked(false),
                       Added(SortingResult, "a", 1000, 1000, true), Exported(Some(SortingResult), 1001, true),
                       Added(SortingResult, "b", 1002, 1002, true), Exported(Some(SortingResult), 1003, true)]
    ensures lost in Run(events).accepted && lost !in Known(Run(events))
  {
    var b, name := Record(1002, 0, SortingResult, 1, "b"), NameAt(Some(SortingResult), 1001);
    events, lost := FirstOfTheSecond();
    var s := Run(events);
    events := Kept(events, SortingResult, "b", 1002);
    assert [] + [b] == [b];
    OnlyOneGoes(b);
    OneFile(File(name, [lost]), name);
    OneFile(File(name, [b]), name);
    events := OneExported(events, b, [], 1003);
    assert Run(events).accepted[0] == lost;
  }

  lemma FirstOfTheSecond() returns (events: seq<Event>, a: Record)
    ensures events == [Checked(false), Checked(false), Checked(false),
                       Added(SortingResult, "a", 1000, 1000, true), Exported(Some(SortingResult), 1001, true)]
    ensures a == Record(1000, 0, SortingResult, 0, "a")
    ensures var name := NameAt(Some(SortingResult), 1001);
      Run(events) == DOWN.(files := [File(name, [a])], generated := [name], accepted := [a])
  {
    a := Record(1000, 0, SortingResult, 0, "a");
    events := FallenBack();
    events := Kept(events, SortingResult, "a", 1000);
    assert [] + [a] == [a];
    OnlyOneGoes(a);
    events := OneExported(events, a, [], 1001);
  }

  // ---- how many may be pending ----

  lemma SelectedExtended(records: seq<Record>, r: Record, kind: Option<Kind>)
    ensures Selected(records + [r], kind) == Selected(records, kind) + (if Matches(r, kind) then [r] else [])
  {
    assert (records + [r])[..|records|] == records;
  }

  lemma {:induction false} WithoutSelectsLess(records: seq<Record>, ids: set<Id>, kind: Option<Kind>)
    ensures |Selected(Without(records, ids), kind)| <= |Selected(records, kind)|
  {
    if records != [] {
      var init, last := records[..|records| - 1], records[|records| - 1];
      WithoutSelectsLess(init, ids, kind);
      SelectedExtended(Without(init, ids), last, kind);
    }
  }

  lemma {:induction false} WithoutSelectsNothing(records: seq<Record>, ids: set<Id>, kind: Option<Kind>)
    requires forall r :: r in records && Matches(r, kind) ==> IdOf(r) in ids
    ensures Selected(Without(records, ids), kind) == []
  {
    if records != [] {
      var init, last := records[..|records| - 1], records[|records| - 1];
      assert records == init + [last] && last in records;
      WithoutSelectsNothing(init, ids, kind);
      SelectedExtended(Without(init, ids), last, kind);
    }
  }

  lemma AddKeepsBelow(s: State, added: Kind, data: string, now: nat, filed: nat, kind: Kind)
    requires |Selected(s.pending, Some(kind))| < 10000
    ensures |Selected(Add(s, added, data, now, filed, true).pending, Some(kind))| < 10000
  {
    var t := Push(s, added, data, now);
    var ids := Ids(Selected(t.pending, Some(added)));
    SelectedExtended(s.pending, t.pending[|s.pending|], Some(kind));
    SelectedMembers(t.pending, Some(added));
    WithoutSelectsLess(t.pending, ids, Some(kind));
    WithoutSelectsNothing(t.pending, ids, Some(added));
  }

  /** While files can be written, fewer records of a kind are pending than fill a file. */
  lemma {:induction false} FewerThanAFileful(events: seq<Event>, kind: Kind)
    requires forall i :: 0 <= i < |events| && events[i].Added? ==> events[i].written
    ensures |Selected(Run(events).pending, Some(kind))| < 10000
  {
    if events != [] {
      var earlier, last := events[..|events| - 1], events[|events| - 1];
      FewerThanAFileful(earlier, kind);
      var s := Run(earlier);
      match last
      case Checked(_) =>
      case Settled =>
      case Added(k, data, now, filed, _) => AddKeepsBelow(s, k, data, now, filed, kind);
      case Exported(which, _, _) =>
        WithoutSelectsLess(s.pending, Ids(Selected(s.pending, which)), Some(kind));
    }
  }

  // ---- the runs are those of the service ----

  /** One event, by the method that handles it. */
  method Perform(service: FallbackService, e: Event)
    modifies service
    ensures service.View() == Step(old(service.View()), e)
  {
    match e
    case Checked(connected) => service.CheckSimsHealth(connected);
    case Settled => service.FinishRecovery();
    case Added(kind, data, now, filed, written) => service.AddPendingRecord(kind, data, now, filed, written);
    case Exported(which, now, written) => var done := service.GenerateCsvFile(which, now, written);
  }

  /** A service that has handled these events is in the state of their run. */
  method Replay(events: seq<Event>) returns (service: FallbackService)
    ensures fresh(service) && service.View() == Run(events)
  {
    service := new FallbackService();
    for i := 0 to |events|
      invariant fresh(service) && service.View() == Run(events[..i])
    {
      assert events[..i + 1][..i] == events[..i];
      Perform(service, events[i]);
    }
    assert events[..|events|] == events;
  }
}
