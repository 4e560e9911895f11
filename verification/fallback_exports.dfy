/** What an export writes and what it leaves, record by record. */
module FallbackExports {
  import opened Prelude
  import opened Fallback
  import opened FallbackRuns

  /** The records of a kind, in order. */
  function OfKind(records: seq<Record>, kind: Kind): seq<Record> {
    if records == [] then []
    else (if records[0].kind == kind then [records[0]] else []) + OfKind(records[1..], kind)
  }

  /** The records whose time and length are those of no exported one, in order. */
  function Left(records: seq<Record>, exported: seq<Record>): seq<Record> {
    if records == [] then []
    else
      (if exists r :: r in exported && r.time == records[0].time && r.length == records[0].length then []
       else [records[0]])
      + Left(records[1..], exported)
  }

  /** The files of other names, in order. */
  function NamedOtherwise(files: seq<File>, name: FileName): seq<File> {
    if files == [] then []
    else (if files[0].name == name then [] else [files[0]]) + NamedOtherwise(files[1..], name)
  }

  // ---- the filters ----

  lemma {:induction false} AllAreSelected(records: seq<Record>)
    ensures Selected(records, None) == records
  {
    if records != [] {
      AllAreSelected(records[..|records| - 1]);
    }
  }

  lemma {:induction false} SelectedOfMore(a: seq<Record>, b: seq<Record>, kind: Option<Kind>)
    ensures Selected(a + b, kind) == Selected(a, kind) + Selected(b, kind)
    decreases |b|
  {
    if b == [] {
      assert a + b == a;
    } else {
      assert (a + b)[..|a + b| - 1] == a + b[..|b| - 1];
      SelectedOfMore(a, b[..|b| - 1], kind);
    }
  }

  lemma {:induction false} KindIsSelected(records: seq<Record>, kind: Kind)
    ensures Selected(records, Some(kind)) == OfKind(records, kind)
  {
    if records != [] {
      KindIsSelected(records[1..], kind);
      SelectedOfOne(records[0], Some(kind));
      SelectedOfMore([records[0]], records[1..], Some(kind));
      assert [records[0]] + records[1..] == records;
    }
  }

  lemma SelectedOfOne(r: Record, kind: Option<Kind>)
    ensures Selected([r], kind) == if Matches(r, kind) then [r] else []
  {
    assert [r][..0] == [];
  }

  lemma {:induction false} WithoutOfMore(a: seq<Record>, b: seq<Record>, ids: set<Id>)
    ensures Without(a + b, ids) == Without(a, ids) + Without(b, ids)
    decreases |b|
  {
    if b == [] {
      assert a + b == a;
    } else {
      assert (a + b)[..|a + b| - 1] == a + b[..|b| - 1];
      WithoutOfMore(a, b[..|b| - 1], ids);
    }
  }

  lemma InIds(r: Record, exported: seq<Record>)
    ensures IdOf(r) in Ids(exported) <==> exists q :: q in exported && q.time == r.time && q.length == r.length
  {
    if exists q :: q in exported && q.time == r.time && q.length == r.length {
      var q :| q in exported && q.time == r.time && q.length == r.length;
      assert IdOf(q) == IdOf(r);
    }
  }

  lemma {:induction false} WithoutIsLeft(records: seq<Record>, exported: seq<Record>)
    ensures Without(records, Ids(exported)) == Left(records, exported)
  {
    if records != [] {
      WithoutIsLeft(records[1..], exported);
      WithoutOfMore([records[0]], records[1..], Ids(exported));
      InIds(records[0], exported);
      assert [records[0]] + records[1..] == records && [records[0]][..0] == [];
    }
  }

  lemma {:induction false} NothingLeft(records: seq<Record>, exported: seq<Record>)
    requires forall r :: r in records ==> r in exported
    ensures Left(records, exported) == []
  {
    if records != [] {
      assert records[0] in exported;
      NothingLeft(records[1..], exported);
    }
  }

  lemma {:induction false} OthersOfMore(a: seq<File>, b: seq<File>, name: FileName)
    ensures OtherFiles(a + b, name) == OtherFiles(a, name) + OtherFiles(b, name)
    decreases |b|
  {
    if b == [] {
      assert a + b == a;
    } else {
      assert (a + b)[..|a + b| - 1] == a + b[..|b| - 1];
      OthersOfMore(a, b[..|b| - 1], name);
    }
  }

  lemma {:induction false} OthersAreNamedOtherwise(files: seq<File>, name: FileName)
    ensures OtherFiles(files, name) == NamedOtherwise(files, name)
  {
    if files != [] {
      OthersAreNamedOtherwise(files[1..], name);
      OthersOfMore([files[0]], files[1..], name);
      assert [files[0]] + files[1..] == files && [files[0]][..0] == [];
    }
  }

  // ---- recovery ----

  /** The fifth success in a row takes the pending records off, behind what earlier recoveries
      have taken, in order and a hundred at a time; no other check touches a record. */
  lemma RecoveryTakesOff(s: State, connected: bool)
    ensures var t := Check(s, connected);
      && t.files == s.files && t.generated == s.generated && t.accepted == s.accepted
      && if connected && s.successes + 1 >= 5 && s.status == Activated then
           && t.status == Recovering && t.pending == [] && s.batches <= t.batches
           && Flat(t.batches[|s.batches|..]) == s.pending
           && (forall i :: |s.batches| <= i < |t.batches| - 1 ==> |t.batches[i]| == 100)
         else t.pending == s.pending && t.batches == s.batches
  {
    RecoveryDrainsInOrder(s.pending);
    FullBatches(s.pending);
    assert (s.batches + Batches(s.pending))[|s.batches|..] == Batches(s.pending);
  }

  lemma {:induction false} FullBatches(records: seq<Record>)
    ensures forall i :: 0 <= i < |Batches(records)| - 1 ==> |Batches(records)[i]| == 100
    decreases |records|
  {
    if |records| > 100 {
      FullBatches(records[100..]);
    }
  }

  // ---- exports ----

  /** A new file with these rows, over any of its name; its rows are no longer pending. */
  ghost predicate Wrote(s: State, t: State, kind: Option<Kind>, now: nat, rows: seq<Record>) {
    var name := FileName(kind, now / 1000);
    && t.files == NamedOtherwise(s.files, name) + [File(name, rows)]
    && t.generated == s.generated + [name]
    && t.pending == Left(s.pending, rows)
    && t == s.(files := t.files, generated := t.generated, pending := t.pending)
  }

  lemma ExportWrites(s: State, kind: Option<Kind>, now: nat)
    requires Selected(s.pending, kind) != []
    ensures Wrote(s, Export(s, kind, now, true), kind, now, Selected(s.pending, kind))
  {
    WithoutIsLeft(s.pending, Selected(s.pending, kind));
    OthersAreNamedOtherwise(s.files, NameAt(kind, now));
  }

  /** An export of everything writes all pending records, in order, and leaves none; nothing
      is written only if none is pending or the write fails. */
  lemma ExportOfAll(s: State, now: nat, written: bool)
    ensures var t := Export(s, None, now, written);
      if s.pending == [] || !written then t == s
      else Wrote(s, t, None, now, s.pending) && t.pending == []
  {
    AllAreSelected(s.pending);
    if s.pending != [] && written {
      ExportWrites(s, None, now);
      NothingLeft(s.pending, s.pending);
    }
  }

  /** An export of one kind writes exactly the pending records of that kind, in order; nothing
      is written only if there is none or the write fails. */
  lemma ExportOfKind(s: State, kind: Kind, now: nat, written: bool)
    ensures var t := Export(s, Some(kind), now, written);
      if OfKind(s.pending, kind) == [] || !written then t == s
      else Wrote(s, t, Some(kind), now, OfKind(s.pending, kind))
  {
    KindIsSelected(s.pending, kind);
    if OfKind(s.pending, kind) != [] && written {
      ExportWrites(s, Some(kind), now);
    }
  }

  /** A record is kept while the service has fallen back, behind the others, with the clock
      and the number of records pending before it; the ten thousandth of its kind has them
      exported at once. */
  lemma AddingDoes(s: State, kind: Kind, data: string, now: nat, filed: nat, written: bool)
    ensures var t, r := Add(s, kind, data, now, filed, written), Record(now, |s.pending|, kind, |s.accepted|, data);
      if s.status != Activated then t == s
      else
        var kept := s.(pending := s.pending + [r], accepted := s.accepted + [r]);
        if |OfKind(s.pending, kind)| + 1 < 10000 || !written then t == kept
        else Wrote(kept, t, Some(kind), filed, OfKind(s.pending, kind) + [r])
  {
    if s.status == Activated {
      var r := Record(now, |s.pending|, kind, |s.accepted|, data);
      var kept := s.(pending := s.pending + [r], accepted := s.accepted + [r]);
      KindIsSelected(s.pending, kind);
      KindIsSelected(kept.pending, kind);
      assert kept.pending[..|s.pending|] == s.pending;
      assert Selected(kept.pending, Some(kind)) == Selected(s.pending, Some(kind)) + [r];
      ExportOfKind(kept, kind, filed, written);
    }
  }
}
