/** FallbackService: when the SIMS host is down, records are kept, exported to CSV files
    or, once the host is back, taken off in batches. */
module Fallback {
  import opened Prelude

  const FAILURE_THRESHOLD := 3
  const RECOVERY_THRESHOLD := 5
  const MAX_ROWS_PER_FILE := 10000
  const BATCH_SIZE := 100

  datatype Status = Inactive | Activated | Recovering

  datatype Kind = SortingResult | BindingInfo

  /** The id of a record is made of the clock and the number of records then pending.
      `serial` tells accepted records apart whatever their ids. */
  datatype Record = Record(time: int, length: nat, kind: Kind, serial: nat, data: string)

  type Id = (int, nat)

  function IdOf(r: Record): Id {
    (r.time, r.length)
  }

  /** A file is named by what was asked for and by the clock, cut to the second. */
  datatype FileName = FileName(kind: Option<Kind>, second: nat)

  datatype File = File(name: FileName, rows: seq<Record>)

  function NameAt(kind: Option<Kind>, now: nat): FileName {
    FileName(kind, now / 1000)
  }

  // ---- the service on values ----

  /** `files` is the output directory, `generated` the names of the files in the order of
      their writing. */
  datatype State = State(
    status: Status,
    failures: nat,
    successes: nat,
    pending: seq<Record>,
    files: seq<File>,
    generated: seq<FileName>,
    batches: seq<seq<Record>>,
    accepted: seq<Record>)

  const INITIAL := State(Inactive, 0, 0, [], [], [], [], [])

  predicate Matches(r: Record, kind: Option<Kind>) {
    kind == None || r.kind == kind.value
  }

  function Selected(records: seq<Record>, kind: Option<Kind>): (r: seq<Record>)
    ensures |r| <= |records|
  {
    if records == [] then []
    else
      var rest := Selected(records[..|records| - 1], kind);
      if Matches(records[|records| - 1], kind) then rest + [records[|records| - 1]] else rest
  }

  function Ids(records: seq<Record>): set<Id> {
    set r | r in records :: IdOf(r)
  }

  function Without(records: seq<Record>, ids: set<Id>): seq<Record> {
    if records == [] then []
    else
      var rest := Without(records[..|records| - 1], ids);
      if IdOf(records[|records| - 1]) in ids then rest else rest + [records[|records| - 1]]
  }

  /** The files of the directory but for one name. */
  function OtherFiles(files: seq<File>, name: FileName): seq<File> {
    if files == [] then []
    else
      var rest := OtherFiles(files[..|files| - 1], name);
      if files[|files| - 1].name == name then rest else rest + [files[|files| - 1]]
  }

  /** writeFileSync: a file of the same name is replaced. */
  function Saved(files: seq<File>, file: File): seq<File> {
    OtherFiles(files, file.name) + [file]
  }

  function Batches(records: seq<Record>): (b: seq<seq<Record>>)
    decreases |records|
  {
    if records == [] then []
    else
      var n := Min(BATCH_SIZE, |records|);
      [records[..n]] + Batches(records[n..])
  }

  function Flat(batches: seq<seq<Record>>): seq<Record> {
    if batches == [] then [] else batches[0] + Flat(batches[1..])
  }

  /** A health check. With enough successes the pending records are taken off at once;
      the status says RECOVERING until the recovery is settled. */
  function Check(s: State, connected: bool): State {
    if !connected then
      var t := s.(successes := 0, failures := s.failures + 1);
      if t.failures >= FAILURE_THRESHOLD && t.status == Inactive then t.(status := Activated) else t
    else
      var t := s.(failures := 0, successes := s.successes + 1);
      if t.successes >= RECOVERY_THRESHOLD && t.status == Activated
      then t.(status := Recovering, batches := t.batches + Batches(t.pending), pending := [])
      else t
  }

  /** The end of a recovery. */
  function Settle(s: State): State {
    if s.status == Recovering then s.(status := Inactive, failures := 0) else s
  }

  function Export(s: State, kind: Option<Kind>, now: nat, written: bool): State {
    var chosen := Selected(s.pending, kind);
    if chosen == [] || !written then s
    else
      s.(files := Saved(s.files, File(NameAt(kind, now), chosen)), generated := s.generated + [NameAt(kind, now)],
         pending := Without(s.pending, Ids(chosen)))
  }

  function Push(s: State, kind: Kind, data: string, now: nat): State {
    var r := Record(now, |s.pending|, kind, |s.accepted|, data);
    s.(pending := s.pending + [r], accepted := s.accepted + [r])
  }

  /** The clock is read for the id of the record, and again if a file is written. */
  function Add(s: State, kind: Kind, data: string, now: nat, filed: nat, written: bool): State {
    if s.status != Activated then s
    else
      var t := Push(s, kind, data, now);
      if |Selected(t.pending, Some(kind))| >= MAX_ROWS_PER_FILE then Export(t, Some(kind), filed, written) else t
  }

  // ---- the service ----

  class FallbackService {
    var status: Status
    var consecutiveFailures: nat
    var consecutiveSuccesses: nat
    var pendingRecords: seq<Record>
    /** The output directory. */
    var files: seq<File>
    var csvFilesGenerated: seq<FileName>
    /** The batches that recoveries have taken off the pending records. */
    var batches: seq<seq<Record>>
    /** Every record ever accepted. */
    var accepted: seq<Record>

    ghost function View(): State
      reads this
    {
      State(status, consecutiveFailures, consecutiveSuccesses, pendingRecords, files, csvFilesGenerated, batches,
          accepted)
    }

    constructor ()
      ensures View() == INITIAL
    {
      status, consecutiveFailures, consecutiveSuccesses := Inactive, 0, 0;
      pendingRecords, files, csvFilesGenerated, batches, accepted := [], [], [], [], [];
    }

    method CheckSimsHealth(simsConnected: bool)
      modifies this
      ensures View() == Check(old(View()), simsConnected)
    {
      if !simsConnected {
        consecutiveSuccesses := 0;
        consecutiveFailures := consecutiveFailures + 1;
        if consecutiveFailures >= FAILURE_THRESHOLD && status == Inactive {
          status := Activated;
        }
      } else {
        consecutiveFailures := 0;
        consecutiveSuccesses := consecutiveSuccesses + 1;
        if consecutiveSuccesses >= RECOVERY_THRESHOLD && status == Activated {
          status := Recovering;
          SyncPendingRecords();
        }
      }
    }

    /** What follows the awaited sync in startRecovery. */
    method FinishRecovery()
      modifies this
      ensures View() == Settle(old(View()))
    {
      if status == Recovering {
        status := Inactive;
        consecutiveFailures := 0;
      }
    }

    method SyncPendingRecords()
      modifies this
      ensures View() == old(View()).(batches := old(batches) + Batches(old(pendingRecords)), pending := [])
    {
      while |pendingRecords| > 0
        invariant View() == old(View()).(batches := batches, pending := pendingRecords)
        invariant batches + Batches(pendingRecords) == old(batches) + Batches(old(pendingRecords))
        decreases |pendingRecords|
      {
        var n := Min(BATCH_SIZE, |pendingRecords|);
        var batch := pendingRecords[..n];
        Associative(batches, [batch], Batches(pendingRecords[n..]));
        pendingRecords := pendingRecords[n..];
        batches := batches + [batch];
      }
      assert batches + [] == batches;
    }

    method AddPendingRecord(kind: Kind, data: string, now: nat, filed: nat, csvWritten: bool)
      modifies this
      ensures View() == Add(old(View()), kind, data, now, filed, csvWritten)
    {
      if status != Activated { return; }
      var r := Record(now, |pendingRecords|, kind, |accepted|, data);
      pendingRecords := pendingRecords + [r];
      accepted := accepted + [r];
      var typeRecords := Filter(pendingRecords, Some(kind));
      if |typeRecords| >= MAX_ROWS_PER_FILE {
        var done := GenerateCsvFile(Some(kind), filed, csvWritten);
      }
    }

    /** The records of one kind, or all of them. */
    method Filter(records: seq<Record>, kind: Option<Kind>) returns (chosen: seq<Record>)
      ensures chosen == Selected(records, kind)
    {
      chosen := [];
      for i := 0 to |records|
        invariant chosen == Selected(records[..i], kind)
      {
        assert records[..i + 1][..i] == records[..i];
        if Matches(records[i], kind) {
          chosen := chosen + [records[i]];
        }
      }
      assert records[..|records|] == records;
    }

    /** Writes the chosen records to a file, over any of the same name, and drops every
        pending record with one of their ids; a failed write leaves everything as it was. */
    method GenerateCsvFile(kind: Option<Kind>, now: nat, written: bool) returns (done: Option<FileName>)
      modifies this
      ensures View() == Export(old(View()), kind, now, written)
      ensures done == if written && Selected(old(pendingRecords), kind) != [] then Some(NameAt(kind, now)) else None
    {
      var records := Filter(pendingRecords, kind);
      if |records| == 0 { return None; }
      var fileName := NameAt(kind, now);
      if !written { return None; }
      files := Saved(files, File(fileName, records));
      csvFilesGenerated := csvFilesGenerated + [fileName];
      DropPending(Ids(records));
      return Some(fileName);
    }

    method DropPending(recordIds: set<Id>)
      modifies this`pendingRecords
      ensures pendingRecords == Without(old(pendingRecords), recordIds)
    {
      var kept: seq<Record> := [];
      for i := 0 to |pendingRecords|
        invariant pendingRecords == old(pendingRecords) && kept == Without(pendingRecords[..i], recordIds)
      {
        assert pendingRecords[..i + 1][..i] == pendingRecords[..i];
        if IdOf(pendingRecords[i]) !in recordIds {
          kept := kept + [pendingRecords[i]];
        }
      }
      assert pendingRecords[..|pendingRecords|] == pendingRecords;
      pendingRecords := kept;
    }
  }
}
