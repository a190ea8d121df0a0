/** Persisting one collection run: governed sources, snapshot rows and one private file per row, all or nothing. */
module SnapshotPersistence {
  import opened Common

  datatype Source = Source(id: string, payload: string)

  /** `sha256` is the hash of the normalised text. */
  datatype Snapshot = Snapshot(id: string, sourceId: string, canonicalUri: string, sha256: string, content: string)

  datatype Fetched = Fetched(source: Source, snapshot: Snapshot)

  /** `SourceRepository.sync` of each source in turn: insert, replace or leave the row. */
  function Synced(sources: map<string, Source>, batch: seq<Fetched>): map<string, Source> {
    if batch == [] then sources
    else
      var n := |batch| - 1;
      Synced(sources, batch[..n])[batch[n].source.id := batch[n].source]
  }

  predicate SamePair(a: Snapshot, b: Snapshot) {
    a.sourceId == b.sourceId && a.sha256 == b.sha256
  }

  predicate Duplicate(rows: seq<Snapshot>, s: Snapshot) {
    exists r | r in rows :: SamePair(r, s)
  }

  /** The snapshots that are neither stored already nor repeated earlier in the batch. */
  function NewRows(rows: seq<Snapshot>, batch: seq<Fetched>): seq<Snapshot> {
    if batch == [] then []
    else
      var n := |batch| - 1;
      var before := NewRows(rows, batch[..n]);
      if Duplicate(rows + before, batch[n].snapshot) then before else before + [batch[n].snapshot]
  }

  function Ids(rows: seq<Snapshot>): set<string> {
    set r | r in rows :: r.id
  }

  /** The table constraints: fresh primary key, known source. The UNIQUE triple follows from the duplicate check. */
  predicate Insertable(rows: seq<Snapshot>, sources: map<string, Source>, s: Snapshot) {
    s.id !in Ids(rows) && s.sourceId in sources
    && forall r | r in rows :: !(r.sourceId == s.sourceId && r.canonicalUri == s.canonicalUri && r.sha256 == s.sha256)
  }

  /** Inserted one after the other, every row is admitted. */
  predicate AllInsertable(rows: seq<Snapshot>, sources: map<string, Source>, added: seq<Snapshot>) {
    added == [] ||
    var n := |added| - 1;
    AllInsertable(rows, sources, added[..n]) && Insertable(rows + added[..n], sources, added[n])
  }

  /** No two rows of one source have one hash. */
  ghost predicate Distinct(rows: seq<Snapshot>) {
    forall i, j | 0 <= i < j < |rows| :: !SamePair(rows[i], rows[j])
  }

  lemma DuplicateMore(rows: seq<Snapshot>, more: seq<Snapshot>, s: Snapshot)
    requires Duplicate(rows, s)
    ensures Duplicate(rows + more, s)
  {
    var r :| r in rows && SamePair(r, s);
    assert r in rows + more;
  }

  lemma DistinctMore(rows: seq<Snapshot>, s: Snapshot)
    requires Distinct(rows) && !Duplicate(rows, s)
    ensures Distinct(rows + [s])
  {
    forall i | 0 <= i < |rows|
      ensures !SamePair(rows[i], s)
    {
      assert rows[i] in rows;
    }
  }

  /** The new rows keep all rows of one source different in their hash. */
  lemma {:induction false} NewRowsDistinct(rows: seq<Snapshot>, batch: seq<Fetched>)
    requires Distinct(rows)
    ensures Distinct(rows + NewRows(rows, batch))
  {
    if batch == [] {
      assert rows + [] == rows;
    } else {
      var n := |batch| - 1;
      var before, s := NewRows(rows, batch[..n]), batch[n].snapshot;
      NewRowsDistinct(rows, batch[..n]);
      if !Duplicate(rows + before, s) {
        DistinctMore(rows + before, s);
        assert rows + (before + [s]) == rows + before + [s];
      }
    }
  }

  /** Every fetched pair is stored afterwards. */
  lemma {:induction false} NewRowsCover(rows: seq<Snapshot>, batch: seq<Fetched>, i: nat)
    requires i < |batch|
    ensures Duplicate(rows + NewRows(rows, batch), batch[i].snapshot)
  {
    var n := |batch| - 1;
    var before, s := NewRows(rows, batch[..n]), batch[n].snapshot;
    assert rows + (before + [s]) == rows + before + [s];
    if i < n {
      NewRowsCover(rows, batch[..n], i);
      DuplicateMore(rows + before, [s], batch[i].snapshot);
    } else if !Duplicate(rows + before, s) {
      assert s in rows + before + [s] && SamePair(s, s);
    }
  }

  /** A new row was fetched, and none of its pair was stored before. */
  lemma {:induction false} NewRowsFresh(rows: seq<Snapshot>, batch: seq<Fetched>, k: nat)
    requires k < |NewRows(rows, batch)|
    ensures !Duplicate(rows, NewRows(rows, batch)[k])
    ensures exists i :: 0 <= i < |batch| && batch[i].snapshot == NewRows(rows, batch)[k]
  {
    var n := |batch| - 1;
    var before, s := NewRows(rows, batch[..n]), batch[n].snapshot;
    if k < |before| {
      NewRowsFresh(rows, batch[..n], k);
      var i :| 0 <= i < n && batch[..n][i].snapshot == before[k];
      assert batch[i].snapshot == before[k];
    } else {
      assert batch[n].snapshot == s;
      if Duplicate(rows, s) {
        DuplicateMore(rows, before, s);
      }
    }
  }

  /** Nothing stored twice, nothing lost: the new rows extend distinct rows and cover every fetched pair. */
  lemma NewRowsDedupe(rows: seq<Snapshot>, batch: seq<Fetched>)
    ensures var added := NewRows(rows, batch);
            && (Distinct(rows) ==> Distinct(rows + added))
            && (forall i | 0 <= i < |batch| :: Duplicate(rows + added, batch[i].snapshot))
            && (forall k | 0 <= k < |added| ::
                  !Duplicate(rows, added[k]) && exists i :: 0 <= i < |batch| && batch[i].snapshot == added[k])
  {
    var added := NewRows(rows, batch);
    if Distinct(rows) {
      NewRowsDistinct(rows, batch);
    }
    forall i | 0 <= i < |batch|
      ensures Duplicate(rows + added, batch[i].snapshot)
    {
      NewRowsCover(rows, batch, i);
    }
    forall k | 0 <= k < |added|
      ensures !Duplicate(rows, added[k]) && exists i :: 0 <= i < |batch| && batch[i].snapshot == added[k]
    {
      NewRowsFresh(rows, batch, k);
    }
  }

  lemma {:induction false} SyncedHolds(sources: map<string, Source>, batch: seq<Fetched>, i: nat)
    requires i < |batch|
    ensures batch[i].source.id in Synced(sources, batch)
    ensures (forall j | i < j < |batch| ::
               batch[j].source.id == batch[i].source.id ==> batch[j].source == batch[i].source)
            ==> Synced(sources, batch)[batch[i].source.id] == batch[i].source
    ensures exists j :: i <= j < |batch| && Synced(sources, batch)[batch[i].source.id] == batch[j].source
                        && batch[j].source.id == batch[i].source.id
  {
    var n := |batch| - 1;
    if i == n {
      assert Synced(sources, batch)[batch[n].source.id] == batch[n].source;
    } else {
      SyncedHolds(sources, batch[..n], i);
      if batch[n].source.id == batch[i].source.id {
        assert Synced(sources, batch)[batch[i].source.id] == batch[n].source;
      } else {
        var j :| i <= j < n && Synced(sources, batch[..n])[batch[i].source.id] == batch[..n][j].source
                 && batch[..n][j].source.id == batch[i].source.id;
        assert Synced(sources, batch)[batch[i].source.id] == batch[j].source;
      }
    }
  }

  /** Fetched sources with one identifier are one source. */
  ghost predicate Consistent(batch: seq<Fetched>) {
    forall i, j | 0 <= i < j < |batch| && batch[i].source.id == batch[j].source.id :: batch[i].source == batch[j].source
  }

  ghost predicate ReadsBack(sources: map<string, Source>, batch: seq<Fetched>) {
    forall f | f in batch :: f.source.id in sources && sources[f.source.id] == f.source
  }

  /** Every fetched source reads back unchanged exactly when the batch is consistent. */
  lemma SyncReadsBack(sources: map<string, Source>, batch: seq<Fetched>)
    ensures ReadsBack(Synced(sources, batch), batch) <==> Consistent(batch)
  {
    if Consistent(batch) {
      forall f | f in batch
        ensures f.source.id in Synced(sources, batch) && Synced(sources, batch)[f.source.id] == f.source
      {
        var i :| 0 <= i < |batch| && batch[i] == f;
        SyncedHolds(sources, batch, i);
      }
    } else {
      var i, j :| 0 <= i < j < |batch| && batch[i].source.id == batch[j].source.id
          && batch[i].source != batch[j].source;
      assert batch[i] in batch && batch[j] in batch;
    }
  }

  /**
   What the machine may do to a run: fail a save (counted from 0), fail the commit, or stop the undo after a number of
   removals.  A killed process is a failure whose undo stops early: killed at a save, `Faults(Some(n), false, Some(0))`,
   or before the commit, `Faults(None, true, Some(0))`; the database takes the transaction back by itself.
   */
  datatype Faults = Faults(failingSave: Option<nat>, commitFails: bool, undoStops: Option<nat>)

  datatype RunResult = RunResult(fetched: nat, persisted: nat, duplicates: nat, sourceIds: seq<string>)

  function SourceIds(batch: seq<Fetched>): seq<string> {
    seq(|batch|, i requires 0 <= i < |batch| => batch[i].source.id)
  }

  datatype Outcome = Collected(result: RunResult) | Raised | VerificationFailed

  function FileMap(rows: seq<Snapshot>): map<string, Snapshot> {
    if rows == [] then map[]
    else
      var n := |rows| - 1;
      FileMap(rows[..n])[rows[n].id := rows[n]]
  }

  lemma {:induction false} FileMapKeys(rows: seq<Snapshot>)
    ensures FileMap(rows).Keys == Ids(rows)
  {
    if rows != [] {
      var n := |rows| - 1;
      FileMapKeys(rows[..n]);
      assert rows == rows[..n] + [rows[n]];
      assert Ids(rows) == Ids(rows[..n]) + {rows[n].id};
    }
  }

  /** Rows and private files match one to one. */
  ghost predicate FilesMatch(rows: seq<Snapshot>, files: map<string, Snapshot>) {
    files == FileMap(rows)
  }

  /** Each of these rows is in the table and has its file. */
  ghost predicate Stored(rows: seq<Snapshot>, files: map<string, Snapshot>, added: seq<Snapshot>) {
    forall s | s in added :: s.id in Ids(rows) && s.id in files
  }

  lemma FilesOne(files: map<string, Snapshot>, rows: seq<Snapshot>, s: Snapshot)
    ensures (files + FileMap(rows))[s.id := s] == files + FileMap(rows + [s])
  {
    assert (rows + [s])[..|rows|] == rows;
  }

  lemma {:induction false} FileMapAppend(rows: seq<Snapshot>, added: seq<Snapshot>)
    ensures FileMap(rows + added) == FileMap(rows) + FileMap(added)
  {
    if added == [] {
      assert rows + added == rows;
    } else {
      var n := |added| - 1;
      assert (rows + added)[..|rows + added| - 1] == rows + added[..n];
      FileMapAppend(rows, added[..n]);
    }
  }

  datatype Store = Store(sources: map<string, Source>, rows: seq<Snapshot>, files: map<string, Snapshot>)

  predicate Fails(st: Store, batch: seq<Fetched>, faults: Faults) {
    faults.commitFails || !Goes(st.rows, Synced(st.sources, batch), NewRows(st.rows, batch), faults.failingSave)
  }

  /** The new rows whose files a run writes: all of them, or those up to the first refusal. */
  function Saved(st: Store, batch: seq<Fetched>, faults: Faults): seq<Snapshot> {
    WrittenRows(st.rows, Synced(st.sources, batch), NewRows(st.rows, batch), faults.failingSave)
  }

  /** How many of `n` files an undo removes. */
  function Undone(faults: Faults, n: nat): (u: nat)
    ensures u <= n
  {
    if faults.undoStops.Some? && faults.undoStops.value < n then faults.undoStops.value else n
  }

  /** The rows whose files an undo of a failed run removes. */
  function Removed(st: Store, batch: seq<Fetched>, faults: Faults): seq<Snapshot> {
    Saved(st, batch, faults)[..Undone(faults, |Saved(st, batch, faults)|)]
  }

  /**
   A failed run leaves sources and rows as before, has written its files and removes them again; a successful one
   adds exactly the new rows and their files.
   */
  function AfterRun(st: Store, batch: seq<Fetched>, faults: Faults): Store {
    if Fails(st, batch, faults) then
      st.(files := st.files + FileMap(Saved(st, batch, faults)) - Ids(Removed(st, batch, faults)))
    else
      var added := NewRows(st.rows, batch);
      Store(Synced(st.sources, batch), st.rows + added, st.files + FileMap(added))
  }

  class CollectionStore {
    var sources: map<string, Source>
    var rows: seq<Snapshot>
    var files: map<string, Snapshot>

    ghost function State(): Store
      reads this
    {
      Store(sources, rows, files)
    }

    constructor ()
      ensures State() == Store(map[], [], map[])
    {
      sources, rows, files := map[], [], map[];
    }

    /** `SourceRepository.sync` */
    method SyncSource(s: Source)
      modifies this`sources
      ensures sources == old(sources)[s.id := s]
    {
      if s.id !in sources {
        sources := sources[s.id := s];
        return;
      }
      if sources[s.id] == s {
        assert sources == sources[s.id := s];
        return;
      }
      sources := sources[s.id := s];
    }

    method SyncAll(batch: seq<Fetched>)
      modifies this`sources
      ensures sources == Synced(old(sources), batch)
    {
      ghost var before := sources;
      for i := 0 to |batch|
        invariant sources == Synced(before, batch[..i])
      {
        assert batch[..i + 1][..i] == batch[..i];
        SyncSource(batch[i].source);
      }
      assert batch[..|batch|] == batch;
    }

    /** `SnapshotRepository.add` */
    method AddRow(s: Snapshot) returns (inserted: bool)
      modifies this`rows
      ensures inserted <==> Insertable(old(rows), sources, s)
      ensures rows == if inserted then old(rows) + [s] else old(rows)
    {
      inserted := Insertable(rows, sources, s);
      if inserted {
        rows := rows + [s];
      }
    }

    /** One snapshot that is not a duplicate: its file, unless that save fails, and then its row. */
    method SaveAndAdd(s: Snapshot, saveFails: bool) returns (saved: bool, inserted: bool)
      modifies this`rows, this`files
      ensures saved <==> !saveFails
      ensures inserted <==> saved && Insertable(old(rows), sources, s)
      ensures files == if saved then old(files)[s.id := s] else old(files)
      ensures rows == if inserted then old(rows) + [s] else old(rows)
    {
      saved, inserted := !saveFails, false;
      if saved {
        files := files[s.id := s];
        inserted := AddRow(s);
      }
    }

    /**
     The snapshot loop.  `created` lists the files written; `failed` says that a save or an insert raised, and then
     the rows are still those of the transaction under way.
     */
    method AddSnapshots(batch: seq<Fetched>, failingSave: Option<nat>)
      returns (created: seq<Snapshot>, duplicates: nat, failed: bool)
      modifies this`rows, this`files
      ensures Loaded(old(rows), sources, old(files), batch, failingSave, rows, files, created, duplicates, failed)
    {
      created, duplicates, failed := [], 0, false;
      ghost var before, filesBefore := rows, files;
      ProgressStart(before, sources, filesBefore, batch, failingSave);
      for i := 0 to |batch|
        invariant Progress(before, sources, filesBefore, batch, failingSave, i, rows, files, created, duplicates)
      {
        var s := batch[i].snapshot;
        if Duplicate(rows, s) {
          DuplicateStep(before, sources, filesBefore, batch, failingSave, i, rows, files, created, duplicates);
          duplicates := duplicates + 1;
        } else {
          SaveStep(before, sources, filesBefore, batch, failingSave, i, rows, files, created, duplicates);
          var saved, inserted := SaveAndAdd(s, failingSave == Some(|created|));
          created := if saved then created + [s] else created;
          if !inserted {
            failed := true;
            return;
          }
        }
      }
      ProgressEnd(before, sources, filesBefore, batch, failingSave, rows, files, created, duplicates);
    }

    /** `_verify_persisted`: sources read back unchanged, and every new row has its file. */
    method VerifyPersisted(added: seq<Snapshot>, batch: seq<Fetched>) returns (ok: bool)
      ensures ok <==> ReadsBack(sources, batch) && Stored(rows, files, added)
    {
      for i := 0 to |batch|
        invariant forall k | 0 <= k < i ::
                    batch[k].source.id in sources && sources[batch[k].source.id] == batch[k].source
      {
        var f := batch[i].source;
        if f.id !in sources || sources[f.id] != f {
          assert batch[i] in batch;
          return false;
        }
      }
      for i := 0 to |added|
        invariant forall k | 0 <= k < i :: added[k].id in Ids(rows) && added[k].id in files
      {
        if added[i].id !in Ids(rows) || added[i].id !in files {
          assert added[i] in added;
          return false;
        }
      }
      return true;
    }

    /** Undo: the files written by the failed run are removed in order, all of them unless the process is killed. */
    method Unlink(created: seq<Snapshot>, count: nat)
      requires count <= |created|
      modifies this`files
      ensures files == old(files) - Ids(created[..count])
    {
      ghost var before := files;
      for i := 0 to count
        invariant files == before - Ids(created[..i])
      {
        assert created[..i + 1] == created[..i] + [created[i]];
        assert Ids(created[..i + 1]) == Ids(created[..i]) + {created[i].id};
        files := files - {created[i].id};
      }
    }

    /** The transaction of `_persist`, undone when anything in it raises. */
    method PersistRows(batch: seq<Fetched>, faults: Faults)
      returns (created: seq<Snapshot>, duplicates: nat, raised: bool)
      modifies this
      ensures raised <==> Fails(old(State()), batch, faults)
      ensures State() == AfterRun(old(State()), batch, faults)
      ensures !raised ==> created == NewRows(old(rows), batch) && |created| + duplicates == |batch|
    {
      var savedSources, savedRows := sources, rows;
      ghost var before := State();
      SyncAll(batch);
      created, duplicates, raised := AddSnapshots(batch, faults.failingSave);
      assert created == Saved(before, batch, faults);
      if raised || faults.commitFails {
        sources, rows := savedSources, savedRows;
        Unlink(created, Undone(faults, |created|));
        raised := true;
      }
    }

    /** `_persist`, and the counts and checks it ends with; a killed process answers `Raised` to nobody. */
    method Persist(batch: seq<Fetched>, faults: Faults) returns (outcome: Outcome)
      modifies this
      ensures State() == AfterRun(old(State()), batch, faults)
      ensures outcome.Raised? <==> Fails(old(State()), batch, faults)
      ensures outcome.VerificationFailed? <==> !outcome.Raised? && !Consistent(batch)
      ensures outcome.Collected? ==>
                outcome.result.fetched == |batch| && outcome.result.persisted == |NewRows(old(rows), batch)|
                && outcome.result.fetched == outcome.result.persisted + outcome.result.duplicates
                && |outcome.result.sourceIds| == |batch|
                && forall i | 0 <= i < |batch| :: outcome.result.sourceIds[i] == batch[i].source.id
    {
      ghost var savedRows, savedSources, savedFiles := rows, sources, files;
      var created, duplicates, raised := PersistRows(batch, faults);
      if raised {
        return Raised;
      }
      var ok := VerifyPersisted(created, batch);
      SyncReadsBack(savedSources, batch);
      NewRowsStored(savedRows, savedFiles, created);
      if !ok {
        return VerificationFailed;
      }
      return Collected(RunResult(|batch|, |created|, duplicates, SourceIds(batch)));
    }
  }

  lemma NewRowsStored(before: seq<Snapshot>, files: map<string, Snapshot>, created: seq<Snapshot>)
    ensures Stored(before + created, files + FileMap(created), created)
  {
    FileMapKeys(created);
    forall s | s in created
      ensures s.id in Ids(before + created) && s.id in files + FileMap(created)
    {
      assert s in before + created;
    }
  }

  /** A failed run restores the files exactly when no row it wrote reused the identifier of a stored file. */
  lemma RestoredExactlyWhenFresh(files: map<string, Snapshot>, written: seq<Snapshot>)
    ensures files - Ids(written) == files <==> Ids(written) !! files.Keys
  {
    if !(Ids(written) !! files.Keys) {
      var k :| k in Ids(written) && k in files.Keys;
      assert k !in files - Ids(written);
    }
  }

  // ----- rows and files after one run -----

  /** A row of a successful run is inserted only under an identifier no row has. */
  lemma {:induction false} InsertedIsFresh(rows: seq<Snapshot>, sources: map<string, Source>, added: seq<Snapshot>)
    requires AllInsertable(rows, sources, added)
    ensures Ids(added) !! Ids(rows)
  {
    if added != [] {
      var n := |added| - 1;
      InsertedIsFresh(rows, sources, added[..n]);
      assert added == added[..n] + [added[n]];
      assert Ids(added) == Ids(added[..n]) + {added[n].id};
      assert forall r | r in rows :: r in rows + added[..n];
    }
  }

  lemma {:induction false} WrittenAll(rows: seq<Snapshot>, sources: map<string, Source>, added: seq<Snapshot>,
                                      failingSave: Option<nat>, i: nat)
    requires i <= |added| && Goes(rows, sources, added, failingSave)
    ensures Written(rows, sources, added, failingSave, i) == |added|
    decreases |added| - i
  {
    if i < |added| {
      assert added[..i + 1][..i] == added[..i];
      GoesPrefix(rows, sources, added[..i + 1], added, failingSave);
      WrittenAll(rows, sources, added, failingSave, i + 1);
    }
  }

  /** A successful run writes the files of all its new rows, under identifiers that were free. */
  lemma SuccessIsFresh(st: Store, batch: seq<Fetched>, faults: Faults)
    requires !Fails(st, batch, faults)
    ensures Saved(st, batch, faults) == NewRows(st.rows, batch) && Ids(Saved(st, batch, faults)) !! Ids(st.rows)
  {
    var added, synced := NewRows(st.rows, batch), Synced(st.sources, batch);
    WrittenAll(st.rows, synced, added, faults.failingSave, 0);
    InsertedIsFresh(st.rows, synced, added);
    assert added[..|added|] == added;
  }

  lemma {:induction false} FileMapHolds(rows: seq<Snapshot>, k: string)
    requires k in FileMap(rows)
    ensures FileMap(rows)[k] in rows && FileMap(rows)[k].id == k
  {
    var n := |rows| - 1;
    if k != rows[n].id {
      FileMapHolds(rows[..n], k);
    }
  }

  /** Every stored row has its own file; files of no row may lie beside it. */
  ghost predicate RowsHaveFiles(rows: seq<Snapshot>, files: map<string, Snapshot>) {
    forall k | k in FileMap(rows) :: k in files && files[k] == FileMap(rows)[k]
  }

  /** The files a run writes go under identifiers of no stored row. */
  ghost predicate Fresh(st: Store, batch: seq<Fetched>, faults: Faults) {
    Ids(Saved(st, batch, faults)) !! Ids(st.rows)
  }

  lemma SavedIsNew(st: Store, batch: seq<Fetched>, faults: Faults, s: Snapshot)
    requires s in Saved(st, batch, faults)
    ensures s !in st.rows
  {
    var added := NewRows(st.rows, batch);
    var k :| 0 <= k < |added| && added[k] == s;
    NewRowsFresh(st.rows, batch, k);
    assert s in st.rows ==> SamePair(s, s) && Duplicate(st.rows, s);
  }

  /** After a failed run a reused identifier has no file or the new content, never the stored row's own. */
  lemma ReusedIsDamaged(st: Store, batch: seq<Fetched>, faults: Faults, k: string)
    requires Fails(st, batch, faults) && k in Ids(Saved(st, batch, faults)) && k in Ids(st.rows)
    ensures var t := AfterRun(st, batch, faults);
            k in FileMap(st.rows) && (k !in t.files || t.files[k] != FileMap(st.rows)[k])
  {
    var written := Saved(st, batch, faults);
    FileMapKeys(st.rows);
    FileMapKeys(written);
    FileMapHolds(st.rows, k);
    FileMapHolds(written, k);
    SavedIsNew(st, batch, faults, FileMap(written)[k]);
  }

  /** A prefix has no other identifiers. */
  lemma RemovedIds(st: Store, batch: seq<Fetched>, faults: Faults)
    ensures Ids(Removed(st, batch, faults)) <= Ids(Saved(st, batch, faults))
  {
  }

  lemma FreshRunKeepsFiles(st: Store, batch: seq<Fetched>, faults: Faults)
    requires Fails(st, batch, faults) && Fresh(st, batch, faults)
    ensures forall k | k in Ids(st.rows) ::
              var t := AfterRun(st, batch, faults);
              (k in t.files <==> k in st.files) && (k in t.files ==> t.files[k] == st.files[k])
  {
    FileMapKeys(Saved(st, batch, faults));
    RemovedIds(st, batch, faults);
  }

  /** A run, killed or not, keeps every stored row's file exactly when the identifiers it writes under are fresh. */
  lemma RunKeepsRowsFilesIff(st: Store, batch: seq<Fetched>, faults: Faults)
    requires RowsHaveFiles(st.rows, st.files)
    ensures var t := AfterRun(st, batch, faults); RowsHaveFiles(t.rows, t.files) <==> Fresh(st, batch, faults)
  {
    FileMapKeys(st.rows);
    if !Fails(st, batch, faults) {
      SuccessIsFresh(st, batch, faults);
      FileMapAppend(st.rows, NewRows(st.rows, batch));
    } else if Fresh(st, batch, faults) {
      FreshRunKeepsFiles(st, batch, faults);
    } else {
      var k :| k in Ids(Saved(st, batch, faults)) && k in Ids(st.rows);
      ReusedIsDamaged(st, batch, faults, k);
    }
  }

  /** A failed run whose undo is cut short leaves a file behind that belongs to no row. */
  ghost predicate LeavesAFile(st: Store, batch: seq<Fetched>, faults: Faults) {
    Fails(st, batch, faults) && !(Ids(Saved(st, batch, faults)) <= Ids(Removed(st, batch, faults)))
  }

  lemma LeftFileStays(st: Store, batch: seq<Fetched>, faults: Faults)
    requires LeavesAFile(st, batch, faults) && Fresh(st, batch, faults)
    ensures AfterRun(st, batch, faults).files != FileMap(st.rows)
  {
    FileMapKeys(st.rows);
    FileMapKeys(Saved(st, batch, faults));
    var k :| k in Ids(Saved(st, batch, faults)) && k !in Ids(Removed(st, batch, faults));
    assert k in AfterRun(st, batch, faults).files;
  }

  lemma UndoneRunRestores(st: Store, batch: seq<Fetched>, faults: Faults)
    requires Fails(st, batch, faults) && !LeavesAFile(st, batch, faults) && Fresh(st, batch, faults)
    requires st.files.Keys == Ids(st.rows)
    ensures AfterRun(st, batch, faults).files == st.files
  {
    FileMapKeys(Saved(st, batch, faults));
    RemovedIds(st, batch, faults);
    assert Ids(Removed(st, batch, faults)) == Ids(Saved(st, batch, faults));
  }

  /**
   Rows and files that match one to one still match after a run, killed or not, exactly when its identifiers are fresh
   and no written file is left behind.
   */
  lemma RunKeepsFilesIff(st: Store, batch: seq<Fetched>, faults: Faults)
    requires FilesMatch(st.rows, st.files)
    ensures var t := AfterRun(st, batch, faults);
            FilesMatch(t.rows, t.files) <==> Fresh(st, batch, faults) && !LeavesAFile(st, batch, faults)
  {
    FileMapKeys(st.rows);
    if !Fails(st, batch, faults) {
      SuccessIsFresh(st, batch, faults);
      FileMapAppend(st.rows, NewRows(st.rows, batch));
    } else if !Fresh(st, batch, faults) {
      var k :| k in Ids(Saved(st, batch, faults)) && k in Ids(st.rows);
      ReusedIsDamaged(st, batch, faults, k);
    } else if LeavesAFile(st, batch, faults) {
      LeftFileStays(st, batch, faults);
    } else {
      UndoneRunRestores(st, batch, faults);
    }
  }

  /** A run that fails without being killed leaves nothing behind. */
  lemma UnkilledLeavesNothing(st: Store, batch: seq<Fetched>, faults: Faults)
    requires faults.undoStops.None?
    ensures !LeavesAFile(st, batch, faults)
  {
    var written := Saved(st, batch, faults);
    assert written[..|written|] == written;
  }

  /** A run killed before its undo leaves something behind exactly when it had written a file. */
  lemma KilledLeavesIffWritten(st: Store, batch: seq<Fetched>, faults: Faults)
    requires Fails(st, batch, faults) && faults.undoStops == Some(0)
    ensures LeavesAFile(st, batch, faults) <==> Saved(st, batch, faults) != []
  {
    var written := Saved(st, batch, faults);
    assert Removed(st, batch, faults) == [] && Ids([]) == {};
    if written != [] {
      assert written[0] in written && written[0].id in Ids(written);
    }
  }

  /** Fetching new content under a stored identifier makes the run raise, and the stored row loses its file. */
  lemma ReusedIdentifierLosesAFile(st: Store, s: Snapshot, source: Source)
    requires FilesMatch(st.rows, st.files) && s.id in Ids(st.rows) && !Duplicate(st.rows, s)
    ensures var batch, faults := [Fetched(source, s)], Faults(None, false, None);
            var t := AfterRun(st, batch, faults);
            Fails(st, batch, faults) && t.rows == st.rows && s.id !in t.files && !FilesMatch(t.rows, t.files)
  {
    var batch, faults := [Fetched(source, s)], Faults(None, false, None);
    NewRowsStep(st.rows, batch, 0);
    assert batch[..0] == [] && batch[..1] == batch && st.rows + [] == st.rows;
    var added, synced := NewRows(st.rows, batch), Synced(st.sources, batch);
    assert added == [s] && added[..0] == [] && added[..1] == added;
    assert !Insertable(st.rows + added[..0], synced, added[0]);
    assert Written(st.rows, synced, added, None, 0) == 1;
    assert Saved(st, batch, faults) == Removed(st, batch, faults) == [s];
    assert s in [s] && s.id in Ids([s]);
    FileMapKeys(st.rows);
  }

  // ----- over many runs -----

  datatype Collection = Collection(batch: seq<Fetched>, faults: Faults)

  function After(st: Store, c: Collection): Store {
    AfterRun(st, c.batch, c.faults)
  }

  function AfterRuns(st: Store, runs: seq<Collection>): Store
    decreases |runs|
  {
    if runs == [] then st else AfterRuns(After(st, runs[0]), runs[1..])
  }

  /** Over any runs, failed and killed ones included, rows are only added and no source ever stores one hash twice. */
  lemma {:induction false} RunsKeepDistinct(st: Store, runs: seq<Collection>)
    requires Distinct(st.rows)
    ensures var t := AfterRuns(st, runs); Distinct(t.rows) && st.rows <= t.rows
    decreases |runs|
  {
    if runs != [] {
      NewRowsDistinct(st.rows, runs[0].batch);
      RunsKeepDistinct(After(st, runs[0]), runs[1..]);
    }
  }

  // ----- the same, column by column -----

  /** No two rows have both source and hash in common. */
  ghost predicate PairsDiffer(rows: seq<Snapshot>) {
    forall i, j | 0 <= i < j < |rows| :: rows[i].sourceId != rows[j].sourceId || rows[i].sha256 != rows[j].sha256
  }

  /** Some row has the source and the hash of this snapshot. */
  ghost predicate HasPair(rows: seq<Snapshot>, s: Snapshot) {
    exists r :: r in rows && r.sourceId == s.sourceId && r.sha256 == s.sha256
  }

  /**
   A run that does not raise leaves a row for the source and hash of every fetched snapshot, has added only snapshots
   it fetched and that were missing, and keeps the pairs different.
   */
  lemma RunStoresEveryPair(st: Store, batch: seq<Fetched>, faults: Faults)
    requires !Fails(st, batch, faults)
    ensures var t := AfterRun(st, batch, faults);
            && (forall i | 0 <= i < |batch| :: HasPair(t.rows, batch[i].snapshot))
            && (forall r | r in t.rows && r !in st.rows ::
                  !HasPair(st.rows, r) && exists i :: 0 <= i < |batch| && batch[i].snapshot == r)
            && (PairsDiffer(st.rows) ==> PairsDiffer(t.rows))
  {
    var t, added := AfterRun(st, batch, faults), NewRows(st.rows, batch);
    forall i | 0 <= i < |batch|
      ensures HasPair(t.rows, batch[i].snapshot)
    {
      NewRowsCover(st.rows, batch, i);
    }
    forall r | r in t.rows && r !in st.rows
      ensures !HasPair(st.rows, r) && exists i :: 0 <= i < |batch| && batch[i].snapshot == r
    {
      var k :| 0 <= k < |added| && added[k] == r;
      NewRowsFresh(st.rows, batch, k);
    }
    if PairsDiffer(st.rows) {
      assert Distinct(st.rows);
      NewRowsDistinct(st.rows, batch);
    }
  }

  /** Over any runs no two rows ever have both source and hash in common. */
  lemma RunsKeepPairsDifferent(sources: map<string, Source>, files: map<string, Snapshot>, runs: seq<Collection>)
    ensures PairsDiffer(AfterRuns(Store(sources, [], files), runs).rows)
  {
    RunsKeepDistinct(Store(sources, [], files), runs);
  }

  /** Each row names a stored source. */
  ghost predicate SourcesKnown(st: Store) {
    forall r | r in st.rows :: r.sourceId in st.sources
  }

  lemma {:induction false} InsertedSourcesKnown(rows: seq<Snapshot>, sources: map<string, Source>, added: seq<Snapshot>)
    requires AllInsertable(rows, sources, added)
    ensures forall r | r in added :: r.sourceId in sources
  {
    if added != [] {
      var n := |added| - 1;
      InsertedSourcesKnown(rows, sources, added[..n]);
      assert added == added[..n] + [added[n]];
    }
  }

  lemma {:induction false} SyncedKeeps(sources: map<string, Source>, batch: seq<Fetched>)
    ensures sources.Keys <= Synced(sources, batch).Keys
    ensures forall k | k in sources && (forall i | 0 <= i < |batch| :: batch[i].source.id != k) ::
              Synced(sources, batch)[k] == sources[k]
  {
    if batch != [] {
      SyncedKeeps(sources, batch[..|batch| - 1]);
    }
  }

  /** Over any runs, failed and killed ones included, every row names a stored source. */
  lemma {:induction false} RunsKeepSourcesKnown(st: Store, runs: seq<Collection>)
    requires SourcesKnown(st)
    ensures SourcesKnown(AfterRuns(st, runs))
    decreases |runs|
  {
    if runs != [] {
      var batch := runs[0].batch;
      if !Fails(st, batch, runs[0].faults) {
        SyncedKeeps(st.sources, batch);
        InsertedSourcesKnown(st.rows, Synced(st.sources, batch), NewRows(st.rows, batch));
      }
      RunsKeepSourcesKnown(After(st, runs[0]), runs[1..]);
    }
  }

  /** No identifier twice among the new rows, none that a stored row has, and every source known. */
  ghost predicate Admissible(rows: seq<Snapshot>, sources: map<string, Source>, added: seq<Snapshot>) {
    && (forall i, j | 0 <= i < j < |added| :: added[i].id != added[j].id)
    && (forall i | 0 <= i < |added| :: added[i].sourceId in sources)
    && (forall i, r | 0 <= i < |added| && r in rows :: r.id != added[i].id)
  }

  lemma FreshPairInsertable(rows: seq<Snapshot>, sources: map<string, Source>, s: Snapshot)
    requires !Duplicate(rows, s)
    ensures Insertable(rows, sources, s) <==> s.sourceId in sources && forall r | r in rows :: r.id != s.id
  {
    assert forall r | r in rows :: !SamePair(r, s);
  }

  lemma AdmissibleOneMore(rows: seq<Snapshot>, sources: map<string, Source>, added: seq<Snapshot>, s: Snapshot)
    ensures Admissible(rows, sources, added + [s]) <==>
              Admissible(rows, sources, added) && s.sourceId in sources && forall r | r in rows + added :: r.id != s.id
  {
    var more := added + [s];
    assert more[|added|] == s && forall i | 0 <= i < |added| :: more[i] == added[i];
    if Admissible(rows, sources, more) {
      forall r | r in rows + added
        ensures r.id != s.id
      {
        if r in added {
          var i :| 0 <= i < |added| && added[i] == r;
          assert more[i].id != more[|added|].id;
        }
      }
      forall i, j | 0 <= i < j < |added|
        ensures added[i].id != added[j].id
      {
        assert more[i].id != more[j].id;
      }
      assert forall i | 0 <= i < |added| :: more[i].sourceId in sources;
      assert forall i, r | 0 <= i < |added| && r in rows :: r.id != more[i].id;
    } else if Admissible(rows, sources, added) && s.sourceId in sources {
      assert forall i | 0 <= i < |added| :: added[i] in rows + added;
    }
  }

  /** The table admits the new rows of a batch exactly by identifier and source: the UNIQUE triple never refuses one. */
  lemma {:induction false} InsertableIff(rows: seq<Snapshot>, sources: map<string, Source>, batch: seq<Fetched>)
    ensures AllInsertable(rows, sources, NewRows(rows, batch)) <==> Admissible(rows, sources, NewRows(rows, batch))
  {
    if batch != [] {
      var n := |batch| - 1;
      var before, s := NewRows(rows, batch[..n]), batch[n].snapshot;
      InsertableIff(rows, sources, batch[..n]);
      if !Duplicate(rows + before, s) {
        assert (before + [s])[..|before|] == before;
        FreshPairInsertable(rows + before, sources, s);
        AdmissibleOneMore(rows, sources, before, s);
      }
    }
  }

  /** The exact condition under which a run raises. */
  lemma RunFailsIff(st: Store, batch: seq<Fetched>, faults: Faults)
    ensures var added := NewRows(st.rows, batch);
            Fails(st, batch, faults) <==>
              || faults.commitFails || (faults.failingSave.Some? && faults.failingSave.value < |added|)
              || !Admissible(st.rows, Synced(st.sources, batch), added)
  {
    InsertableIff(st.rows, Synced(st.sources, batch), batch);
  }

  ghost predicate AllFresh(st: Store, runs: seq<Collection>)
    decreases |runs|
  {
    runs == [] || (Fresh(st, runs[0].batch, runs[0].faults) && AllFresh(After(st, runs[0]), runs[1..]))
  }

  /** Every stored row has its own file, now and after each run. */
  ghost predicate AlwaysHaveFiles(st: Store, runs: seq<Collection>)
    decreases |runs|
  {
    RowsHaveFiles(st.rows, st.files) && (runs == [] || AlwaysHaveFiles(After(st, runs[0]), runs[1..]))
  }

  /** Over any runs, killed ones included, stored rows always have their files exactly when identifiers are fresh. */
  lemma {:induction false} RunsKeepRowsFilesIff(st: Store, runs: seq<Collection>)
    requires RowsHaveFiles(st.rows, st.files)
    ensures AlwaysHaveFiles(st, runs) <==> AllFresh(st, runs)
    decreases |runs|
  {
    if runs != [] {
      RunKeepsRowsFilesIff(st, runs[0].batch, runs[0].faults);
      if Fresh(st, runs[0].batch, runs[0].faults) {
        RunsKeepRowsFilesIff(After(st, runs[0]), runs[1..]);
      }
    }
  }

  ghost predicate NothingLeft(st: Store, runs: seq<Collection>)
    decreases |runs|
  {
    runs == [] || (!LeavesAFile(st, runs[0].batch, runs[0].faults) && NothingLeft(After(st, runs[0]), runs[1..]))
  }

  ghost predicate AlwaysMatch(st: Store, runs: seq<Collection>)
    decreases |runs|
  {
    FilesMatch(st.rows, st.files) && (runs == [] || AlwaysMatch(After(st, runs[0]), runs[1..]))
  }

  /** Rows and files match one to one throughout exactly when identifiers are fresh and no kill leaves a file behind. */
  lemma {:induction false} RunsKeepFilesIff(st: Store, runs: seq<Collection>)
    requires FilesMatch(st.rows, st.files)
    ensures AlwaysMatch(st, runs) <==> AllFresh(st, runs) && NothingLeft(st, runs)
    decreases |runs|
  {
    if runs != [] {
      RunKeepsFilesIff(st, runs[0].batch, runs[0].faults);
      if Fresh(st, runs[0].batch, runs[0].faults) && !LeavesAFile(st, runs[0].batch, runs[0].faults) {
        RunsKeepFilesIff(After(st, runs[0]), runs[1..]);
      }
    }
  }

  /** Every insert is admitted and no save fails. */
  predicate Goes(rows: seq<Snapshot>, sources: map<string, Source>, added: seq<Snapshot>, failingSave: Option<nat>) {
    AllInsertable(rows, sources, added) && (failingSave.Some? ==> |added| <= failingSave.value)
  }

  /**
   How many new rows have their file written when the loop ends, from row `i` on: the refused row's file is among
   them.
   */
  function Written(rows: seq<Snapshot>, sources: map<string, Source>, added: seq<Snapshot>, failingSave: Option<nat>,
      i: nat): (n: nat)
    requires i <= |added|
    ensures i <= n <= |added|
    decreases |added| - i
  {
    if i == |added| || failingSave == Some(i) then i
    else if !Insertable(rows + added[..i], sources, added[i]) then i + 1
    else Written(rows, sources, added, failingSave, i + 1)
  }

  /** The new rows whose files are on disk when the loop ends. */
  function WrittenRows(rows: seq<Snapshot>, sources: map<string, Source>, added: seq<Snapshot>,
      failingSave: Option<nat>): seq<Snapshot> {
    added[..Written(rows, sources, added, failingSave, 0)]
  }

  lemma GoesStep(rows: seq<Snapshot>, sources: map<string, Source>, added: seq<Snapshot>, s: Snapshot,
      failingSave: Option<nat>)
    requires Goes(rows, sources, added, failingSave)
    ensures Goes(rows, sources, added + [s], failingSave)
            <==> Insertable(rows + added, sources, s) && failingSave != Some(|added|)
    ensures rows + added + [s] == rows + (added + [s])
  {
    assert (added + [s])[..|added|] == added;
  }

  lemma {:induction false} GoesPrefix(rows: seq<Snapshot>, sources: map<string, Source>, part: seq<Snapshot>,
      all: seq<Snapshot>, failingSave: Option<nat>)
    requires part <= all && Goes(rows, sources, all, failingSave)
    ensures Goes(rows, sources, part, failingSave)
  {
    if |part| < |all| {
      GoesPrefix(rows, sources, part, all[..|all| - 1], failingSave);
    } else {
      assert part == all;
    }
  }

  /** What the snapshot loop keeps. */
  ghost predicate Progress(before: seq<Snapshot>, sources: map<string, Source>, filesBefore: map<string, Snapshot>,
                           batch: seq<Fetched>, failingSave: Option<nat>, i: nat, rows: seq<Snapshot>,
                           files: map<string, Snapshot>, created: seq<Snapshot>, duplicates: nat)
    requires i <= |batch|
  {
    var all := NewRows(before, batch);
    && created == NewRows(before, batch[..i]) && created <= all && |created| + duplicates == i
    && rows == before + created && files == filesBefore + FileMap(created)
    && Goes(before, sources, created, failingSave)
    && Written(before, sources, all, failingSave, 0) == Written(before, sources, all, failingSave, |created|)
  }

  /** How the snapshot loop ends: every file written is a new row's, and it fails exactly when some step was refused. */
  ghost predicate Loaded(before: seq<Snapshot>, sources: map<string, Source>, filesBefore: map<string, Snapshot>,
                         batch: seq<Fetched>, failingSave: Option<nat>, rows: seq<Snapshot>,
                         files: map<string, Snapshot>, created: seq<Snapshot>, duplicates: nat, failed: bool) {
    var all := NewRows(before, batch);
    && created == WrittenRows(before, sources, all, failingSave) && files == filesBefore + FileMap(created)
    && (failed <==> !Goes(before, sources, all, failingSave))
    && (!failed ==> rows == before + created && created == all && |created| + duplicates == |batch|)
  }

  lemma ProgressEnd(before: seq<Snapshot>, sources: map<string, Source>, filesBefore: map<string, Snapshot>,
                    batch: seq<Fetched>, failingSave: Option<nat>, rows: seq<Snapshot>,
                    files: map<string, Snapshot>, created: seq<Snapshot>, duplicates: nat)
    requires Progress(before, sources, filesBefore, batch, failingSave, |batch|, rows, files, created, duplicates)
    ensures Loaded(before, sources, filesBefore, batch, failingSave, rows, files, created, duplicates, false)
  {
    var all := NewRows(before, batch);
    assert batch[..|batch|] == batch;
    assert all[..|all|] == all;
  }

  lemma ProgressStart(before: seq<Snapshot>, sources: map<string, Source>, filesBefore: map<string, Snapshot>,
                      batch: seq<Fetched>, failingSave: Option<nat>)
    ensures Progress(before, sources, filesBefore, batch, failingSave, 0, before, filesBefore, [], 0)
  {
    assert before + [] == before && batch[..0] == [];
    assert filesBefore + map[] == filesBefore;
  }

  lemma DuplicateStep(before: seq<Snapshot>, sources: map<string, Source>, filesBefore: map<string, Snapshot>,
                      batch: seq<Fetched>, failingSave: Option<nat>, i: nat, rows: seq<Snapshot>,
                      files: map<string, Snapshot>, created: seq<Snapshot>, duplicates: nat)
    requires i < |batch|
    requires Progress(before, sources, filesBefore, batch, failingSave, i, rows, files, created, duplicates)
    requires Duplicate(rows, batch[i].snapshot)
    ensures Progress(before, sources, filesBefore, batch, failingSave, i + 1, rows, files, created, duplicates + 1)
  {
    NewRowsStep(before, batch, i);
  }

  /** A snapshot that is not a duplicate becomes the next new row, with its file. */
  lemma NextRow(before: seq<Snapshot>, sources: map<string, Source>, filesBefore: map<string, Snapshot>,
                 batch: seq<Fetched>, failingSave: Option<nat>, i: nat, rows: seq<Snapshot>,
                 files: map<string, Snapshot>, created: seq<Snapshot>, duplicates: nat)
    requires i < |batch|
    requires Progress(before, sources, filesBefore, batch, failingSave, i, rows, files, created, duplicates)
    requires !Duplicate(rows, batch[i].snapshot)
    ensures var s, all := batch[i].snapshot, NewRows(before, batch);
            created + [s] == NewRows(before, batch[..i + 1]) && created + [s] <= all && |created| < |all|
            && all[..|created|] == created && all[|created|] == s && all[..|created| + 1] == created + [s]
            && files[s.id := s] == filesBefore + FileMap(created + [s]) && rows + [s] == before + (created + [s])
  {
    var s, all := batch[i].snapshot, NewRows(before, batch);
    NewRowsStep(before, batch, i);
    FilesOne(filesBefore, created, s);
    PrefixSplits(created, s, all);
    assert rows + [s] == before + (created + [s]);
  }

  lemma PrefixSplits(created: seq<Snapshot>, s: Snapshot, all: seq<Snapshot>)
    requires created + [s] <= all
    ensures |created| < |all| && all[..|created|] == created && all[|created|] == s
            && all[..|created| + 1] == created + [s]
  {
    assert all[..|created|] == (created + [s])[..|created|];
    assert all[|created|] == (created + [s])[|created|];
  }

  /** What a refused save or insert of the next new row means for the whole batch. */
  lemma Refused(before: seq<Snapshot>, sources: map<string, Source>, all: seq<Snapshot>, failingSave: Option<nat>,
      n: nat)
    requires n < |all| && Goes(before, sources, all[..n], failingSave)
    ensures failingSave == Some(n) || !Insertable(before + all[..n], sources, all[n])
            ==> !Goes(before, sources, all, failingSave)
  {
    var part := all[..n] + [all[n]];
    assert part == all[..n + 1];
    GoesStep(before, sources, all[..n], all[n], failingSave);
    if Goes(before, sources, all, failingSave) {
      GoesPrefix(before, sources, part, all, failingSave);
    }
  }

  /** A snapshot that is not a duplicate: the next state if its file and row are accepted, and what a refusal means. */
  lemma SaveStep(before: seq<Snapshot>, sources: map<string, Source>, filesBefore: map<string, Snapshot>,
                 batch: seq<Fetched>, failingSave: Option<nat>, i: nat, rows: seq<Snapshot>,
                 files: map<string, Snapshot>, created: seq<Snapshot>, duplicates: nat)
    requires i < |batch|
    requires Progress(before, sources, filesBefore, batch, failingSave, i, rows, files, created, duplicates)
    requires !Duplicate(rows, batch[i].snapshot)
    ensures var s, n := batch[i].snapshot, |created|;
            var admitted := Insertable(rows, sources, s);
            && (failingSave == Some(n) ==>
                  Loaded(before, sources, filesBefore, batch, failingSave, rows, files, created, duplicates, true))
            && (failingSave != Some(n) && !admitted ==>
                  Loaded(before, sources, filesBefore, batch, failingSave, rows, files[s.id := s], created + [s],
                      duplicates, true))
            && (failingSave != Some(n) && admitted ==>
                  Progress(before, sources, filesBefore, batch, failingSave, i + 1, rows + [s], files[s.id := s],
                      created + [s], duplicates))
  {
    var s, all := batch[i].snapshot, NewRows(before, batch);
    NextRow(before, sources, filesBefore, batch, failingSave, i, rows, files, created, duplicates);
    Refused(before, sources, all, failingSave, |created|);
    GoesStep(before, sources, created, s, failingSave);
  }

  lemma NewRowsStep(rows: seq<Snapshot>, batch: seq<Fetched>, i: nat)
    requires i < |batch|
    ensures var before := NewRows(rows, batch[..i]); var s := batch[i].snapshot;
            NewRows(rows, batch[..i + 1]) == (if Duplicate(rows + before, s) then before else before + [s])
            && NewRows(rows, batch[..i + 1]) <= NewRows(rows, batch)
  {
    assert batch[..i + 1][..i] == batch[..i];
    NewRowsPrefix(rows, batch, i + 1);
  }

  lemma {:induction false} NewRowsPrefix(rows: seq<Snapshot>, batch: seq<Fetched>, i: nat)
    requires i <= |batch|
    ensures NewRows(rows, batch[..i]) <= NewRows(rows, batch)
  {
    if i < |batch| {
      var n := |batch| - 1;
      NewRowsPrefix(rows, batch[..n], i);
      assert batch[..n][..i] == batch[..i];
    } else {
      assert batch[..i] == batch;
    }
  }
}
