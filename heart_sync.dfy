/** The sync command (`heart sync`): checks that the memory root exists, backs
    up an existing database (or creates the schema for a new one), parses every
    memory file under the root and upserts each into the `memories` table,
    counting inserts, updates and failures, and finally reads the statistics. */
module HeartSync {
  import opened Wrappers
  import opened Text
  import opened MemoryTypes
  import opened MemoryStore
  import MemoryParser

  /** The three counters of the sync loop. */
  datatype Tally = Tally(inserted: nat, updated: nat, errors: nat)

  /** The tables after the loop has handled `ms`: each memory whose database
      step does not throw (`fails`) is upserted, in order. */
  function SyncTables(t: Tables, ms: seq<ParsedMemory>, fails: ParsedMemory -> bool): (u: Tables)
    requires Valid(t)
    ensures Valid(u)
    decreases |ms|
  {
    if ms == [] then t
    else
      var n := |ms| - 1;
      var u := SyncTables(t, ms[..n], fails);
      if fails(ms[n]) then u else Upsert(u, ms[n])
  }

  /** The counters after the loop has handled `ms`: each memory bumps exactly
      one of them, `errors` when its step throws, `updated` when a row with its
      file name existed just before, `inserted` otherwise. */
  function SyncTally(t: Tables, ms: seq<ParsedMemory>, fails: ParsedMemory -> bool): (c: Tally)
    requires Valid(t)
    ensures c.inserted + c.updated + c.errors == |ms|
    decreases |ms|
  {
    if ms == [] then Tally(0, 0, 0)
    else
      var n := |ms| - 1;
      var c := SyncTally(t, ms[..n], fails);
      if fails(ms[n]) then c.(errors := c.errors + 1)
      else if ms[n].filename in SyncTables(t, ms[..n], fails).memories then c.(updated := c.updated + 1)
      else c.(inserted := c.inserted + 1)
  }

  /** The file names of the memories whose database step does not throw. */
  function Names(ms: seq<ParsedMemory>, fails: ParsedMemory -> bool): (names: set<string>)
    ensures forall i :: 0 <= i < |ms| && !fails(ms[i]) ==> ms[i].filename in names
    ensures forall f :: f in names ==> exists i :: 0 <= i < |ms| && !fails(ms[i]) && ms[i].filename == f
    decreases |ms|
  {
    if ms == [] then {}
    else
      var n := |ms| - 1;
      var init := Names(ms[..n], fails);
      assert forall i :: 0 <= i < n ==> ms[..n][i] == ms[i];
      if fails(ms[n]) then init else init + {ms[n].filename}
  }

  /** The memories whose database step throws. */
  function Failing(ms: seq<ParsedMemory>, fails: ParsedMemory -> bool): (bad: seq<ParsedMemory>)
    ensures |bad| <= |ms|
    decreases |ms|
  {
    if ms == [] then []
    else
      var n := |ms| - 1;
      Failing(ms[..n], fails) + (if fails(ms[n]) then [ms[n]] else [])
  }

  /** The rows after the sync are those before plus one per file name that did
      not fail. */
  lemma {:induction false} SyncedKeys(t: Tables, ms: seq<ParsedMemory>, fails: ParsedMemory -> bool)
    requires Valid(t)
    ensures SyncTables(t, ms, fails).memories.Keys == t.memories.Keys + Names(ms, fails)
    decreases |ms|
  {
    if ms != [] {
      SyncedKeys(t, ms[..|ms| - 1], fails);
    }
  }

  /** `errors` counts exactly the memories whose step threw. */
  lemma {:induction false} ErrorsAreFailures(t: Tables, ms: seq<ParsedMemory>, fails: ParsedMemory -> bool)
    requires Valid(t)
    ensures SyncTally(t, ms, fails).errors == |Failing(ms, fails)|
    decreases |ms|
  {
    if ms != [] {
      ErrorsAreFailures(t, ms[..|ms| - 1], fails);
    }
  }

  /** Each insert adds one row and nothing else adds any. */
  lemma {:induction false} InsertsAreNewRows(t: Tables, ms: seq<ParsedMemory>, fails: ParsedMemory -> bool)
    requires Valid(t)
    ensures SyncTally(t, ms, fails).inserted == |SyncTables(t, ms, fails).memories| - |t.memories|
    decreases |ms|
  {
    if ms != [] {
      var n := |ms| - 1;
      InsertsAreNewRows(t, ms[..n], fails);
      var u := SyncTables(t, ms[..n], fails);
      if !fails(ms[n]) {
        var v := Upsert(u, ms[n]);
        if ms[n].filename in u.memories {
          assert v.memories.Keys == u.memories.Keys;
        } else {
          assert v.memories.Keys == u.memories.Keys + {ms[n].filename};
        }
        assert |v.memories| == |v.memories.Keys| && |u.memories| == |u.memories.Keys|;
      }
    }
  }

  /** On a fresh database, memories with distinct file names are all inserted
      when nothing fails, one row each. */
  lemma {:induction false} FreshSyncInsertsAll(ms: seq<ParsedMemory>, fails: ParsedMemory -> bool)
    requires forall i :: 0 <= i < |ms| ==> !fails(ms[i])
    requires forall i, j :: 0 <= i < j < |ms| ==> ms[i].filename != ms[j].filename
    ensures SyncTally(EmptyTables(), ms, fails) == Tally(|ms|, 0, 0)
    ensures |SyncTables(EmptyTables(), ms, fails).memories| == |ms|
    decreases |ms|
  {
    if ms != [] {
      var n := |ms| - 1;
      var init := ms[..n];
      forall i | 0 <= i < n ensures init[i].filename != ms[n].filename && !fails(init[i]) {
        assert init[i] == ms[i];
      }
      FreshSyncInsertsAll(init, fails);
      SyncedKeys(EmptyTables(), init, fails);
      assert ms[n].filename !in SyncTables(EmptyTables(), init, fails).memories;
    }
    InsertsAreNewRows(EmptyTables(), ms, fails);
  }

  /** Running the sync over memories whose rows all exist, nothing failing,
      counts every memory as updated and adds no row. */
  lemma {:induction false} ResyncUpdatesAll(t: Tables, ms: seq<ParsedMemory>, fails: ParsedMemory -> bool)
    requires Valid(t)
    requires forall i :: 0 <= i < |ms| ==> ms[i].filename in t.memories && !fails(ms[i])
    ensures SyncTally(t, ms, fails) == Tally(0, |ms|, 0)
    ensures SyncTables(t, ms, fails).memories.Keys == t.memories.Keys
    decreases |ms|
  {
    if ms != [] {
      var n := |ms| - 1;
      var init := ms[..n];
      forall i | 0 <= i < n ensures init[i].filename in t.memories && !fails(init[i]) {
        assert init[i] == ms[i];
      }
      ResyncUpdatesAll(t, init, fails);
    }
  }

  /** Synced twice: the first run leaves every file name in the table, so the
      second inserts nothing. */
  lemma SecondSyncOnlyUpdates(t: Tables, ms: seq<ParsedMemory>, fails: ParsedMemory -> bool)
    requires Valid(t)
    requires forall i :: 0 <= i < |ms| ==> !fails(ms[i])
    ensures SyncTally(SyncTables(t, ms, fails), ms, fails) == Tally(0, |ms|, 0)
  {
    SyncedKeys(t, ms, fails);
    ResyncUpdatesAll(SyncTables(t, ms, fails), ms, fails);
  }

  /** `main`'s loop: for each memory read the existing row, upsert, and count
      an update or an insert; a memory whose database step throws is counted
      as an error and the loop goes on. */
  method SyncMemories(db: MemoryDB, memories: seq<ParsedMemory>, fails: ParsedMemory -> bool)
    returns (tally: Tally)
    requires db.open && Valid(db.file.tables)
    modifies db.file`tables
    ensures db.file.tables == SyncTables(old(db.file.tables), memories, fails)
    ensures tally == SyncTally(old(db.file.tables), memories, fails)
  {
    var inserted, updated, errors := 0, 0, 0;
    for i := 0 to |memories|
      invariant Valid(db.file.tables)
      invariant db.file.tables == SyncTables(old(db.file.tables), memories[..i], fails)
      invariant Tally(inserted, updated, errors) == SyncTally(old(db.file.tables), memories[..i], fails)
    {
      assert memories[..i + 1][..i] == memories[..i];
      if fails(memories[i]) {
        errors := errors + 1;
      } else {
        var existing := db.GetMemory(memories[i].filename);
        db.UpsertMemory(memories[i]);
        if existing.Some? {
          updated := updated + 1;
        } else {
          inserted := inserted + 1;
        }
      }
    }
    assert memories[..|memories|] == memories;
    tally := Tally(inserted, updated, errors);
  }

  // ---------------------------------------------------------------------------
  // The command
  // ---------------------------------------------------------------------------

  /** `toISOString().replace(/[:.]/g, '-')`. */
  function Dashed(s: string): (r: string)
    ensures |r| == |s|
    ensures forall i :: 0 <= i < |s| ==> r[i] == (if s[i] == ':' || s[i] == '.' then '-' else s[i])
  {
    if s == [] then []
    else [if s[0] == ':' || s[0] == '.' then '-' else s[0]] + Dashed(s[1..])
  }

  /** The backup's path under the memory root. */
  function BackupPath(now: string): (path: string)
    ensures StartsWith(path, ".backups/my-heart-") && EndsWith(path, ".db")
    ensures forall i :: 18 <= i < |path| - 3 ==> path[i] != ':' && path[i] != '.'
  {
    ".backups/my-heart-" + Dashed(now) + ".db"
  }

  /** A copy of the database file taken before the sync. */
  datatype Backup = Backup(path: string, tables: Tables)

  datatype SyncResult =
    | RootMissing
    | Synced(tally: Tally, stats: Stats)

  /** `main`. `rootExists` and `dbExists` are the two existence checks, `now`
      the clock reading for the backup name, `entries` the tree under the
      memory root, `read` gray-matter and `fails` whether the database step
      throws for a memory. Without a memory root nothing happens; otherwise an
      existing database is backed up first and a missing one starts empty. */
  method Sync(rootExists: bool, dbExists: bool, file: DatabaseFile, now: string,
              entries: seq<MemoryParser.Entry>, read: string -> MemoryParser.Matter,
              fails: ParsedMemory -> bool)
    returns (result: SyncResult, backup: Option<Backup>)
    requires Valid(file.tables)
    modifies file
    ensures file.connections == old(file.connections)
    ensures !rootExists ==> result == RootMissing && backup.None? && file.tables == old(file.tables)
    ensures rootExists ==>
      var start := if dbExists then old(file.tables) else EmptyTables();
      var memories := MemoryParser.Parsed(entries, read);
      var synced := SyncTables(start, memories, fails);
      backup == (if dbExists then Some(Backup(BackupPath(now), old(file.tables))) else None) &&
      file.tables == synced &&
      result == Synced(SyncTally(start, memories, fails), Statistics(synced))
  {
    if !rootExists {
      result, backup := RootMissing, None;
    } else {
      if dbExists {
        backup := Some(Backup(BackupPath(now), file.tables));
      } else {
        backup := None;
        file.tables := EmptyTables();
      }
      var db := new MemoryDB(file);
      var memories := MemoryParser.ParseMemoryDirectory(entries, read);
      var tally := SyncMemories(db, memories, fails);
      var stats := db.GetStats();
      db.Close();
      result := Synced(tally, stats);
    }
  }
}
