/** The write route (`POST /api/heart/write`): checks the request, writes the
    memory file with its header, snapshots the previous row (and diffs against
    it) before the upsert, regenerates `index.md`, closes the connection, and
    finally tries to set the file's modification time from `updated_at`. */
module HeartWrite {
  import opened Wrappers
  import opened Text
  import opened MemoryTypes
  import opened MemoryStore
  import opened MemoryFile
  import Files
  import IndexGenerator
  import opened HeartRoutes

  /** The request body; every field may be missing. */
  datatype WriteRequest = WriteRequest(
    filename: Option<string>,
    frontmatter: Option<RawFrontmatter>,
    content: Option<string>)

  datatype WriteResponse =
    | Written(filename: string, updatedAt: string, isUpdate: bool, diff: Option<string>)
    | Failed(error: string)

  const MissingFields := "Missing required fields: filename, frontmatter, content"
  const MissingFrontmatterFields :=
    "Frontmatter missing required fields: title, date, categories, created_at, updated_at"
  /** The `TypeError` `buildFrontmatter` throws when `categories` is a string. */
  const CategoriesNotAList := "fm.categories.map is not a function"

  /** The request-level check: body, filename, frontmatter and content present
      and (for the strings) non-empty. */
  predicate RequestComplete(body: Option<WriteRequest>) {
    body.Some? && Truthy(body.value.filename) && body.value.frontmatter.Some? &&
    Truthy(body.value.content)
  }

  /** The header-level check on the five required fields. */
  predicate HeaderComplete(fm: RawFrontmatter) {
    Truthy(fm.title) && Truthy(fm.date) && CategoriesTruthy(fm.categories) &&
    Truthy(fm.createdAt) && Truthy(fm.updatedAt)
  }

  /** A request that passed the checks. */
  datatype ValidWrite = ValidWrite(filename: string, frontmatter: Frontmatter, content: string, updatedAt: string)

  /** The checks the handler makes before touching any file, in its order: the
      request fields, then the header fields, then (inside `buildFrontmatter`)
      that `categories` is a list. */
  function ValidateWrite(body: Option<WriteRequest>): (r: Result<ValidWrite>)
    ensures !RequestComplete(body) ==> r == Err(MissingFields)
    ensures RequestComplete(body) && !HeaderComplete(body.value.frontmatter.value) ==>
      r == Err(MissingFrontmatterFields)
    ensures RequestComplete(body) && HeaderComplete(body.value.frontmatter.value) ==>
      (body.value.frontmatter.value.categories.value.CategoryText? ==> r == Err(CategoriesNotAList))
    ensures r.Ok? ==> RequestComplete(body) && HeaderComplete(body.value.frontmatter.value)
    ensures r.Ok? ==> var raw := body.value.frontmatter.value;
      r.value.filename == body.value.filename.value && r.value.content == body.value.content.value &&
      r.value.frontmatter.title == raw.title.value && r.value.frontmatter.categories == raw.categories.value.items &&
      r.value.frontmatter.updatedAt == raw.updatedAt.value && r.value.updatedAt == raw.updatedAt.value
  {
    if !RequestComplete(body) then Err(MissingFields)
    else
      var raw := body.value.frontmatter.value;
      if !HeaderComplete(raw) then Err(MissingFrontmatterFields)
      else if raw.categories.value.CategoryText? then Err(CategoriesNotAList)
      else Ok(ValidWrite(body.value.filename.value, Checked(raw), body.value.content.value, raw.updatedAt.value))
  }

  /** The file text the route writes. */
  function FileText(v: ValidWrite): string {
    FullContent(BuildFrontmatter(v.frontmatter), v.content)
  }

  /** The memory handed to `upsertMemory`: the whole file as `content`, the
      request's body as `rawContent`. */
  function ParsedOf(v: ValidWrite): (p: ParsedMemory)
    ensures p.filename == v.filename && p.frontmatter == v.frontmatter
    ensures p.content == FileText(v) && p.rawContent == v.content
  {
    ParsedMemory(v.filename, v.frontmatter, FileText(v), v.content)
  }

  const TempDirectory := "/tmp"

  /** `/tmp/heart-old-${Date.now()}.md` and its `new` twin; `millis` is the
      clock reading taken for each name. */
  function OldTempName(millis: nat): string { "heart-old-" + Decimal(millis) + ".md" }
  function NewTempName(millis: nat): string { "heart-new-" + Decimal(millis) + ".md" }

  // ---------------------------------------------------------------------------
  // The handler, step by step
  // ---------------------------------------------------------------------------

  /** The snapshot step for an existing row: copy it into the change log, write
      the old and the new text to two temporary files, run `diff -u` on them
      (`diffRun` is its output, or the error `execSync` throws), and remove both
      files in the `finally` block whatever the outcome. */
  method SnapshotAndDiff(db: MemoryDB, tmp: Files.Directory, existing: MemoryRecord,
                         newContent: string, changedAt: string, diffRun: Result<string>,
                         oldMillis: nat, newMillis: nat)
    returns (diff: Option<string>, failure: Option<string>)
    requires db.open && Valid(db.file.tables)
    modifies db.file`tables, tmp
    ensures db.file.tables == AppendChange(old(db.file.tables), existing, changedAt)
    ensures tmp.files == old(tmp.files) - {OldTempName(oldMillis), NewTempName(newMillis)}
    ensures tmp.stamps == old(tmp.stamps) - {OldTempName(oldMillis), NewTempName(newMillis)}
    ensures diffRun.Ok? ==> diff == Some(diffRun.value) && failure.None?
    ensures diffRun.Err? ==> diff.None? && failure == Some(diffRun.message)
  {
    db.SnapshotToChanges(existing, changedAt);
    var oldTemp, newTemp := OldTempName(oldMillis), NewTempName(newMillis);
    ghost var before, beforeStamps := tmp.files, tmp.stamps;
    tmp.WriteFile(oldTemp, existing.content);
    tmp.WriteFile(newTemp, newContent);
    if diffRun.Ok? {
      diff, failure := Some(diffRun.value), None;
    } else {
      diff, failure := None, Some(diffRun.message);
    }
    tmp.Unlink(oldTemp);
    tmp.Unlink(newTemp);
    WrittenThenRemoved(before, oldTemp, existing.content, newTemp, newContent);
    assert beforeStamps - {oldTemp} - {newTemp} - {oldTemp} - {newTemp} == beforeStamps - {oldTemp, newTemp};
  }

  lemma WrittenThenRemoved(m: map<string, string>, a: string, x: string, b: string, y: string)
    ensures m[a := x][b := y] - {a} - {b} == m - {a, b}
  {
  }

  /** The upsert and the index regeneration that follow a successful snapshot
      step. */
  method UpsertAndIndex(db: MemoryDB, memoryDir: Files.Directory, parsed: ParsedMemory, now: string)
    requires db.open && Valid(db.file.tables)
    modifies db.file, memoryDir
    ensures db.file.connections == old(db.file.connections)
    ensures db.file.tables == Upsert(old(db.file.tables), parsed)
    ensures IndexGenerator.Reindexed(old(memoryDir.files), memoryDir.files, now,
                                     Upsert(old(db.file.tables), parsed), IndexGenerator.Route)
    ensures memoryDir.stamps == old(memoryDir.stamps) - {IndexGenerator.IndexFile}
  {
    db.UpsertMemory(parsed);
    IndexGenerator.RegenerateIndex(db.file, memoryDir, now);
  }

  /** The body of the `try` block on an open connection: read the existing row,
      snapshot and diff if there is one, then (unless the diff step threw)
      upsert and regenerate `index.md`. A row existed exactly when a diff or a
      failure comes back. */
  method Persist(db: MemoryDB, memoryDir: Files.Directory, tmp: Files.Directory,
                 parsed: ParsedMemory, now: string, changedAt: string, diffRun: Result<string>,
                 oldMillis: nat, newMillis: nat)
    returns (diff: Option<string>, failure: Option<string>)
    requires db.open && Valid(db.file.tables) && memoryDir != tmp
    modifies db.file, memoryDir, tmp
    ensures db.file.connections == old(db.file.connections)
    ensures var existed := parsed.filename in old(db.file.tables.memories);
      tmp.files == (if existed then old(tmp.files) - {OldTempName(oldMillis), NewTempName(newMillis)}
                    else old(tmp.files)) &&
      (failure.Some? <==> existed && diffRun.Err?) &&
      (diff.Some? <==> existed && diffRun.Ok?)
    ensures failure.Some? ==>
      failure == Some(diffRun.message) &&
      db.file.tables == Snapshotted(old(db.file.tables), parsed.filename, changedAt) &&
      memoryDir.files == old(memoryDir.files) && memoryDir.stamps == old(memoryDir.stamps)
    ensures failure.None? ==>
      (diff.Some? ==> diff == Some(diffRun.value)) &&
      db.file.tables == Committed(old(db.file.tables), parsed, changedAt) &&
      IndexGenerator.Reindexed(old(memoryDir.files), memoryDir.files, now,
                               Committed(old(db.file.tables), parsed, changedAt), IndexGenerator.Route) &&
      memoryDir.stamps == old(memoryDir.stamps) - {IndexGenerator.IndexFile}
  {
    diff, failure := None, None;
    var existing := db.GetMemory(parsed.filename);
    if existing.Some? {
      diff, failure := SnapshotAndDiff(db, tmp, existing.value, parsed.content, changedAt, diffRun,
                                       oldMillis, newMillis);
    }
    if failure.None? {
      UpsertAndIndex(db, memoryDir, parsed, now);
    }
  }

  /** Opens the connection, runs the `try` block and closes the connection in
      the `finally` block, on both paths. */
  method Commit(file: DatabaseFile, memoryDir: Files.Directory, tmp: Files.Directory,
                parsed: ParsedMemory, now: string, changedAt: string, diffRun: Result<string>,
                oldMillis: nat, newMillis: nat)
    returns (diff: Option<string>, failure: Option<string>)
    requires Valid(file.tables) && memoryDir != tmp
    modifies file, memoryDir, tmp
    ensures file.connections == old(file.connections)
    ensures var existed := parsed.filename in old(file.tables.memories);
      tmp.files == (if existed then old(tmp.files) - {OldTempName(oldMillis), NewTempName(newMillis)}
                    else old(tmp.files)) &&
      (failure.Some? <==> existed && diffRun.Err?) &&
      (diff.Some? <==> existed && diffRun.Ok?)
    ensures failure.Some? ==>
      failure == Some(diffRun.message) &&
      file.tables == Snapshotted(old(file.tables), parsed.filename, changedAt) &&
      memoryDir.files == old(memoryDir.files) && memoryDir.stamps == old(memoryDir.stamps)
    ensures failure.None? ==>
      (diff.Some? ==> diff == Some(diffRun.value)) &&
      file.tables == Committed(old(file.tables), parsed, changedAt) &&
      IndexGenerator.Reindexed(old(memoryDir.files), memoryDir.files, now,
                               Committed(old(file.tables), parsed, changedAt), IndexGenerator.Route) &&
      memoryDir.stamps == old(memoryDir.stamps) - {IndexGenerator.IndexFile}
  {
    var db := new MemoryDB(file);
    diff, failure := Persist(db, memoryDir, tmp, parsed, now, changedAt, diffRun, oldMillis, newMillis);
    db.Close();
  }

  /** The handler after the checks passed: write the file, run the database
      step, and (only when it succeeded) set the file's modification time.
      `updated` is `updated_at` read as a date (absent when it is not one) and
      `touchOk` whether `touch -t` succeeded; a failed touch changes nothing but
      the stamp, and the response never depends on it. */
  method Store(v: ValidWrite, file: DatabaseFile, memoryDir: Files.Directory,
               tmp: Files.Directory, now: string, changedAt: string, diffRun: Result<string>,
               oldMillis: nat, newMillis: nat, updated: Option<UtcTime>, touchOk: bool)
    returns (response: WriteResponse)
    requires Valid(file.tables) && memoryDir != tmp
    requires updated.Some? ==> ValidTime(updated.value)
    modifies file, memoryDir, tmp
    ensures file.connections == old(file.connections)
    ensures var existed := v.filename in old(file.tables.memories);
      var written := old(memoryDir.files)[v.filename := FileText(v)];
      tmp.files == (if existed then old(tmp.files) - {OldTempName(oldMillis), NewTempName(newMillis)}
                    else old(tmp.files)) &&
      (existed && diffRun.Err? ==>
        response == Failed(diffRun.message) &&
        file.tables == Snapshotted(old(file.tables), v.filename, changedAt) &&
        memoryDir.files == written && memoryDir.stamps == old(memoryDir.stamps) - {v.filename}) &&
      (!(existed && diffRun.Err?) ==>
        response == Written(v.filename, v.updatedAt, existed, if existed then Some(diffRun.value) else None) &&
        file.tables == Committed(old(file.tables), ParsedOf(v), changedAt) &&
        IndexGenerator.Reindexed(written, memoryDir.files, now,
                                 Committed(old(file.tables), ParsedOf(v), changedAt), IndexGenerator.Route) &&
        memoryDir.stamps == (var s := old(memoryDir.stamps) - {v.filename} - {IndexGenerator.IndexFile};
                             if updated.Some? && touchOk then s[v.filename := FormatTouchTime(updated.value)] else s))
  {
    var parsed := ParsedOf(v);
    memoryDir.WriteFile(v.filename, parsed.content);
    var diff, failure := Commit(file, memoryDir, tmp, parsed, now, changedAt, diffRun, oldMillis, newMillis);
    if failure.Some? {
      response := Failed(failure.value);
    } else {
      if updated.Some? && touchOk {
        memoryDir.Touch(v.filename, FormatTouchTime(updated.value));
      }
      response := Written(v.filename, v.updatedAt, diff.Some?, diff);
    }
  }

  /** The handler (`defineEventHandler` body, after the API-key check): a
      request that fails the checks changes nothing. */
  method Write(body: Option<WriteRequest>, file: DatabaseFile, memoryDir: Files.Directory,
               tmp: Files.Directory, now: string, changedAt: string, diffRun: Result<string>,
               oldMillis: nat, newMillis: nat, updated: Option<UtcTime>, touchOk: bool)
    returns (response: WriteResponse)
    requires Valid(file.tables) && memoryDir != tmp
    requires updated.Some? ==> ValidTime(updated.value)
    modifies file, memoryDir, tmp
    ensures file.connections == old(file.connections)
    ensures ValidateWrite(body).Err? ==>
      response == Failed(ValidateWrite(body).message) &&
      file.tables == old(file.tables) && tmp.files == old(tmp.files) &&
      memoryDir.files == old(memoryDir.files) && memoryDir.stamps == old(memoryDir.stamps)
    ensures ValidateWrite(body).Ok? ==>
      var v := ValidateWrite(body).value;
      var existed := v.filename in old(file.tables.memories);
      var written := old(memoryDir.files)[v.filename := FileText(v)];
      tmp.files == (if existed then old(tmp.files) - {OldTempName(oldMillis), NewTempName(newMillis)}
                    else old(tmp.files)) &&
      (existed && diffRun.Err? ==>
        response == Failed(diffRun.message) &&
        file.tables == Snapshotted(old(file.tables), v.filename, changedAt) &&
        memoryDir.files == written && memoryDir.stamps == old(memoryDir.stamps) - {v.filename}) &&
      (!(existed && diffRun.Err?) ==>
        response == Written(v.filename, v.updatedAt, existed, if existed then Some(diffRun.value) else None) &&
        file.tables == Committed(old(file.tables), ParsedOf(v), changedAt) &&
        IndexGenerator.Reindexed(written, memoryDir.files, now,
                                 Committed(old(file.tables), ParsedOf(v), changedAt), IndexGenerator.Route) &&
        memoryDir.stamps == (var s := old(memoryDir.stamps) - {v.filename} - {IndexGenerator.IndexFile};
                             if updated.Some? && touchOk then s[v.filename := FormatTouchTime(updated.value)] else s))
  {
    var checked := ValidateWrite(body);
    if checked.Err? {
      response := Failed(checked.message);
    } else {
      response := Store(checked.value, file, memoryDir, tmp, now, changedAt, diffRun, oldMillis, newMillis,
                        updated, touchOk);
    }
  }
}
