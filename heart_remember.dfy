/** The remember route (`POST /api/heart/remember`): hands free text to the
    classification script, which picks the file, category, title, summary, tags
    and section; appends the text as a new `##` section to that file (or starts
    the file with it), rewrites the header, snapshots and upserts the database
    row, regenerates `index.md`, closes the connection and finally tries to set
    the file's modification time. */
module HeartRemember {
  import opened Wrappers
  import opened Text
  import opened MemoryTypes
  import opened MemoryStore
  import opened MemoryFile
  import Files
  import IndexGenerator
  import opened HeartRoutes

  /** The request body; `content` may be missing. */
  datatype RememberRequest = RememberRequest(content: Option<string>)

  /** The JSON object the classification script prints. */
  datatype Categorization = Categorization(
    filename: string,
    category: string,
    title: string,
    summary: string,
    tags: seq<string>,
    section: string)

  datatype RememberResponse =
    | Remembered(filename: string, category: string, tags: seq<string>, section: string)
    | Failed(error: string)

  const MissingContent := "Missing required field: content"

  /** The route renders the index with the library's `generateIndexMarkdown`. */
  const IndexCopy := IndexGenerator.Library

  /** The message `callLibby` rethrows when the script fails or prints
      something that is not JSON. */
  function ClassificationFailure(message: string): string {
    "Libby categorization failed: " + message
  }

  /** `!body || !body.content` is false. */
  predicate ContentGiven(body: Option<RememberRequest>) {
    body.Some? && Truthy(body.value.content)
  }

  /** The text the route adds: a level-two heading naming the section, a blank
      line, then the remembered text. */
  function NewSection(section: string, content: string): string {
    "## " + section + "\n\n" + content
  }

  /** The file's current text, if it exists. */
  function FileAt(files: map<string, string>, path: string): (r: Option<string>)
    ensures r.Some? <==> path in files
    ensures r.Some? ==> r.value == files[path]
  {
    if path in files then Some(files[path]) else None
  }

  /** The new body: the existing body (its header removed) and a blank line in
      front of the added section, or the added section alone when there is no
      file yet. */
  function FinalContent(existing: Option<string>, added: string): (body: string)
    ensures EndsWith(body, added)
    ensures existing.None? ==> body == added
    ensures existing.Some? ==>
      StartsWith(body, StripFrontmatter(existing.value) + "\n\n") &&
      |body| == |StripFrontmatter(existing.value)| + 2 + |added|
  {
    match existing
    case Some(text) => StripFrontmatter(text) + "\n\n" + added
    case None => added
  }

  /** The header the route writes. `now` is the clock reading for both
      timestamps; `dateClock` is the second reading whose date part becomes
      `date`. There is never an author. */
  function RememberedHeader(c: Categorization, now: string, dateClock: string): (fm: Frontmatter)
    ensures fm.createdAt == fm.updatedAt == now
    ensures fm.categories == [c.category] && fm.author.None?
    ensures StartsWith(dateClock, fm.date) && 'T' !in fm.date
    ensures fm.title == c.title && fm.summary == Some(c.summary) && fm.tags == Some(c.tags)
  {
    Frontmatter(c.title, IndexGenerator.Today(dateClock), [c.category], Some(c.tags), None,
                Some(c.summary), now, now)
  }

  /** One call of the route, once the checks passed: what was classified, the
      text, and the clock readings for the header. */
  datatype Remembering = Remembering(c: Categorization, content: string, now: string, dateClock: string)

  function Header(r: Remembering): Frontmatter { RememberedHeader(r.c, r.now, r.dateClock) }

  function Body(r: Remembering, existing: Option<string>): string {
    FinalContent(existing, NewSection(r.c.section, r.content))
  }

  /** The memory handed to `upsertMemory`: the whole file as `content`, the
      new body as `rawContent`. */
  function ParsedOf(r: Remembering, existing: Option<string>): (p: ParsedMemory)
    ensures p.filename == r.c.filename && p.frontmatter == Header(r)
    ensures p.rawContent == Body(r, existing)
    ensures p.content == FullContent(BuildFrontmatter(Header(r)), p.rawContent)
  {
    ParsedMemory(r.c.filename, Header(r), FullContent(BuildFrontmatter(Header(r)), Body(r, existing)),
                 Body(r, existing))
  }

  // ---------------------------------------------------------------------------
  // What a remember does to the file
  // ---------------------------------------------------------------------------

  /** Appending keeps what was there: when the file was written by a route
      (a header of single-line values, then a body), the new body is the old
      body, newline-terminated, a blank line and the added section. */
  lemma AppendKeepsBody(fm: Frontmatter, body: string, r: Remembering)
    requires SingleLine(fm)
    ensures Body(r, Some(FullContent(BuildFrontmatter(fm), body))) ==
      WithNewline(body) + "\n\n" + NewSection(r.c.section, r.content)
  {
    StripWrittenFile(fm, body);
  }

  /** Reading the written file back (removing its header) gives the new body. */
  lemma RememberedFileReadsBack(r: Remembering, existing: Option<string>)
    requires SingleLine(Header(r))
    ensures StripFrontmatter(ParsedOf(r, existing).content) == WithNewline(Body(r, existing))
  {
    StripWrittenFile(Header(r), Body(r, existing));
  }

  /** Two remembers into a file that did not exist leave both sections, in the
      order they were remembered. */
  lemma RememberTwice(first: Remembering, second: Remembering)
    requires SingleLine(Header(first))
    ensures Body(second, Some(ParsedOf(first, None).content)) ==
      WithNewline(NewSection(first.c.section, first.content)) + "\n\n" +
      NewSection(second.c.section, second.content)
  {
    AppendKeepsBody(Header(first), Body(first, None), second);
  }

  /** The file and the row disagree on `created_at` after a remember into an
      existing row: the row keeps the first `created_at` while the file's
      header carries the time of this call. */
  lemma RowKeepsFirstCreatedAt(t: Tables, r: Remembering, existing: Option<string>, changedAt: string)
    requires Valid(t) && r.c.filename in t.memories
    ensures var u := Committed(t, ParsedOf(r, existing), changedAt);
      u.memories[r.c.filename].createdAt == t.memories[r.c.filename].createdAt &&
      ParsedOf(r, existing).frontmatter.createdAt == r.now
  {
    SnapshotBeforeUpsert(t, ParsedOf(r, existing), changedAt);
  }

  // ---------------------------------------------------------------------------
  // The handler, step by step
  // ---------------------------------------------------------------------------

  /** Reads the row under `filename` and, if there is one, copies it into the
      change log. */
  method Snapshot(db: MemoryDB, filename: string, changedAt: string)
    requires db.open && Valid(db.file.tables)
    modifies db.file`tables
    ensures db.file.tables == Snapshotted(old(db.file.tables), filename, changedAt)
  {
    var existing := db.GetMemory(filename);
    if existing.Some? {
      db.SnapshotToChanges(existing.value, changedAt);
    }
  }

  /** The upsert, then `generateIndexMarkdown` (the library's copy, on its
      own connection) and writing its result to `index.md`. */
  method UpsertAndIndex(db: MemoryDB, memoryDir: Files.Directory, parsed: ParsedMemory, indexNow: string)
    requires db.open && Valid(db.file.tables)
    modifies db.file, memoryDir
    ensures db.file.connections == old(db.file.connections)
    ensures db.file.tables == Upsert(old(db.file.tables), parsed)
    ensures IndexGenerator.Reindexed(old(memoryDir.files), memoryDir.files, indexNow,
                                     Upsert(old(db.file.tables), parsed), IndexCopy)
    ensures memoryDir.stamps == old(memoryDir.stamps) - {IndexGenerator.IndexFile}
  {
    db.UpsertMemory(parsed);
    IndexGenerator.WriteIndex(db.file, memoryDir, indexNow, IndexCopy);
  }

  /** The `try` block on an open connection: snapshot the row if there is one,
      upsert, then write the library's `index.md`. `indexNow` is the clock
      reading the index generator takes. */
  method Persist(db: MemoryDB, memoryDir: Files.Directory, parsed: ParsedMemory,
                 indexNow: string, changedAt: string)
    requires db.open && Valid(db.file.tables)
    modifies db.file, memoryDir
    ensures db.file.connections == old(db.file.connections)
    ensures db.file.tables == Committed(old(db.file.tables), parsed, changedAt)
    ensures IndexGenerator.Reindexed(old(memoryDir.files), memoryDir.files, indexNow,
                                     Committed(old(db.file.tables), parsed, changedAt),
                                     IndexCopy)
    ensures memoryDir.stamps == old(memoryDir.stamps) - {IndexGenerator.IndexFile}
  {
    Snapshot(db, parsed.filename, changedAt);
    UpsertAndIndex(db, memoryDir, parsed, indexNow);
  }

  /** Opens the connection, runs the `try` block, closes it in `finally`. */
  method Commit(file: DatabaseFile, memoryDir: Files.Directory, parsed: ParsedMemory,
                indexNow: string, changedAt: string)
    requires Valid(file.tables)
    modifies file, memoryDir
    ensures file.connections == old(file.connections)
    ensures file.tables == Committed(old(file.tables), parsed, changedAt)
    ensures IndexGenerator.Reindexed(old(memoryDir.files), memoryDir.files, indexNow,
                                     Committed(old(file.tables), parsed, changedAt),
                                     IndexCopy)
    ensures memoryDir.stamps == old(memoryDir.stamps) - {IndexGenerator.IndexFile}
  {
    var db := new MemoryDB(file);
    Persist(db, memoryDir, parsed, indexNow, changedAt);
    db.Close();
  }

  /** The handler after classification: read the file if it exists, write the
      new file, run the database step, then set the modification time from
      `updated_at` (`nowFields` is `now` read as a date; `touchOk` whether
      `touch -t` succeeded, which the response never depends on). */
  method Store(r: Remembering, file: DatabaseFile, memoryDir: Files.Directory,
               indexNow: string, changedAt: string, nowFields: UtcTime, touchOk: bool)
    returns (response: RememberResponse)
    requires Valid(file.tables) && ValidTime(nowFields)
    modifies file, memoryDir
    ensures file.connections == old(file.connections)
    ensures var parsed := ParsedOf(r, FileAt(old(memoryDir.files), r.c.filename));
      var written := old(memoryDir.files)[r.c.filename := parsed.content];
      response == Remembered(r.c.filename, r.c.category, r.c.tags, r.c.section) &&
      file.tables == Committed(old(file.tables), parsed, changedAt) &&
      IndexGenerator.Reindexed(written, memoryDir.files, indexNow,
                               Committed(old(file.tables), parsed, changedAt), IndexCopy) &&
      memoryDir.stamps == (var s := old(memoryDir.stamps) - {r.c.filename} - {IndexGenerator.IndexFile};
                           if touchOk then s[r.c.filename := FormatTouchTime(nowFields)] else s)
  {
    var parsed := ParsedOf(r, FileAt(memoryDir.files, r.c.filename));
    memoryDir.WriteFile(r.c.filename, parsed.content);
    Commit(file, memoryDir, parsed, indexNow, changedAt);
    if touchOk {
      memoryDir.Touch(r.c.filename, FormatTouchTime(nowFields));
    }
    response := Remembered(r.c.filename, r.c.category, r.c.tags, r.c.section);
  }

  /** The handler (after the API-key check). `classification` is what the
      classification script made of the content: its parsed answer, or the
      message of the error running or parsing it. A request without content or
      a failed classification changes nothing. */
  method Remember(body: Option<RememberRequest>, classification: Result<Categorization>,
                  file: DatabaseFile, memoryDir: Files.Directory, now: string, dateClock: string,
                  indexNow: string, changedAt: string, nowFields: UtcTime, touchOk: bool)
    returns (response: RememberResponse)
    requires Valid(file.tables) && ValidTime(nowFields)
    modifies file, memoryDir
    ensures file.connections == old(file.connections)
    ensures !ContentGiven(body) ==>
      response == Failed(MissingContent) &&
      file.tables == old(file.tables) &&
      memoryDir.files == old(memoryDir.files) && memoryDir.stamps == old(memoryDir.stamps)
    ensures ContentGiven(body) && classification.Err? ==>
      response == Failed(ClassificationFailure(classification.message)) &&
      file.tables == old(file.tables) &&
      memoryDir.files == old(memoryDir.files) && memoryDir.stamps == old(memoryDir.stamps)
    ensures ContentGiven(body) && classification.Ok? ==>
      var r := Remembering(classification.value, body.value.content.value, now, dateClock);
      var parsed := ParsedOf(r, FileAt(old(memoryDir.files), r.c.filename));
      var written := old(memoryDir.files)[r.c.filename := parsed.content];
      response == Remembered(r.c.filename, r.c.category, r.c.tags, r.c.section) &&
      file.tables == Committed(old(file.tables), parsed, changedAt) &&
      IndexGenerator.Reindexed(written, memoryDir.files, indexNow,
                               Committed(old(file.tables), parsed, changedAt), IndexCopy) &&
      memoryDir.stamps == (var s := old(memoryDir.stamps) - {r.c.filename} - {IndexGenerator.IndexFile};
                           if touchOk then s[r.c.filename := FormatTouchTime(nowFields)] else s)
  {
    if !ContentGiven(body) {
      response := Failed(MissingContent);
    } else if classification.Err? {
      response := Failed(ClassificationFailure(classification.message));
    } else {
      var r := Remembering(classification.value, body.value.content.value, now, dateClock);
      response := Store(r, file, memoryDir, indexNow, changedAt, nowFields, touchOk);
    }
  }
}
