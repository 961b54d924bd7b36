# anima, modelled in Dafny

This project models the core of anima, a personal memory system kept as Markdown
files with a YAML header ("memories"), mirrored into a SQLite store and summarised
in a generated `index.md`, together with the smaller tools around it:

- **Section editor** (`markdown_section.dfy`). It finds the first heading whose text
  matches a section name, ignoring case. It then inserts a paragraph at the end of that
  section, or appends a new `##` heading with the paragraph.
- **Record store** (`memory_store.dfy`, `memory_types.dfy`, `json_list.dfy`). It covers:
  - the `memories` table keyed by file name;
  - the append-only `changes` snapshots;
  - the category, tag and recency queries;
  - the statistics;
  - the connection object;
  - the JSON text of the category and tag columns.
- **Memory files** (`memory_file.dfy`, `files.dfy`). The header the routes write, its
  removal, the `touch -t` stamp, and a directory seen as a map from path to text.
- **Write and remember routes** (`heart_write.dfy`, `heart_remember.dfy`,
  `heart_routes.dfy`). They:
  - validate the request;
  - write the file;
  - snapshot and diff the previous row;
  - upsert the row;
  - regenerate the index;
  - close the connection;
  - set the modification time.
- **Index generator** (`index_generator.dfy`). The three copies of the index text: the
  shared library function, the `generate-index` command and the write route's own copy.
- **Parser and sync** (`memory_parser.dfy`, `heart_sync.dfy`). The recursive directory
  scan, the header checks, and the sync command's insert, update and error counts and
  backup name.
- **Voice journal** (`journal.dfy`, `voice_route.dfy`). The entry format, the upload with
  its temporary file, and the upload route.
- **Time-named paths** (`timestamp_paths.dfy`). The four copies of the rule that turns
  an ISO timestamp into `<date>/<time>.<ext>`.
- **Vision route** (`vision_route.dfy`). The form sent to the image backend, and the image
  and metadata written.
- **Memory lane** (`memory_lane.dfy`, `transcripts.dfy`). The one-message-at-a-time
  walk through the speech log with its state files, and the paged transcript
  generator.
- **Newsletter** (`newsletter.dfy`, `text_lines.dfy`). The Markdown-to-HTML
  transform and the post request of the publishing script.
- **Gallery** (`lumina_collections.dfy`, `lumina_images.dfy`). The collection reader
  (title, fields, tags, pieces, artist notes) and the image listing (grouping by base
  name, metadata, title and timestamp).

Code that changes state is modelled as classes and methods:
- `Files.Directory` and `MemoryStore.MemoryDB` are classes;
- the loops are `while` loops with invariants;
- each method is proved against a specification function.

Pure code becomes functions and lemmas. Clocks, the file system's failures, the
classification script, `diff`, HTTP replies and the database rows read by the
command-line tools are parameters.

Where the repository's own documentation and its code disagree, the model follows
the code:
- The remember route appends its text as a new `##` section at the end of the file. It
  does not use the section editor, and it does not split text into sibling files.
- The remember route writes `created_at` as the current time into the header of a new
  file. For an existing file it keeps the old value.
- Nothing in the code writes the `sections` table. It exists only in the schema that
  `sync` creates.

## Model

| member | source | states |
|---|---|---|
| MarkdownSection.HeadingTextAppend | packages/anima-server/utils/markdown-section.ts:127-132 | the heading text of two runs of children is the text of the first followed by the text of the second (filter, map, join distribute over concatenation) |
| MarkdownSection.HeadingTextIgnoresOther | packages/anima-server/utils/markdown-section.ts:127-132 | a child that is not a `text` node contributes nothing to the heading text |
| MarkdownSection.SingleTextHeading | packages/anima-server/utils/markdown-section.ts:127-132 | a heading whose only child is one text node reads as that node's value |
| MarkdownSection.FirstMatchFrom | packages/anima-server/utils/markdown-section.ts:42-52 | the result is a block from `from` on that is a heading whose lower-cased text equals the lower-cased name, no block between `from` and it matches, and `None` means no block from `from` on matches |
| MarkdownSection.FirstMatch | packages/anima-server/utils/markdown-section.ts:42-52 | the target is the first matching heading in document order; with no match no block matches |
| MarkdownSection.TargetIsEarliest | packages/anima-server/utils/markdown-section.ts:42-52 | every matching heading lies at or after the target, so later duplicates are never targeted |
| MarkdownSection.SectionEnd | packages/anima-server/utils/markdown-section.ts:138-147 | the end lies after the start and at most at the block count; when inside the document it is a heading of depth at most the target's, and no block strictly between start and end is such a heading |
| MarkdownSection.SectionEndIsFirst | packages/anima-server/utils/markdown-section.ts:138-147 | any index past the start where the scan's stopping condition first holds (or the block count when it never does) is the section end: the end is unique |
| MarkdownSection.FindNextHeadingIndex | packages/anima-server/utils/markdown-section.ts:138-147 | the `for` scan returns the section end |
| MarkdownSection.FindSection | packages/anima-server/utils/markdown-section.ts:37-52 | the flags set by the `visit` callback: found exactly when some heading matches, the index is then the first match and the depth its depth, and the index stays -1 otherwise |
| MarkdownSection.Root.constructor | packages/anima-server/utils/markdown-section.ts:33-35 | the parsed tree's children are the document's blocks |
| MarkdownSection.Root.InsertAt | packages/anima-server/utils/markdown-section.ts:66 | `splice(k, 0, node)`: the node is inserted at `k` and the other children keep their order |
| MarkdownSection.Root.Push2 | packages/anima-server/utils/markdown-section.ts:88 | `push(heading, paragraph)`: both blocks are appended in that order |
| MarkdownSection.InsertIntoSection | packages/anima-server/utils/markdown-section.ts:27-97 | found exactly when some heading matches and created exactly when not; on the found path one content paragraph is spliced in at the section end of the first match, on the other path a depth-2 heading with the name and the paragraph are appended |
| MarkdownSection.SectionExists | packages/anima-server/utils/markdown-section.ts:106-122 | true exactly when some heading matches the name, which is exactly when the insertion takes the found path |
| MarkdownSection.FoundPathPlacement | packages/anima-server/utils/markdown-section.ts:54-73 | on the found path the document grows by one block: every block before the section end is unchanged (the target included), the paragraph sits at the end index, every later block is shifted by one, and the block after the paragraph (if any) is the heading that closes the section |
| MarkdownSection.InsertParagraphKeepsHeadings | packages/anima-server/utils/markdown-section.ts:66 | inserting a paragraph anywhere leaves the sequence of headings unchanged: nothing is removed or reordered |
| MarkdownSection.CreatePathAddsOneHeading | packages/anima-server/utils/markdown-section.ts:74-95 | on the create path the headings are the old headings followed by the one new depth-2 heading |
| MarkdownSection.EmptyDocumentCreates | packages/anima-server/utils/markdown-section.ts:74-95 | an empty document has no target, so the section is always created |
| MarkdownSection.CaseInsensitiveExample | packages/anima-server/test/markdown-section.test.ts:96-118 | a heading written "personal details" after a frontmatter block is the target of "Personal Details" |
| MarkdownSection.HeadingMatchesExample | packages/anima-server/test/markdown-section.test.ts:103-107 | the heading "personal details" matches the name "Personal Details" |
| MarkdownSection.LowerExample | packages/anima-server/utils/markdown-section.ts:47 | "Personal Details" and "personal details" lower-case to the same text |
| MemoryTypes.OrNull | packages/heart/src/lib/db.ts:30-31 | `s \|\| null`: a value is kept exactly when it is a non-empty string, and then unchanged |
| MemoryStore.EmptyTables | packages/heart/src/cli/sync.ts:100-130 | a freshly created schema holds no memories and no changes and satisfies the table invariant |
| MemoryStore.RecordOf | packages/heart/src/lib/db.ts:21-35 | the row built for a memory: filename, title, date, content and both timestamps copied; categories stored as JSON text that reads back as the list; tags stored exactly when present, reading back as the list; author and summary stored exactly when non-empty |
| MemoryStore.OptionalListRoundTrip | packages/heart/src/lib/db.ts:28-29 | a present tag list stored as JSON text reads back as itself |
| MemoryStore.UpsertRow | packages/heart/src/lib/db.ts:37-63 | a new filename gets the whole new row; on conflict the old id and the old `created_at` are kept and every other column is taken from the new memory |
| MemoryStore.Upsert | packages/heart/src/lib/db.ts:21-64 | the keys gain the memory's filename, every other row is unchanged, the filename's row is the upserted row, the change log is untouched, and at most one row per filename remains |
| MemoryStore.UpsertAll | packages/heart/src/lib/db.ts:21-64 | upserting a run of memories keeps the table valid and never loses a filename |
| MemoryStore.UpsertKeepsFirstInsert | packages/heart/src/lib/db.ts:41-49 | after any run of upserts of one new filename its row has the first version's `created_at`, the id it got on insert and the last version's content |
| MemoryStore.Remove | packages/heart/src/lib/db.ts:132-139 | `DELETE ... WHERE filename = ?` drops exactly that key and keeps the change log |
| MemoryStore.RemoveOnlyThatRow | packages/heart/src/lib/db.ts:132-139 | after a delete the filename is gone and every other filename reads as before |
| MemoryStore.AppendChange | packages/heart/src/cli/sync.ts:115-130 | a snapshot appends one change (the row's id, content and the change time) after the existing log and leaves the memories as they were |
| MemoryStore.Lookup | packages/heart/src/lib/db.ts:120-127 | a row is returned exactly when the filename is stored, and it is that filename's row |
| MemoryStore.BeforeAsymmetric | packages/heart/src/lib/db.ts:72 | the descending sort order is asymmetric |
| MemoryStore.BeforeTransitive | packages/heart/src/lib/db.ts:72 | the sort order is transitive |
| MemoryStore.BeforeTotal | packages/heart/src/lib/db.ts:72 | any two different rows are ordered one way or the other (ties on the key broken by row id) |
| MemoryStore.TopExists | packages/heart/src/lib/db.ts:72 | a non-empty set of rows has a first row in the sort order |
| MemoryStore.TopUnique | packages/heart/src/lib/db.ts:72 | that first row is unique |
| MemoryStore.Ordered | packages/heart/src/lib/db.ts:69-76 | the rows of a set listed in sort order: the listing is ranked and holds exactly the set's rows |
| MemoryStore.RankedUnique | packages/heart/src/lib/db.ts:69-76 | any ranked listing of exactly a set's rows is that ordered listing, so a query's result is determined by the table |
| MemoryStore.AllRows | packages/heart/src/lib/db.ts:69-76 | `getAllMemories`: every row, each once, descending by the chosen key |
| MemoryStore.ByCategory | packages/heart/src/lib/db.ts:81-89 | `getMemoriesByCategory`: exactly the rows whose categories text contains the quoted category, descending by date |
| MemoryStore.ByTag | packages/heart/src/lib/db.ts:107-115 | `getMemoriesByTag`: exactly the rows with tags whose text contains the quoted tag (a row without tags never matches), descending by date |
| MemoryStore.Recent | packages/heart/src/lib/db.ts:94-102 | `getRecentMemories`: at most `limit` rows, ranked by `updated_at`, every row left out comes after every row listed, and with fewer than `limit` rows listed nothing is left out |
| MemoryStore.GroupSize | packages/heart/src/lib/db.ts:146-150 | a categories text that some row has has a count of at least one |
| MemoryStore.Statistics | packages/heart/src/lib/db.ts:144-159 | the total is the row count; there is one group per distinct categories text, each labelled with the first element of its parsed list and counting the rows with that text |
| MemoryStore.StoredCategoryIsFound | packages/heart/src/lib/db.ts:81-89 | after upserting a memory with a category (free of characters JSON escapes), a category query finds its row |
| MemoryStore.StatsLabelIsFirstCategory | packages/heart/src/lib/db.ts:154-157 | after an upsert the memory's categories group exists and is labelled with its first category |
| MemoryStore.DatabaseFile.constructor | packages/heart/src/cli/sync.ts:97-98 | a database file holds the given tables and no open connection |
| MemoryStore.MemoryDB.constructor | packages/heart/src/lib/db.ts:12-16 | opening the database opens one more connection to the file |
| MemoryStore.MemoryDB.UpsertMemory | packages/heart/src/lib/db.ts:21-64 | the file's tables become the upsert of the old tables |
| MemoryStore.MemoryDB.GetAllMemories | packages/heart/src/lib/db.ts:69-76 | returns the ordered listing of every row and changes nothing |
| MemoryStore.MemoryDB.GetMemoriesByCategory | packages/heart/src/lib/db.ts:81-89 | returns the category query's rows |
| MemoryStore.MemoryDB.GetRecentMemories | packages/heart/src/lib/db.ts:94-102 | returns the recent rows |
| MemoryStore.MemoryDB.GetMemoriesByTag | packages/heart/src/lib/db.ts:107-115 | returns the tag query's rows |
| MemoryStore.MemoryDB.GetMemory | packages/heart/src/lib/db.ts:120-127 | returns the filename's row or nothing |
| MemoryStore.MemoryDB.DeleteMemory | packages/heart/src/lib/db.ts:132-139 | the file's tables lose exactly that filename's row |
| MemoryStore.MemoryDB.GetStats | packages/heart/src/lib/db.ts:144-159 | returns the statistics of the current tables |
| MemoryStore.MemoryDB.SnapshotToChanges | packages/heart/src/cli/sync.ts:115-130 | the file's tables gain the snapshot of the existing row in the change log |
| MemoryStore.MemoryDB.Close | packages/heart/src/lib/db.ts:161-163 | the handle is closed and the file has one open connection fewer |
| JsonList.EscapeChar | packages/heart/src/lib/db.ts:28 | `JSON.stringify` writes a character as itself exactly when it is not a quote, a backslash or a control character, and otherwise as an escape starting with a backslash |
| JsonList.EscapePlain | packages/heart/src/lib/db.ts:28 | a string without such characters is written unchanged |
| JsonList.Quote | packages/heart/src/lib/db.ts:88 | the literal of such a string is the string between double quotes, the pattern the category and tag queries search for |
| JsonList.Stringify | packages/heart/src/lib/db.ts:28-29 | a list's JSON text starts with `[` and ends with `]` |
| JsonList.ElementLiteralOccurs | packages/heart/src/lib/db.ts:81-89 | every element's quoted literal occurs in the list's JSON text, so a stored category or tag is found by the `LIKE` query |
| JsonList.ReadEscaped | packages/heart/src/lib/db.ts:155 | reading an escaped string literal back gives the string and the rest of the text |
| JsonList.ReadElementsRoundTrip | packages/heart/src/lib/db.ts:155 | reading the elements of a non-empty list back gives the list |
| JsonList.ParseStringify | packages/heart/src/lib/db.ts:155 | `JSON.parse(JSON.stringify(xs))` is `xs` for every list of strings |
| Files.Directory.constructor | packages/anima-server/routes/api/heart/write.post.ts:77-80 | a directory holds the given files and no stamps set by `touch` |
| Files.Directory.WriteFile | packages/anima-server/routes/api/heart/write.post.ts:80 | `fs.writeFile`: the path now holds the text, every other file is unchanged, and the path's stamp is gone (the write sets a fresh modification time) |
| Files.Directory.AppendFile | packages/memory-lane/src/gen-transcripts.ts:85 | `fs.appendFileSync`: the text is added after the file's old text (or after nothing when the file is new) |
| Files.Directory.RemoveAll | packages/memory-lane/src/gen-transcripts.ts:32 | emptying the directory leaves no files and no stamps |
| Files.Directory.Unlink | packages/anima-server/routes/api/heart/write.post.ts:108-109 | `fs.unlink`: exactly that path is removed, with its stamp |
| Files.Directory.Touch | packages/anima-server/routes/api/heart/write.post.ts:135 | `touch -t`: only the stamp of the existing path changes |
| MemoryFile.BuildFrontmatter | packages/anima-server/routes/api/heart/write.post.ts:160-177 | the header text ends with a newline |
| MemoryFile.RenderedEndsWithNewline | packages/anima-server/routes/api/heart/write.post.ts:160-177 | every non-empty run of `key: value\n` lines ends with a newline |
| MemoryFile.SplitRendered | packages/anima-server/routes/api/heart/write.post.ts:160-177 | split at newlines, the rendered fields give back one line per field, in order, followed by an empty last piece |
| MemoryFile.HeaderLines | packages/anima-server/routes/api/heart/write.post.ts:160-177 | for single-line values the header's lines are exactly the fields in `buildFrontmatter`'s order (title quoted, date, categories, tags when non-empty, author when set, quoted summary when set, `created_at`, `updated_at`) |
| MemoryFile.KeyHasNoNewline | packages/anima-server/routes/api/heart/write.post.ts:162-175 | a field with a plain key and a single-line value renders as one line |
| MemoryFile.WithNewline | packages/anima-server/routes/api/heart/write.post.ts:73 | the body ends with a newline: unchanged when it already does, otherwise with one newline added |
| MemoryFile.FirstFence | packages/anima-server/routes/api/heart/remember.post.ts:196 | the first `\n---\n\n` at or after a position, with none before it; `None` when there is none |
| MemoryFile.StripFrontmatter | packages/anima-server/routes/api/heart/remember.post.ts:194-198 | the result is a suffix of the input; it is shorter exactly when the text starts with `---\n` and a closing `\n---\n\n` follows, and then what was cut is the opening and everything up to the first (shortest) closing fence |
| MemoryFile.RenderedHasNoDashLine | packages/anima-server/routes/api/heart/write.post.ts:160-177 | a header of single-line fields with plain keys contains no `\n---\n` |
| MemoryFile.StripFullContent | packages/anima-server/routes/api/heart/remember.post.ts:194-198 | stripping a file framed as `---\n` + header + `---\n\n` + body gives back the body with its newline, when the header contains no fence line |
| MemoryFile.StripWrittenFile | packages/anima-server/routes/api/heart/write.post.ts:71-74 | stripping a file the write route produced gives back exactly the body it was given (with its final newline) |
| MemoryFile.FormatTouchTime | packages/anima-server/routes/api/heart/write.post.ts:184-194 | the stamp is the year's digits and eleven more characters, with the `.` before the last two (the seconds) |
| MemoryFile.ParseTouchTime | packages/anima-server/routes/api/heart/write.post.ts:135 | the stamps `touch -t` reads here are fifteen characters with a `.` at index 12 |
| MemoryFile.FourDigitYear | packages/anima-server/routes/api/heart/write.post.ts:186 | years 1000 to 9999 have four digits |
| MemoryFile.TouchTimeRoundTrip | packages/anima-server/routes/api/heart/write.post.ts:184-194 | for a valid time with a four-digit year, reading the stamp back gives the same year, month, day, hour, minute and second: each field is zero-padded to two digits |
| HeartRoutes.Snapshotted | packages/anima-server/routes/api/heart/write.post.ts:88-92 | the memories are unchanged; with no row for the filename nothing changes, otherwise that row is copied into the change log |
| HeartRoutes.Committed | packages/anima-server/routes/api/heart/write.post.ts:88-120 | snapshot then upsert keeps the table invariant |
| HeartRoutes.SnapshotBeforeUpsert | packages/anima-server/routes/api/heart/write.post.ts:88-120 | after snapshot then upsert the filename is stored and every other row is unchanged; an existing row's old content is the new last change while the row keeps its id and `created_at` and gets the new content; a new filename adds no change and gets a fresh row |
| HeartWrite.ValidateWrite | packages/anima-server/routes/api/heart/write.post.ts:40-62 | the checks in the handler's order: a missing filename, frontmatter or content fails first, then a missing title, date, categories, `created_at` or `updated_at`, then categories that are not a list; a request that passes carries the request's filename, body, title, categories and `updated_at` |
| HeartWrite.ParsedOf | packages/anima-server/routes/api/heart/write.post.ts:113-118 | the memory handed to the database has the request's filename and frontmatter, the whole framed file as `content` and the request body as `rawContent` |
| HeartWrite.SnapshotAndDiff | packages/anima-server/routes/api/heart/write.post.ts:91-111 | the existing row is snapshotted; both temporary files are gone afterwards whatever the diff did; a diff that ran is returned, one that threw becomes the failure |
| HeartWrite.UpsertAndIndex | packages/anima-server/routes/api/heart/write.post.ts:120-123 | the row is upserted and `index.md` is regenerated from the new tables with the route's footer; no connection is left open |
| HeartWrite.Persist | packages/anima-server/routes/api/heart/write.post.ts:86-126 | with an open handle: snapshot before upsert; the temporary files exist only while the diff runs; a diff that threw leaves the snapshot but no upsert and no index; otherwise the tables are snapshot-then-upsert and the index is regenerated; a diff exists exactly when a row existed |
| HeartWrite.Commit | packages/anima-server/routes/api/heart/write.post.ts:83-126 | the same, opening the database and closing it in the `finally` block, so the file's open connections are as before |
| HeartWrite.Store | packages/anima-server/routes/api/heart/write.post.ts:70-147 | the file is written first; a throwing diff answers with its message after the snapshot; otherwise the answer is success with `is_update` exactly when a row existed and the diff only then, the tables are snapshot-then-upsert, the index is regenerated, and the file's stamp is set only when `touch` succeeded (a failed `touch` changes nothing else) |
| HeartWrite.Write | packages/anima-server/routes/api/heart/write.post.ts:38-147 | a request that fails validation answers with its error and changes no file, row or temporary file; a valid one behaves as the step above |
| HeartRemember.FileAt | packages/anima-server/routes/api/heart/remember.post.ts:69-80 | the existing file's text when the file exists, nothing otherwise |
| HeartRemember.FinalContent | packages/anima-server/routes/api/heart/remember.post.ts:83-88 | the body ends with the new section; with no file it is the new section, otherwise the stripped old body, a blank line, then the new section |
| HeartRemember.RememberedHeader | packages/anima-server/routes/api/heart/remember.post.ts:91-100 | `created_at` and `updated_at` are both `now`, categories is the one classified category, the date is the part of the clock's ISO string before `T`, title, summary and tags come from the classification, and there is no author |
| HeartRemember.ParsedOf | packages/anima-server/routes/api/heart/remember.post.ts:102-132 | the memory upserted has the classified filename, the built header, the final content as `rawContent` and the framed file as `content` |
| HeartRemember.AppendKeepsBody | packages/anima-server/routes/api/heart/remember.post.ts:69-88 | remembering into a file the routes wrote keeps that file's whole body and adds a blank line and the new section |
| HeartRemember.RememberedFileReadsBack | packages/anima-server/routes/api/heart/remember.post.ts:102-107 | stripping the written file gives back the final content (with its newline) |
| HeartRemember.RememberTwice | packages/anima-server/routes/api/heart/remember.post.ts:69-88 | remembering twice into a new file gives the first section, a blank line, then the second section |
| HeartRemember.RowKeepsFirstCreatedAt | packages/anima-server/routes/api/heart/remember.post.ts:120-134 | for an existing row the database keeps the first `created_at` while the file gets `now` as its new one |
| HeartRemember.Snapshot | packages/anima-server/routes/api/heart/remember.post.ts:120-125 | an existing row is copied into the change log, a missing one changes nothing |
| HeartRemember.UpsertAndIndex | packages/anima-server/routes/api/heart/remember.post.ts:134-139 | the row is upserted and `index.md` is rewritten with the shared generator's text for the new tables |
| HeartRemember.Persist | packages/anima-server/routes/api/heart/remember.post.ts:118-139 | snapshot before upsert, then the index; the tables become snapshot-then-upsert |
| HeartRemember.Commit | packages/anima-server/routes/api/heart/remember.post.ts:116-142 | the same, closing the database in the `finally` block |
| HeartRemember.Store | packages/anima-server/routes/api/heart/remember.post.ts:69-160 | the file is written with the final content, the tables become snapshot-then-upsert, the index is regenerated, the stamp is set only when `touch` succeeded, and the answer carries the classified filename, category, tags and section |
| HeartRemember.Remember | packages/anima-server/routes/api/heart/remember.post.ts:49-167 | missing content, or a classification that fails, answers with the error and changes no file and no row; otherwise the handler behaves as the step above |
| IndexGenerator.Today | packages/heart/src/lib/index-generator.ts:20 | the date stamp is the part of the ISO timestamp before the first `T`: a prefix of it that holds no `T` |
| IndexGenerator.BaseNameShape | packages/heart/src/lib/index-generator.ts:51 | Node's posix `path.basename(filename, ".md")`: a path equal to `.md` gives `""`; a path not ending in `/` gives a name without `/` that ends the path, alone or followed by `.md` |
| IndexGenerator.BaseNameOfFile | packages/heart/src/lib/index-generator.ts:51 | the file entry of `<dir>/<name>.md`, or of `<name>.md` at the root, shows exactly `<name>` |
| IndexGenerator.BaseNameOfBareExtension | packages/heart/src/lib/index-generator.ts:51 | a root-level file named `.md` shows `""`; a `.md` inside a directory shows `.md` |
| IndexGenerator.BaseNameWithoutExtension | packages/heart/src/lib/index-generator.ts:51 | a file whose name does not end in `.md` shows its whole last segment |
| IndexGenerator.SummaryOrTitle | packages/heart/src/lib/index-generator.ts:51 | `summary \|\| title`: a non-empty summary is shown, otherwise the title |
| IndexGenerator.Lines | packages/heart/src/lib/index-generator.ts:42-47 | one index entry per row, in row order |
| IndexGenerator.LineOfRow | packages/heart/src/lib/index-generator.ts:42-47 | the i-th entry is the entry of the i-th row |
| IndexGenerator.EntryListed | packages/heart/src/lib/index-generator.ts:50-52 | every row's entry occurs in its section's text |
| IndexGenerator.RowInRecent | packages/heart/src/lib/index-generator.ts:38-47 | a row of the recent section appears, as an event entry, in the whole index |
| IndexGenerator.RowInCore | packages/heart/src/lib/index-generator.ts:49-52 | a row of the core section appears, as a file entry, in the whole index |
| IndexGenerator.RecentMemoryListed | packages/heart/src/lib/index-generator.ts:13 | each of the ten most recently updated memories is listed in the index |
| IndexGenerator.CoreMemoryListed | packages/heart/src/lib/index-generator.ts:14 | every stored memory in category `core` is listed under Core Identity |
| IndexGenerator.UpsertedCoreMemoryIndexed | packages/anima-server/routes/api/heart/write.post.ts:120-123 | after a core memory is upserted, the regenerated index lists that memory's stored row |
| IndexGenerator.AppendLines | packages/heart/src/lib/index-generator.ts:50-52 | the loop of `markdown +=` leaves the old text followed by every line in order |
| IndexGenerator.ReadSections | packages/heart/src/lib/index-generator.ts:12-18 | the total is the number of stored memories, the recent list is the ten newest and each section is that category's rows |
| IndexGenerator.BuildIndex | packages/heart/src/lib/index-generator.ts:22-99 | the built text is the header with date and total, the six sections in the source's order with their entry styles, then the usage notes |
| IndexGenerator.Render | packages/heart/src/lib/index-generator.ts:12-99 | the text rendered from an open database is the index of its tables |
| IndexGenerator.Generate | packages/heart/src/lib/index-generator.ts:8-105 | opens a connection, renders the index of the tables and closes it again in every case (`finally`) |
| IndexGenerator.GenerateCopy | packages/heart/src/lib/index-generator.ts:8-105 | the text is the index of the tables as the chosen copy writes it, and no connection stays open |
| IndexGenerator.GenerateIndexMarkdown | packages/heart/src/lib/index-generator.ts:8-105 | the shared library function returns the index with its own usage notes |
| IndexGenerator.WriteIndex | packages/heart/src/cli/generate-index.ts:116 | `index.md` holds the index, every other file of the memory directory is unchanged |
| IndexGenerator.GenerateIndex | packages/heart/src/cli/generate-index.ts:19-123 | the command rewrites `index.md` with its copy of the index and closes the database |
| IndexGenerator.RegenerateIndex | packages/anima-server/routes/api/heart/write.post.ts:199-297 | the route's copy rewrites `index.md` with its own usage notes and closes the database |
| MemoryParser.ParseText | packages/heart/src/lib/parser.ts:29-56 | parsing succeeds exactly when the header is valid; otherwise the first failing check, in the source's order (title, date, categories, created_at, updated_at), names the error; on success the record keeps the path, the full text and the body after the header |
| MemoryParser.ParseMemoryFile | packages/heart/src/lib/parser.ts:14-21 | a missing file gives "Memory file not found" with the joined path; an existing one is parsed from its text |
| MemoryParser.Candidates | packages/heart/src/lib/parser.ts:65-86 | every file the scan parses ends in `.md` |
| MemoryParser.EntryCandidates | packages/heart/src/lib/parser.ts:71-76 | a single directory entry contributes only `.md` files (hidden directories and `node_modules` are skipped, `index.md` is not parsed) |
| MemoryParser.Successes | packages/heart/src/lib/parser.ts:78-83 | files that fail to parse are dropped, so there are never more results than files |
| MemoryParser.SuccessesAreParsedCandidates | packages/heart/src/lib/parser.ts:78-83 | a record is among the results if and only if some visited file parses to it |
| MemoryParser.ParsedAreValidMemoryFiles | packages/heart/src/lib/parser.ts:62-90 | every record the directory parse returns comes from a visited `.md` file whose header is valid, with that file's text and body |
| MemoryParser.ScanDirectory | packages/heart/src/lib/parser.ts:65-86 | the recursive scan appends to `results` the parsed files of the entries, in visiting order |
| MemoryParser.ScanEntry | packages/heart/src/lib/parser.ts:68-85 | one entry appends its parsed files: a subdirectory's by recursion, a memory file's when it parses |
| MemoryParser.ParseMemoryDirectory | packages/heart/src/lib/parser.ts:62-90 | the results are exactly the successfully parsed memory files, in visiting order |
| HeartSync.SyncTables | packages/heart/src/cli/sync.ts:60-76 | upserting the parsed memories one by one (a failing upsert leaves the tables alone) keeps the tables well formed |
| HeartSync.SyncTally | packages/heart/src/cli/sync.ts:56-76 | every memory is counted exactly once, as inserted, updated or an error |
| HeartSync.Names | packages/heart/src/cli/sync.ts:60-64 | the file names upserted are exactly those of the memories whose upsert does not fail |
| HeartSync.Failing | packages/heart/src/cli/sync.ts:72-75 | the failing memories are drawn from the parsed ones |
| HeartSync.SyncedKeys | packages/heart/src/cli/sync.ts:60-76 | after the sync the stored file names are the old ones plus those successfully upserted; nothing is deleted |
| HeartSync.ErrorsAreFailures | packages/heart/src/cli/sync.ts:72-75 | the error count is the number of failing upserts |
| HeartSync.InsertsAreNewRows | packages/heart/src/cli/sync.ts:62-71 | the insert count is the number of new rows the sync adds (`existing` decides insert versus update) |
| HeartSync.FreshSyncInsertsAll | packages/heart/src/cli/sync.ts:41-45 | on a new database, distinct files that all upsert cleanly are all inserted and make one row each |
| HeartSync.ResyncUpdatesAll | packages/heart/src/cli/sync.ts:62-67 | files already stored are all counted as updates and add no row |
| HeartSync.SecondSyncOnlyUpdates | packages/heart/src/cli/sync.ts:60-76 | running the sync again over the same memories only updates: no inserts and no errors |
| HeartSync.SyncMemories | packages/heart/src/cli/sync.ts:55-76 | the loop leaves the database holding the synced tables and returns the tally of inserted, updated and errors |
| HeartSync.Dashed | packages/heart/src/cli/sync.ts:31 | `replace(/[:.]/g, '-')`: same length, every `:` and `.` replaced by `-`, every other character kept |
| HeartSync.BackupPath | packages/heart/src/cli/sync.ts:31-32 | the backup is `.backups/my-heart-<timestamp>.db` and the timestamp part holds no `:` or `.` |
| HeartSync.Sync | packages/heart/src/cli/sync.ts:21-95 | a missing memory root stops with no change; an existing database is backed up first and synced in place, a missing one is created empty; the result reports the tally and the final statistics, and the connection is closed |
| Journal.GetFindsProperty | packages/voice/src/journal.ts:10-11 | a defined value read for a key is the value of a property with that key; when keys are distinct, as in an object, it is that key's only property |
| Journal.Categories | packages/voice/src/journal.ts:10-12 | the categories are the names of exactly the keys whose value is not `undefined`, never more than the properties |
| Journal.CategoriesDistinct | packages/voice/src/journal.ts:10-12 | in an object, where keys are distinct, each category name occurs once |
| Journal.ProjectIffNotes | packages/voice/src/journal.ts:16 | an entry is a project entry if and only if `project_notes` is given |
| Journal.HeaderLines | packages/voice/src/journal.ts:72-78 | the header is six lines: `---`, title, date, timestamp, `---` and an empty line |
| Journal.Present | packages/voice/src/journal.ts:80-121 | only fields with a truthy (non-empty) value get a section |
| Journal.Blocks | packages/voice/src/journal.ts:81-86 | each section is four lines: heading, blank, the text, blank |
| Journal.PresentFilters | packages/voice/src/journal.ts:80-121 | a field gets a section if and only if it is in the section table and its value is truthy; never more sections than table rows |
| Journal.SectionPresentIffText | packages/voice/src/journal.ts:80-121 | each of the six fields gets its section exactly when it holds non-empty text |
| Journal.EntryIsFiltered | packages/voice/src/journal.ts:69-124 | the entry's lines are the header followed by the blocks of the present fields, in the fixed section order |
| Journal.EntryShape | packages/voice/src/journal.ts:69-124 | the entry has 6 + 4·k lines; the k-th present field's block sits at lines 6 + 4·k to 6 + 4·k + 4 with that field's heading and text |
| Journal.Pushed | packages/voice/src/journal.ts:81-86 | one `if (field) lines.push(...)` step appends exactly that field's section lines |
| Journal.FormatEntry | packages/voice/src/journal.ts:69-124 | `formatEntry` pushes the lines step by step and joins them with newlines, giving the entry text |
| Journal.WriteThoughts | packages/voice/src/journal.ts:8-67 | the formatted entry is uploaded with its project flag; on success the temporary file is removed and the server's timestamp, path and the categories are returned; on any failure the temporary file is kept with the entry and the error is the server's message, `Upload failed` or the request's error |
| TimestampPaths.Pad3 | packages/voice/src/paths.ts:5-6 | `toISOString` writes milliseconds as exactly three digits |
| TimestampPaths.Fields | packages/voice/src/paths.ts:5-8 | the pieces cut from the ISO string: the date is the part before the first `T`, and the hours and seconds hold no `:` or `.` |
| TimestampPaths.FieldsOfShape | packages/voice/src/paths.ts:5-8 | any string shaped `dateThh:mm:ss.fffZ` splits back into exactly its date, hour, minute, second and fraction-with-`Z` |
| TimestampPaths.FieldsOfIso | packages/voice/src/paths.ts:5-8 | the ISO string of a valid instant splits into its date, two-digit hour, minute and second, and three-digit milliseconds followed by `Z` |
| TimestampPaths.VoiceEntryPath | packages/voice/src/paths.ts:3-12 | a path exists exactly when the timestamp splits, and it ends in `.md` |
| TimestampPaths.RouteEntryPath | packages/anima-server/routes/api/voice.post.ts:69-79 | a path exists exactly when the timestamp splits, and it ends in `Z.md` |
| TimestampPaths.VisionDir | packages/vision/src/paths.ts:5-12 | the image directory is `~/.claudia/vision` |
| TimestampPaths.ImagePath | packages/vision/src/paths.ts:14-23 | a path exists exactly when the timestamp splits, and it ends in `.<format>` |
| TimestampPaths.RouteImagePath | packages/anima-server/routes/api/vision.post.ts:149-163 | a path exists exactly when the timestamp splits, and it ends in `Z.<format>` |
| TimestampPaths.BuildersAgree | packages/anima-server/routes/api/voice.post.ts:69-79 | when the fraction is three digits and `Z`, keeping six characters of it (package copy) or three plus a literal `Z` (route copy) gives the same path, for entries and for images |
| TimestampPaths.EntryPathsAgree | packages/voice/src/paths.ts:3-12 | for every valid instant the entry is `<base>/<YYYY-MM-DD>/<HH-MM-SS-mmmZ>.md`, and the route's copy produces the same path |
| TimestampPaths.ImagePathsAgree | packages/vision/src/paths.ts:14-23 | for every valid instant the image is `<dir>/<YYYY-MM-DD>/<HH-MM-SS-mmmZ>.<format>`, and the route's copy produces the same path |
| VoiceRoute.Upload | packages/anima-server/routes/api/voice.post.ts:32-66 | missing or empty content is refused with "No content provided" and nothing is written; a failing write is reported with its message and changes nothing; otherwise the content is written at `<base>/<date>/<time>Z.md` and the reply carries the ISO timestamp and that path, which is the path the route's own builder gives for that timestamp |
| VisionRoute.FormatOf | packages/anima-server/routes/api/vision.post.ts:47 | `output_format \|\| "png"`: a given, non-empty format is kept, and the format is never empty |
| VisionRoute.Lookup | packages/anima-server/routes/api/vision.post.ts:121-147 | a field read from the form is one of its entries, and an absent field has no entry |
| VisionRoute.LookupEntry | packages/anima-server/routes/api/vision.post.ts:132-142 | an optional `append` adds the field exactly when the value is present |
| VisionRoute.FieldsAfterPrompt | packages/anima-server/routes/api/vision.post.ts:128-146 | the form starts with the prompt, ends with the output format and holds each optional field exactly as given |
| VisionRoute.FormFieldsSelected | packages/anima-server/routes/api/vision.post.ts:121-147 | the prompt comes first and the format last; the negative prompt and aspect ratio are sent only when non-empty, the seed whenever it is defined (as decimal text) |
| VisionRoute.BuildFormData | packages/anima-server/routes/api/vision.post.ts:121-147 | the appends build exactly the form fields described above |
| VisionRoute.SidecarPath | packages/anima-server/routes/api/vision.post.ts:82 | as intended (the corrected half of the vision-route finding): the image path with its extension `.<format>` swapped for `.json` |
| VisionRoute.ReplacementAtExtension | packages/anima-server/routes/api/vision.post.ts:82 | when `.<format>` occurs only as the extension, replacing its first occurrence gives the sidecar path |
| VisionRoute.MetadataBesideImage | packages/anima-server/routes/api/vision.post.ts:80-82 | for a base path without dots the route's replacement lands beside the image, as `<base>/<date>/<time>.json` |
| VisionRoute.FirstPngAfter | packages/anima-server/routes/api/vision.post.ts:82 | in a path whose directory part is `dir.png/…`, the first `.png` is the one in the directory name |
| VisionRoute.ReplacementHitsDirectory | packages/anima-server/routes/api/vision.post.ts:82 | as written, a base directory named `….png` gets its name rewritten instead of the file's extension, so the metadata is not beside the image |
| VisionRoute.MetadataPathMissesExtension | packages/anima-server/routes/api/vision.post.ts:81-82 | with base path `x.png`, the as-written metadata path differs from the sidecar path for every instant |
| VisionRoute.SavedImage | packages/anima-server/routes/api/vision.post.ts:81 | the saved image ends in `.<format>` |
| VisionRoute.Respond | packages/anima-server/routes/api/vision.post.ts:68-118 | a failed backend call is reported as "Stability AI API error: <status> - <text>" and nothing is written; a failing `mkdir` reports its message and writes nothing; otherwise the image bytes are written, and the metadata goes to the path where the first `.<format>` of the image path is replaced by `.json`; when that write fails the reply is its error and the image stays written; otherwise the reply carries the image path, the ISO timestamp, the prompt and the seed |
| VisionRoute.Generate | packages/anima-server/routes/api/vision.post.ts:36-118 | a missing or empty prompt is refused with "No prompt provided" and nothing is sent or written; otherwise the form sent is the one built from the request with its format defaulted, and the files and the reply are as for `Respond`, the metadata at the first-`.<format>` replacement |
| MemoryLane.Underscored | packages/memory-lane/src/index.ts:55 | `replace(/\//g, '_')`: every `/` becomes `_`, every other character is kept, and no `/` remains |
| MemoryLane.CwdToFilename | packages/memory-lane/src/index.ts:54-56 | the chat-log name holds no `/` and ends in `.md` |
| MemoryLane.Slashed | packages/memory-lane/src/index.ts:55 | the reverse mapping, `_` back to `/` |
| MemoryLane.CwdFromFilename | packages/memory-lane/src/index.ts:54-56 | for an absolute path without `_`, the directory can be read back from its chat-log name |
| MemoryLane.CwdNamesCollide | packages/memory-lane/src/index.ts:54-56 | the mapping is not one to one: `/a/b` and `/a_b` share the chat log `a_b.md` |
| MemoryLane.ImagePaths | packages/memory-lane/src/index.ts:76 | one path per comma-separated piece, each trimmed |
| MemoryLane.ImagePathsRoundTrip | packages/memory-lane/src/index.ts:76-77 | splitting a comma-joined list of trimmed, comma-free paths gives the list back |
| MemoryLane.FormatMessage | packages/memory-lane/src/index.ts:70-81 | the text starts with the role heading, timestamp and message; an `*Images: …*` line follows exactly when `images` is non-empty |
| MemoryLane.DigitPrefix | packages/memory-lane/src/index.ts:30 | `parseInt` reads the longest run of leading digits and stops at the first non-digit |
| MemoryLane.DigitPrefixOfDigits | packages/memory-lane/src/index.ts:30 | a string of digits is read whole |
| MemoryLane.ParseUnsigned | packages/memory-lane/src/index.ts:30 | text starting with a digit reads as an unsigned number |
| MemoryLane.ParseDigits | packages/memory-lane/src/index.ts:30 | the decimal text of a natural number reads back as that number |
| MemoryLane.ParseNegative | packages/memory-lane/src/index.ts:30 | a minus sign followed by the decimal text of k reads as -k |
| MemoryLane.ParseIntRoundTrip | packages/memory-lane/src/index.ts:30-37 | the id saved by `saveLastId` reads back as the same id |
| MemoryLane.IntTextTrimmed | packages/memory-lane/src/index.ts:30-37 | the saved id text is unchanged by `trim()` |
| MemoryLane.NextMessage | packages/memory-lane/src/index.ts:95-100 | the query returns the spoken (`ara` or `claudia`) row with the smallest id above the last id, or nothing when there is none |
| MemoryLane.StateFilesDistinct | packages/memory-lane/src/index.ts:8-11 | a chat log, the last-id file and the current-project file never share a path |
| MemoryLane.ChatLogInStateDir | packages/memory-lane/src/index.ts:59-61 | chat logs live in `chat-logs/` under the state directory |
| MemoryLane.RunOnce | packages/memory-lane/src/index.ts:84-153 | one run leaves the files and reports the outcome that the run function gives (caught up, cleared or shown) |
| MemoryLane.FirstRunStartsAtBeginning | packages/memory-lane/src/index.ts:28-32 | without a last-id file (id 0), a run finds a message exactly when some spoken message exists |
| MemoryLane.RunPassesLastId | packages/memory-lane/src/index.ts:95-100 | a run never goes back: the message it shows or clears has an id above the saved one |
| MemoryLane.ClearMovesOn | packages/memory-lane/src/index.ts:121-128 | `--clear` saves the message's id, so the next run moves past it |
| MemoryLane.ShowingRepeats | packages/memory-lane/src/index.ts:130-148 | without `--clear` the last id is not saved, so running again shows the same message and appends its text to the chat log a second time |
| MemoryLane.ProjectFollowsMessage | packages/memory-lane/src/index.ts:108-118 | after a run that finds a message, the current-project file names its directory (it is rewritten only when it differed) |
| Transcripts.Rendered | packages/memory-lane/src/gen-transcripts.ts:57-60 | an assistant message is rendered under `### Assistant` with a blank line, any other under `### User`; both end with the message text and a newline |
| Transcripts.TrailingDigits | packages/memory-lane/src/gen-transcripts.ts:108 | the `\d+$` match: the longest run of digits at the end of the name |
| Transcripts.TrailingDigitsOf | packages/memory-lane/src/gen-transcripts.ts:108 | digits after a non-digit are read back exactly |
| Transcripts.PartNamed | packages/memory-lane/src/gen-transcripts.ts:108-112 | a name `<base>-part<digits>` matches `-part\d+$`, and stripping the match leaves `<base>` |
| Transcripts.SplitNameNext | packages/memory-lane/src/gen-transcripts.ts:105-121 | the part after `-partN` is `-partN+1` of the same base |
| Transcripts.SplitNamePlain | packages/memory-lane/src/gen-transcripts.ts:114-116 | a day's first split goes to `-part2`, the split after that to `-part3` |
| Transcripts.AppendGrows | packages/memory-lane/src/gen-transcripts.ts:85 | appending keeps every file and only adds text at the end |
| Transcripts.SplitIntoGrows | packages/memory-lane/src/gen-transcripts.ts:105-121 | as intended: a split that keeps an existing part file only adds to files |
| Transcripts.WrittenGrows | packages/memory-lane/src/gen-transcripts.ts:80-85 | writing the project header and the message only adds to files |
| Transcripts.StepKeepsWritten | packages/memory-lane/src/gen-transcripts.ts:105-121 | as intended (the corrected half of the transcripts finding): handling a message with the part file kept never loses text already written |
| Transcripts.SplitIntoKeepsOthers | packages/memory-lane/src/gen-transcripts.ts:105-121 | a split, whether it rewrites the part file or keeps it, changes no other file than the part file |
| Transcripts.StepAsWrittenKeepsOthers | packages/memory-lane/src/gen-transcripts.ts:52-87 | as written, handling a message keeps every file except the day's part file, and those files only grow at their end |
| Transcripts.PartNameHoldsPart | packages/memory-lane/src/gen-transcripts.ts:105-116 | every part name the split produces holds `-part` |
| Transcripts.SplitNameDiffers | packages/memory-lane/src/gen-transcripts.ts:105-116 | the part name never equals the name of the file being split |
| Transcripts.StepWritesMessage | packages/memory-lane/src/gen-transcripts.ts:55-86 | after the loop body as written handles a message, its target file ends with the rendered message and the last project is the message's directory |
| Transcripts.NewDayStartsWithHeader | packages/memory-lane/src/gen-transcripts.ts:63-65 | as written, a new day's file starts with its `# Transcript for <date>` header after the message is handled, even when the message goes to the part file |
| Transcripts.OverflowStep | packages/memory-lane/src/gen-transcripts.ts:70-77 | a message whose UTF-16 `length` added to the day file's size in UTF-8 bytes passes 100 KiB goes to the part file, after its header (rewritten as written, kept as intended) and a project header; the day's file is left as it was |
| Transcripts.OverflowWipesPart | packages/memory-lane/src/gen-transcripts.ts:96-121 | as written, every overflowing message rewrites the part file from its header, so a second message wipes out the first; with the part file kept, both remain |
| Transcripts.Candidates | packages/memory-lane/src/gen-transcripts.ts:38-41 | the wanted rows are `claudia` rows with an id above the last id, in order |
| Transcripts.Query | packages/memory-lane/src/gen-transcripts.ts:35-44 | a page is the first at most 100 wanted rows; a page shorter than 100 holds them all |
| Transcripts.CandidatesShrink | packages/memory-lane/src/gen-transcripts.ts:86 | moving the last id past a wanted row leaves strictly fewer wanted rows (the loop terminates) |
| Transcripts.CandidatesFewer | packages/memory-lane/src/gen-transcripts.ts:86 | a larger last id never leaves more wanted rows |
| Transcripts.CandidatesAfter | packages/memory-lane/src/gen-transcripts.ts:39-40 | when ids rise with time, the rows wanted after the k-th wanted row are exactly the ones that follow it |
| Transcripts.PagesCoverAll | packages/memory-lane/src/gen-transcripts.ts:33-88 | when ids rise with time, the pages together hand out every wanted row exactly once, in order |
| Transcripts.RepeatsWhenIdsDisagree | packages/memory-lane/src/gen-transcripts.ts:39-40 | paging by id while ordering by timestamp can hand out a row twice: an earlier-stamped row with a larger id comes back |
| Transcripts.ReplayExtend | packages/memory-lane/src/gen-transcripts.ts:52-87 | the program's replay of one more message is one more step of the loop body as written |
| Transcripts.ReplayKeepsDays | packages/memory-lane/src/gen-transcripts.ts:52-87 | as written, every later message only adds to the days' files written so far; only part files (names holding `-part`) can lose text |
| Transcripts.ReplayKeptKeepsWritten | packages/memory-lane/src/gen-transcripts.ts:105-121 | as intended, with the part file kept, every later message only adds to every file written so far |
| Transcripts.NewFile | packages/memory-lane/src/gen-transcripts.ts:96-104 | `newFile` writes the header `# Transcript for <base>` |
| Transcripts.NewProject | packages/memory-lane/src/gen-transcripts.ts:123-129 | `newProject` appends the project header, with the home directory shown as `~` |
| Transcripts.SplitFile | packages/memory-lane/src/gen-transcripts.ts:105-121 | the split returns the next part name, rewrites that file with just its header (`newFile`) and appends a project header |
| Transcripts.HandleMessage | packages/memory-lane/src/gen-transcripts.ts:52-87 | handling one message, sizes measured as `statSync` bytes plus UTF-16 units, leaves the transcripts and the last project as one step of the loop body as written gives them |
| Transcripts.HandlePage | packages/memory-lane/src/gen-transcripts.ts:52-87 | handling a page leaves the transcripts as the as-written replay of every message handled so far, and the last id is that of the page's last message |
| Transcripts.GenTranscripts | packages/memory-lane/src/gen-transcripts.ts:24-92 | the directory is emptied, the messages handled are all the pages, and the transcripts are their replay by the loop body as written |
| Newsletter.Capture | scripts/publish-to-beehiiv.ts:32 | the `(.+)$` group is non-empty and is the end of the line |
| Newsletter.CaptureTrim | scripts/publish-to-beehiiv.ts:33 | trimmed, the group is the rest of the line after the `#` marker, trimmed |
| Newsletter.HeadingText | scripts/publish-to-beehiiv.ts:32-37 | a heading's trimmed text is the line after its marker and first space, trimmed |
| Newsletter.Converted | scripts/publish-to-beehiiv.ts:49-55 | no `---` line survives the three line passes |
| Newsletter.ConvertedCases | scripts/publish-to-beehiiv.ts:49-55 | a `---` line becomes empty, a `##` line an `<h2>` of its text, a `###` line an `<h3>`, and any other line is left alone |
| Newsletter.ConvertAll | scripts/publish-to-beehiiv.ts:49-55 | the passes keep one line per line and leave no rule |
| Newsletter.SkipNewlines | scripts/publish-to-beehiiv.ts:67 | `\n\n+` swallows all the line feeds of a run: what is left is a suffix that does not start with one |
| Newsletter.Paragraphs | scripts/publish-to-beehiiv.ts:67 | `split(/\n\n+/)`: at least one piece, the first a prefix of the text, and no piece holds a blank line |
| Newsletter.ParagraphsSingle | scripts/publish-to-beehiiv.ts:67 | text without a blank line is one piece |
| Newsletter.ParagraphsCons | scripts/publish-to-beehiiv.ts:67 | a paragraph, a blank line and the rest split into that paragraph and the rest's pieces |
| Newsletter.ParagraphsAtBreak | scripts/publish-to-beehiiv.ts:67 | a leading blank line gives an empty first piece |
| Newsletter.ParagraphsJoin | scripts/publish-to-beehiiv.ts:67 | splitting clean paragraphs joined by blank lines gives them back |
| Newsletter.Spaced | scripts/publish-to-beehiiv.ts:83 | `replace(/\n/g, ' ')`: same length, no line feed left, every other character kept |
| Newsletter.Kept | scripts/publish-to-beehiiv.ts:67 | `filter(block => block.trim())`: a piece is kept if and only if it is not blank |
| Newsletter.BlockCases | scripts/publish-to-beehiiv.ts:69-84 | a block starting with `<` is kept; any other is wrapped in a styled `<p>` with its line feeds turned to spaces; every block then starts with `<` |
| Newsletter.Html | scripts/publish-to-beehiiv.ts:66-87 | the body always ends with the footer spacer after a blank line |
| Newsletter.FirstSubtitlePair | scripts/publish-to-beehiiv.ts:36 | the subtitle pattern matches at the first title line that is directly followed by a `##` line, and nowhere before |
| Newsletter.Blanked | scripts/publish-to-beehiiv.ts:43-45 | a `replace` without `g` empties exactly the one matched line |
| Newsletter.BodyAsWritten | scripts/publish-to-beehiiv.ts:43-46 | as written, the removals keep one line per line |
| Newsletter.SubtitleLine | scripts/publish-to-beehiiv.ts:35-37 | as intended, the subtitle is the `##` line right after the first title, or there is none |
| Newsletter.Body | scripts/publish-to-beehiiv.ts:42-46 | as intended, exactly the title line and, when there is a subtitle, its own line are removed; every other line is kept |
| Newsletter.ParseTitle | scripts/publish-to-beehiiv.ts:32-33 | for the parser as written and as intended alike, the title is the first `#` line's text, trimmed |
| Newsletter.ParseUntitled | scripts/publish-to-beehiiv.ts:33 | for both parsers, without a `#` line the title is `Untitled Post` |
| Newsletter.ParseSubtitle | scripts/publish-to-beehiiv.ts:36-37 | as written, the subtitle is the `##` line of the first place where a `#` line is directly followed by a `##` line, trimmed |
| Newsletter.ParseNoSubtitle | scripts/publish-to-beehiiv.ts:36-37 | as written, there is no subtitle if and only if no `#` line is directly followed by a `##` line |
| Newsletter.ParseSubtitleAsIntended | scripts/publish-to-beehiiv.ts:35-37 | as intended, a `##` line right after the first title gives the subtitle, trimmed |
| Newsletter.NoSubtitleAsIntended | scripts/publish-to-beehiiv.ts:35-37 | as intended, with no `##` line right after the first title there is no subtitle |
| Newsletter.LaterPairLine | scripts/publish-to-beehiiv.ts:36-37 | as written, the subtitle comes from the first title-and-subheading pair anywhere in the text |
| Newsletter.SubtitleFromLaterPair | scripts/publish-to-beehiiv.ts:36-37 | as written, a later pair supplies the subtitle even though the first title has none |
| Newsletter.EarlySubtitle | scripts/publish-to-beehiiv.ts:44 | in that case the subtitle is non-empty, so the subtitle removal runs |
| Newsletter.EarlyRemoval | scripts/publish-to-beehiiv.ts:43-45 | the title removal hits line 0, and the subtitle removal then hits the first `##` line, the early one |
| Newsletter.BodyAsWrittenBlanks | scripts/publish-to-beehiiv.ts:43-46 | as written, the body has the title line and the first `##` line emptied |
| Newsletter.UntitledSubheading | scripts/publish-to-beehiiv.ts:45 | once the title line is emptied, the first `##` match is the first subheading after it |
| Newsletter.SubtitleRemovesWrongLine | scripts/publish-to-beehiiv.ts:36-46 | as written, a subheading before the subtitle pair is deleted while the line used as the subtitle stays in the body |
| Newsletter.SubtitleKeptInPlace | scripts/publish-to-beehiiv.ts:35-46 | as intended, the same text has no subtitle and keeps both subheadings |
| Newsletter.ExampleHasEarlySubheading | scripts/publish-to-beehiiv.ts:36-46 | the text `# A`, `text`, `## Early`, `# B`, `## Sub` shows the case: the subtitle is `Sub` and `## Early` is the line removed |
| Newsletter.PostFor | scripts/publish-to-beehiiv.ts:106-112 | the request carries the title and body; the subtitle only when it is non-empty; the status is `confirmed` exactly when publishing, `draft` otherwise |
| Newsletter.Publish | scripts/publish-to-beehiiv.ts:139-171 | without a file argument the script stops with its usage message; it posts exactly when the file argument is given and the file is read, the post built from the file parsed as written and the `--publish` flag |
| LuminaCollections.Served | packages/lumina/routes/api/collections.ts:41 | a path under `/Users/claudia/vision/` is served from `/vision/` with the rest kept; any other path is left alone |
| LuminaCollections.ServedTwice | packages/lumina/routes/api/collections.ts:41 | rewriting a served path again changes nothing |
| LuminaCollections.Id | packages/lumina/routes/api/collections.ts:71 | `path.basename(file, '.md')`: the `.md` extension is removed, except from a name that is only `.md`, which is kept whole; the id is empty only for an empty name |
| LuminaCollections.TitleFound | packages/lumina/routes/api/collections.ts:33-34 | the title is the text of the first `# ` line |
| LuminaCollections.TitleMissing | packages/lumina/routes/api/collections.ts:34 | without a `# ` line the title is the id |
| LuminaCollections.FieldIn | packages/lumina/routes/api/collections.ts:37 | a field's value is the non-empty rest of its line after the label |
| LuminaCollections.Field | packages/lumina/routes/api/collections.ts:37-44 | a field is missing exactly when no line carries its label; a found value is non-empty |
| LuminaCollections.FieldAtStart | packages/lumina/routes/api/collections.ts:37-38 | a line `label value` gives back `value` |
| LuminaCollections.FieldFound | packages/lumina/routes/api/collections.ts:37-38 | the first line carrying the label decides the value |
| LuminaCollections.FieldOr | packages/lumina/routes/api/collections.ts:38 | a missing field reads as the empty string |
| LuminaCollections.RunEnd | packages/lumina/routes/api/collections.ts:47 | a run of matching characters ends at the first one that does not match |
| LuminaCollections.Words | packages/lumina/routes/api/collections.ts:47 | `split(/\s+/)` (with empty pieces dropped) gives non-empty pieces without spaces |
| LuminaCollections.WordsOfWord | packages/lumina/routes/api/collections.ts:47 | a word followed by spaces splits off as the first piece |
| LuminaCollections.WordsJoin | packages/lumina/routes/api/collections.ts:47 | splitting words joined by single spaces gives them back |
| LuminaCollections.Hashtags | packages/lumina/routes/api/collections.ts:47 | a piece is kept if and only if it starts with `#` |
| LuminaCollections.HashtagsAll | packages/lumina/routes/api/collections.ts:47 | when every piece is a hashtag, all are kept, in order |
| LuminaCollections.Tags | packages/lumina/routes/api/collections.ts:46-47 | every tag starts with `#` and holds no space |
| LuminaCollections.TagsJoin | packages/lumina/routes/api/collections.ts:46-47 | a tags line of space-separated hashtags reads back as those hashtags |
| LuminaCollections.HeadingLine | packages/lumina/routes/api/collections.ts:51 | `### <n>. <title>` is a piece heading |
| LuminaCollections.AfterSpaces | packages/lumina/routes/api/collections.ts:51 | `\s+(.+?)`: the value after at least one space is non-empty and the part before it is all spaces |
| LuminaCollections.AfterSpacesOf | packages/lumina/routes/api/collections.ts:51 | spaces followed by a value read back as that value |
| LuminaCollections.ImageIn | packages/lumina/routes/api/collections.ts:51 | an image line's path is non-empty and sits between backquotes after the image label |
| LuminaCollections.ImageLineRead | packages/lumina/routes/api/collections.ts:51 | an image line gives back its path |
| LuminaCollections.Unquoted | packages/lumina/routes/api/collections.ts:51 | `"?(.+?)"?` drops optional quotes and keeps a non-empty caption |
| LuminaCollections.CaptionIn | packages/lumina/routes/api/collections.ts:51 | a caption is non-empty and only read from a caption line |
| LuminaCollections.CaptionLineRead | packages/lumina/routes/api/collections.ts:51 | a quoted caption line gives back the caption without its quotes |
| LuminaCollections.PlainIn | packages/lumina/routes/api/collections.ts:51 | the created and context values are the non-empty end of their labelled line |
| LuminaCollections.PlainLineRead | packages/lumina/routes/api/collections.ts:51 | a labelled line gives back its value |
| LuminaCollections.Optional | packages/lumina/routes/api/collections.ts:51 | an optional group consumes a line exactly when it matches |
| LuminaCollections.MatchAt | packages/lumina/routes/api/collections.ts:51 | a match consumes its heading and at most the lines of its groups |
| LuminaCollections.NextHeading | packages/lumina/routes/api/collections.ts:54 | `exec` continues at the next piece heading that has a line after it, skipping nothing that is one |
| LuminaCollections.Exec | packages/lumina/routes/api/collections.ts:54 | each `exec` moves strictly forward |
| LuminaCollections.Kept | packages/lumina/routes/api/collections.ts:56-63 | the pieces are exactly the matches with an image, turned into pieces |
| LuminaCollections.KeptAppend | packages/lumina/routes/api/collections.ts:54-64 | keeping pieces distributes over the matches |
| LuminaCollections.CollectPieces | packages/lumina/routes/api/collections.ts:50-64 | the `exec` loop collects the pieces of all matches that have an image |
| LuminaCollections.PieceBlock | packages/lumina/routes/api/collections.ts:51 | a heading followed by an image line and a caption line matches with that image and caption |
| LuminaCollections.NotesStart | packages/lumina/routes/api/collections.ts:67 | the notes start inside the text |
| LuminaCollections.NotesAfterLabel | packages/lumina/routes/api/collections.ts:67 | the notes start right after the `## Artist Notes` label and its blank line |
| LuminaCollections.LineEndFrom | packages/lumina/routes/api/collections.ts:67 | the multiline `$` stops at the first line end |
| LuminaCollections.SectionEndFrom | packages/lumina/routes/api/collections.ts:67 | the intended stop is the first `\n##`, `\n---`, `\n*` or the end |
| LuminaCollections.NotBreakAt | packages/lumina/routes/api/collections.ts:67 | a position that is not a line feed followed by `#`, `-` or `*` is not a section break |
| LuminaCollections.NoBreakInNotes | packages/lumina/routes/api/collections.ts:67 | two plain lines of notes hold no section break |
| LuminaCollections.NotesCutAtLineBreak | packages/lumina/routes/api/collections.ts:67-68 | as written, two-line notes are cut to their first line |
| LuminaCollections.NotesWholeSection | packages/lumina/routes/api/collections.ts:67-68 | as intended, two-line notes are kept whole |
| LuminaCollections.CollectionOf | packages/lumina/routes/api/collections.ts:27-79 | the collection's id is the file's base name, it has at most one piece per piece match, and it has artist notes exactly when the `## Artist Notes` label is followed by text; the notes are the as-written first-line cut |
| LuminaCollections.ParseCollection | packages/lumina/routes/api/collections.ts:27-84 | an unreadable file gives no collection; a readable one gives the collection its text describes, with the artist notes as written |
| LuminaCollections.Listed | packages/lumina/routes/api/collections.ts:93-102 | at most one collection per directory entry |
| LuminaCollections.ListedFiles | packages/lumina/routes/api/collections.ts:93-102 | the collections are exactly those of the readable `.md` files |
| LuminaCollections.ListCollections | packages/lumina/routes/api/collections.ts:86-111 | an unreadable directory gives no collections; otherwise one collection per readable `.md` entry, in directory order, each as the file parsed as written |
| LuminaImages.LastDot | packages/lumina/routes/api/images.ts:44 | the position found holds a dot |
| LuminaImages.LastDotLast | packages/lumina/routes/api/images.ts:44 | it is the last dot of the name, and no position is found only when the name has no dot |
| LuminaImages.LastDotIs | packages/lumina/routes/api/images.ts:44 | a dot with no dot after it is the one found |
| LuminaImages.Ext | packages/lumina/routes/api/images.ts:44 | `path.extname`: a suffix of the name that starts with a dot and is never the whole name (a leading dot does not start an extension) |
| LuminaImages.ExtHasOneDot | packages/lumina/routes/api/images.ts:44 | the extension holds no dot after its first character, and a name without dots has none |
| LuminaImages.BaseName | packages/lumina/routes/api/images.ts:45 | the base name followed by the extension is the file name |
| LuminaImages.SplitName | packages/lumina/routes/api/images.ts:44-45 | `<base>.<ext>`, with one dot, splits into exactly that base and extension |
| LuminaImages.NameOf | packages/lumina/routes/api/images.ts:43-45 | each file is kept with its base name and extension, which together give the file name |
| LuminaImages.Names | packages/lumina/routes/api/images.ts:43-45 | one named file per file |
| LuminaImages.Filed | packages/lumina/routes/api/images.ts:47-57 | filing a file makes sure its base name has a group and adds no other name |
| LuminaImages.GroupedOrdered | packages/lumina/routes/api/images.ts:41-58 | the `Map` lists each base name once, in first-seen order, and exactly the listed names have a group |
| LuminaImages.GroupedNames | packages/lumina/routes/api/images.ts:47-49 | a base name has a group if and only if some file has that base name |
| LuminaImages.GroupedImage | packages/lumina/routes/api/images.ts:53-54 | a group's image is the last file of that base name with an image extension (`.png`, `.jpg`, `.jpeg` or `.webp`) |
| LuminaImages.GroupedJson | packages/lumina/routes/api/images.ts:55-56 | a group's metadata file is the last `.json` file of that base name |
| LuminaImages.NoneBefore | packages/lumina/routes/api/images.ts:47-57 | a base name without a group has no file at all |
| LuminaImages.LastWith | packages/lumina/routes/api/images.ts:53-57 | a file picked for a group is one of the files, with that base name and a matching extension |
| LuminaImages.GroupFiles | packages/lumina/routes/api/images.ts:41-58 | the loop builds the grouping of the files |
| LuminaImages.TitleOf | packages/lumina/routes/api/images.ts:80 | the title is the longest prefix of a non-empty prompt that fits in 50 UTF-16 code units (never empty), otherwise the base name |
| LuminaImages.TimestampOf | packages/lumina/routes/api/images.ts:81 | a non-empty metadata timestamp is used, otherwise the folder name |
| LuminaImages.ImageOf | packages/lumina/routes/api/images.ts:64-85 | the image is served at `/vision/<folder>/<file>` with its metadata; without metadata the title is the base name, the timestamp the folder, and there is no prompt or backend |
| LuminaImages.MetadataOf | packages/lumina/routes/api/images.ts:67-76 | metadata is read only when the group has a `.json` file, and only when that file could be read and parsed |
| LuminaImages.FolderImages | packages/lumina/routes/api/images.ts:61-86 | at most one image per group |
| LuminaImages.WithImage | packages/lumina/routes/api/images.ts:62 | the groups kept are listed groups that have an image |
| LuminaImages.FolderImagesFromGroups | packages/lumina/routes/api/images.ts:61-86 | one image per group that has an image, in listing order, each served from its image file |
| LuminaImages.FolderImagesStep | packages/lumina/routes/api/images.ts:61-86 | one more group adds its image exactly when it has one |
| LuminaImages.ListFolder | packages/lumina/routes/api/images.ts:38-86 | the folder's loop lists the images of its grouped files |
| LuminaImages.ImageFromFiles | packages/lumina/routes/api/images.ts:53-54 | a group's image is one of the folder's files and has an image extension |
| LuminaImages.FolderImagesFromFiles | packages/lumina/routes/api/images.ts:38-86 | every image listed for a folder is served from one of its image files |
| LuminaImages.AllImages | packages/lumina/routes/api/images.ts:29-96 | the listing fails (and the route returns `[]`) exactly when some entry cannot be examined or some folder cannot be read |
| LuminaImages.AllImagesStep | packages/lumina/routes/api/images.ts:31-38 | each entry either fails the listing, is skipped when it is not a folder, or adds its folder's images |
| LuminaImages.AllImagesFromFolders | packages/lumina/routes/api/images.ts:29-87 | every image listed is served from an image file of a dated folder |
| LuminaImages.ListImages | packages/lumina/routes/api/images.ts:24-97 | an unreadable root or any failing entry gives `[]`; otherwise the images of all folders, in listing order |
| MarkdownSection.Headings | packages/anima-server/utils/markdown-section.ts:42-52 | `visit(tree, 'heading', …)` sees only heading nodes, in document order |
| MemoryTypes.CheckedKeepsAll | packages/heart/src/lib/parser.ts:30-53 | the `as MemoryFrontmatter` cast keeps every field: a header with the required fields and a list of categories reads back as itself |
| MemoryTypes.CheckedOnto | packages/heart/src/lib/parser.ts:30-53 | every frontmatter record is the cast of some raw header |
| Text.Lower | packages/anima-server/utils/markdown-section.ts:47 | the lower-casing used for section names folds ASCII letters only, keeps the length and maps each character on its own (JavaScript's `toLowerCase` does more; see Left out) |
| Text.Trim | packages/memory-lane/src/index.ts:30 | `trim()` removes only leading and trailing white space, and what it returns starts and ends with a visible character |
| Text.Split | packages/vision/src/paths.ts:16-19 | `split(c)` gives at least one piece, none holding `c` |
| Text.JoinSplit | packages/vision/src/paths.ts:16-19 | joining the pieces with `c` gives back the text |
| Text.SplitJoin | packages/memory-lane/src/index.ts:76 | splitting a `c`-joined list of `c`-free pieces gives them back |
| Text.Take | packages/voice/src/paths.ts:9 | `slice(0, n)` is a prefix of at most n characters, the whole text when it is shorter |
| Text.Utf16Length | packages/memory-lane/src/gen-transcripts.ts:70 | JavaScript's `length`: between one and two UTF-16 code units per character |
| Text.Utf8Size | packages/memory-lane/src/gen-transcripts.ts:67 | a file's size in UTF-8: between one and four bytes per character |
| Text.AsciiSizes | packages/memory-lane/src/gen-transcripts.ts:67-70 | for ASCII text the byte size, the UTF-16 length and the character count agree |
| Text.Utf16Prefix | packages/lumina/routes/api/images.ts:80 | `substring(0, n)`: a prefix of at most n UTF-16 units, the whole text when it fits, and no longer prefix fits |
| Text.ReplaceFirst | packages/anima-server/routes/api/vision.post.ts:82 | `replace` with a string pattern changes only its first occurrence, and nothing when there is none |
| Text.Decimal | packages/memory-lane/src/index.ts:37 | `toString` of a natural number: digits only, no leading zero |
| Text.DecimalRoundTrip | packages/memory-lane/src/index.ts:30-37 | the digits read back as the number |
| Text.IntText | packages/memory-lane/src/index.ts:37 | `toString` of an integer: non-empty, the decimal digits for a non-negative one |
| Text.Pad2 | packages/voice/src/paths.ts:5-7 | a two-digit field of the ISO string reads back as its number |

## Left out

- Markdown parsing and printing (remark's `parse` and `stringify`) are not modelled. A document is its list of top-level blocks, and the printed text is a function of that list.
- Headings nested inside other blocks, such as block quotes or list items, are not seen by the section editor model, which searches the root's children only.
- Values of the YAML header other than strings and string lists are not modelled, and neither are keys other than the known ones.
- SQL `LIKE` wildcards (`%`, `_`) inside a category or tag value are not modelled. The filter is a case-insensitive substring test on ASCII letters.
- SQLite leaves the order of rows with equal sort keys open. The model breaks such ties by row id.
- The `journal_mode = WAL` pragma and SQLite errors other than a failing upsert are not modelled.
- The `sections` table appears only as part of the schema. No code in the core writes it.
- Clocks are parameters (`now`, `Instant`, `dateOf`). So are `Date.now()`, `toLocaleString` and the conversion of a timestamp to its day.
- MemoryLane.Run: `stampOf` stands for `formatTimestamp` (packages/memory-lane/src/index.ts:64-67), the pure `new Date(t * 1000).toISOString()`. It is a parameter because converting Unix seconds to a calendar instant is not modelled; its text for that instant is what `TimestampPaths.IsoString` builds.
- The classification script called by the remember route is an input: its parsed answer or its error.
- `diff -u` output is an opaque string or error passed in. The temporary files around it are modelled.
- Authentication checks (the bearer token of the voice and vision routes) are not modelled.
- HTTP requests (journal upload, image backend, newsletter service) are modelled only through their replies. The service's own error responses after the post are not modelled.
- Console output is not modelled, including the counts and statistics the commands print.
- Newsletter.ParseAsWritten: like Newsletter.Parse, it takes the bold, italic and link passes as one `inline` parameter, not three regular expressions. The `\s+` of a heading pattern is taken within one line.
- Newsletter.Publish: the `thumbnail_url` option is never set by the script and is not modelled.
- LuminaCollections.MatchAt: the piece pattern is taken line by line (one field per line), and lazy matches that would span a line feed are not modelled.
- LuminaCollections.ListCollections: the final sort by `created` date is not modelled, and neither is the parsing of dates. The list is in directory order.
- LuminaImages.ListImages: the final sort by timestamp is not modelled. The list is in folder and group order.
- LuminaImages.MetadataOf: JSON parsing of the metadata file is a map from path to parsed metadata. A missing entry stands for a read or parse failure. Parsed fields are strings or absent. Fields of other JSON types are not modelled. In the source, a `prompt` that is present but not a string (a number, say) makes `substring` throw (packages/lumina/routes/api/images.ts:80), and the outer `catch` then returns an empty listing (images.ts:93-96). A non-string `timestamp` or `backend` is passed through unchanged.
- The write route's `createdMs` and `updatedMs` (write.post.ts lines 131-132) are computed and never used, so they are not modelled.
- Text.Lower: JavaScript's `toLowerCase` folds every Unicode letter, can change the length (`İ` becomes `i̇`) and treats a final sigma by context; the model folds the ASCII letters `A` to `Z` only.
- MarkdownSection.FirstMatchFrom: section names are compared through that ASCII folding, so a heading `Über` does not match the name `über` here, while the source matches it.
- Text.Utf16Prefix: when the 50th UTF-16 unit is the first half of a surrogate pair, `substring` keeps a lone surrogate, which a Dafny string cannot hold; the model drops the whole pair.
- `path.join` normalisation (`..`, `.`, repeated `/`) is not modelled: a path is the plain `/`-joined text, so two file names that normalise to one file are two keys here.
- MemoryStore.Statistics: `byCategory` is a map, so the order of the `GROUP BY` rows is not kept.
- The transcript generator's unbounded `while (true)` is bounded by the number of rows, since each page moves the last id past at least one wanted row.

## Findings

The operations model the code as written. For each row below, the corrected
definition stands beside them, with the intended property proved about it.

| source | as written | input that shows it | evidently intended | confidence | as-written member | corrected member |
|---|---|---|---|---|---|---|
| packages/anima-server/routes/api/vision.post.ts:82 | the metadata path replaces the first `.<format>` anywhere in the image path | an image directory configured as `x.png`: the metadata goes to `x.json/<date>/<time>.png` | the image's own extension swapped for `.json` | not executed; needs a dotted directory name | VisionRoute.ReplacementHitsDirectory | VisionRoute.MetadataBesideImage |
| packages/memory-lane/src/gen-transcripts.ts:105-121 | every overflowing message calls `newFile` on the part file, rewriting it from its header | a day file already at 100 KiB and two more messages of that day in one project: the part file keeps only the second | add later messages to the part file, creating it only when missing | not executed | Transcripts.OverflowWipesPart | Transcripts.StepKeepsWritten |
| scripts/publish-to-beehiiv.ts:36-46 | the subtitle comes from the first title-and-`##` pair anywhere, while the removal deletes the first `##` line anywhere | `# A`, `text`, `## Early`, `# B`, `## Sub`: the subtitle is `Sub`, `## Early` is deleted and `## Sub` stays in the body | the subtitle is the `##` line right after the title, and that line is the one removed | not executed | Newsletter.SubtitleRemovesWrongLine | Newsletter.SubtitleKeptInPlace |
| packages/lumina/routes/api/collections.ts:67 | with the `m` flag, `$` in the look-ahead stops the lazy notes group at the first line end | `## Artist Notes\n\nFirst.\nSecond.`: the notes are `First.` | the notes run to the next `##`, `---` or `*` line, or the end | not executed | LuminaCollections.NotesCutAtLineBreak | LuminaCollections.NotesWholeSection |
