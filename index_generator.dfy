/** The generated `index.md`: a header with the date and the memory count, the
    ten most recently updated memories, one section per well-known category, and
    a usage footer. Three copies of the generator exist (the shared library
    function, the command-line tool and the write route); they differ only in
    the footer text. */
module IndexGenerator {
  import opened Wrappers
  import Text
  import opened MemoryTypes
  import opened MemoryStore
  import Files

  /** `new Date().toISOString().split("T")[0]` for the clock reading `now`. */
  function Today(now: string): (day: string)
    ensures Text.StartsWith(now, day) && 'T' !in day
  {
    var parts := Text.Split(now, 'T');
    SplitFirstIsPrefix(now, 'T');
    parts[0]
  }

  lemma {:induction false} SplitFirstIsPrefix(s: string, c: char)
    ensures Text.StartsWith(s, Text.Split(s, c)[0])
  {
    if s != [] && s[0] != c {
      SplitFirstIsPrefix(s[1..], c);
      assert Text.Split(s, c)[0] == [s[0]] + Text.Split(s[1..], c)[0];
    }
  }

  /** The path without its trailing `/`s. */
  function TrimSlashes(p: string): (t: string)
    ensures Text.StartsWith(p, t)
    ensures t == [] || t[|t| - 1] != '/'
  {
    if p != [] && p[|p| - 1] == '/' then TrimSlashes(p[..|p| - 1]) else p
  }

  /** The text after the last `/`, or all of it when there is none. */
  function LastSegment(t: string): (seg: string)
    ensures '/' !in seg && Text.EndsWith(t, seg)
    ensures |seg| < |t| ==> t[|t| - |seg| - 1] == '/'
  {
    if t == [] || t[|t| - 1] == '/' then [] else LastSegment(t[..|t| - 1]) + [t[|t| - 1]]
  }

  /** Node's posix `path.basename(p, ext)`. A path equal to the extension
      gives `""`. Otherwise the trailing `/`s are dropped and the last segment
      is taken. The extension is cut off when that segment ends with it and is
      longer than it. A segment that is only the tail of the extension comes
      back with the trailing `/`s still attached. An all-`/` path is returned
      whole. The extension is used only when it is non-empty and no longer
      than the path. */
  function BaseName(p: string, ext: string): string
  {
    if 0 < |ext| <= |p| && p == ext then [] else TrimmedBase(p, TrimSlashes(p), ext)
  }

  /** The base name of `p` once its trailing `/`s are dropped, leaving `t`. */
  function TrimmedBase(p: string, t: string, ext: string): string
    requires |t| <= |p|
  {
    if t == [] then (if 0 < |ext| <= |p| then p else [])
    else SegmentBase(LastSegment(t), p[|t|..], 0 < |ext| <= |p|, ext)
  }

  /** The last segment `seg`, followed in the path by the `/`s of `trailing`,
      with the extension cut off when it applies. */
  function SegmentBase(seg: string, trailing: string, suffixed: bool, ext: string): string
  {
    if suffixed && Text.EndsWith(seg, ext) && seg != ext then seg[..|seg| - |ext|]
    else if suffixed && |seg| < |ext| && Text.EndsWith(ext, seg) then seg + trailing
    else seg
  }

  /** A path equal to the extension has the empty base name; a path that does
      not end in `/` has a base name without `/` that ends the path, alone or
      followed by the extension. */
  lemma BaseNameShape(p: string, ext: string)
    ensures 0 < |ext| && p == ext ==> BaseName(p, ext) == []
    ensures (p == [] || p[|p| - 1] != '/') ==>
      var b := BaseName(p, ext);
      '/' !in b && (Text.EndsWith(p, b) || Text.EndsWith(p, b + ext))
  {
    if p != [] && p[|p| - 1] != '/' && !(0 < |ext| <= |p| && p == ext) {
      var t := TrimSlashes(p);
      assert t == p;
      var seg := LastSegment(t);
      assert p[|t|..] == [];
      var b := SegmentBase(seg, [], 0 < |ext| <= |p|, ext);
      assert BaseName(p, ext) == b;
      SegmentBaseShape(seg, 0 < |ext| <= |p|, ext);
      if b + ext == seg {
        assert p[|p| - |b + ext|..] == b + ext;
      }
    }
  }

  lemma SegmentBaseShape(seg: string, suffixed: bool, ext: string)
    requires '/' !in seg
    ensures var b := SegmentBase(seg, [], suffixed, ext);
      '/' !in b && (b == seg || b + ext == seg)
  {
    if suffixed && Text.EndsWith(seg, ext) && seg != ext {
      assert seg == seg[..|seg| - |ext|] + ext;
    } else if suffixed && |seg| < |ext| && Text.EndsWith(ext, seg) {
      assert seg + [] == seg;
    }
  }

  lemma {:induction false} LastSegmentAfterSlash(d: string, n: string)
    requires d == [] || d[|d| - 1] == '/'
    requires '/' !in n
    ensures LastSegment(d + n) == n
  {
    if n != [] {
      assert (d + n)[..|d + n| - 1] == d + n[..|n| - 1];
      LastSegmentAfterSlash(d, n[..|n| - 1]);
      assert n == n[..|n| - 1] + [n[|n| - 1]];
    } else {
      assert d + n == d;
    }
  }

  /** A memory file `<dir>/<name>.md` (or `<name>.md` at the root) with a
      non-empty name is listed under that name. */
  lemma BaseNameOfFile(d: string, n: string, ext: string)
    requires d == [] || d[|d| - 1] == '/'
    requires n != [] && '/' !in n && 0 < |ext| && '/' !in ext
    ensures BaseName(d + n + ext, ext) == n
  {
    var seg := n + ext;
    assert d + n + ext == d + seg;
    LastSegmentAfterSlash(d, seg);
    assert seg[|seg| - |ext|..] == ext;
    assert seg[..|seg| - |ext|] == n;
    BaseNameCut(d + seg, ext);
  }

  /** A path ending in a segment longer than the extension and ending with it. */
  lemma BaseNameCut(p: string, ext: string)
    requires p != [] && p[|p| - 1] != '/' && 0 < |ext| && |ext| < |LastSegment(p)|
    requires Text.EndsWith(LastSegment(p), ext)
    ensures BaseName(p, ext) == LastSegment(p)[..|LastSegment(p)| - |ext|]
  {
    var t := TrimSlashes(p);
    assert t == p;
  }

  /** A path ending in a segment the extension does not cut. */
  lemma BaseNameUncut(p: string, ext: string)
    requires p != [] && p[|p| - 1] != '/'
    requires !Text.EndsWith(LastSegment(p), ext) || LastSegment(p) == ext
    requires p != ext
    ensures BaseName(p, ext) == LastSegment(p)
  {
    var t := TrimSlashes(p);
    assert t == p;
    var seg := LastSegment(t);
    assert p[|t| - |seg|..] == seg;
  }

  /** A file named just `.md` at the root is listed as `""`, and one inside a
      directory keeps the name `.md`. */
  lemma BaseNameOfBareExtension(d: string, ext: string)
    requires d == [] || d[|d| - 1] == '/'
    requires 0 < |ext| && '/' !in ext
    ensures BaseName(d + ext, ext) == (if d == [] then [] else ext)
  {
    var p := d + ext;
    if d == [] {
      assert p == ext;
    } else {
      LastSegmentAfterSlash(d, ext);
      assert p[|p| - 1] == ext[|ext| - 1];
      assert TrimSlashes(p) == p;
      assert p != ext;
    }
  }

  /** A file whose name does not end with the extension is listed whole. */
  lemma BaseNameWithoutExtension(d: string, n: string, ext: string)
    requires d == [] || d[|d| - 1] == '/'
    requires n != [] && '/' !in n && '/' !in ext && !Text.EndsWith(n, ext)
    ensures BaseName(d + n, ext) == n
  {
    LastSegmentAfterSlash(d, n);
    var p := d + n;
    assert p[|p| - 1] == n[|n| - 1];
    BaseNameUncut(p, ext);
  }

  /** The three shapes of an index line. */
  datatype EntryStyle =
    | Event    // recent events and milestones: title, date, author, summary line
    | File     // core, relationships, projects: file base name and summary or title
    | Insight  // insights: title and summary or title

  /** `memory.summary || memory.title`. */
  function SummaryOrTitle(r: MemoryRecord): (s: string)
    ensures Truthy(r.summary) ==> s == r.summary.value
    ensures !Truthy(r.summary) ==> s == r.title
  {
    if Truthy(r.summary) then r.summary.value else r.title
  }

  /** The line (or lines) one memory contributes to a section. */
  function Entry(r: MemoryRecord, style: EntryStyle): (line: string)
  {
    match style
    case Event =>
      "- **[" + r.title + "](" + r.filename + ")** - " + r.date +
      (if Truthy(r.author) then " (" + r.author.value + ")" else "") + "\n" +
      (if Truthy(r.summary) then "  " + r.summary.value + "\n" else "")
    case File =>
      "- **[`" + BaseName(r.filename, ".md") + "`](" + r.filename + ")** - " + SummaryOrTitle(r) + "\n"
    case Insight =>
      "- **[" + r.title + "](" + r.filename + ")** - " + SummaryOrTitle(r) + "\n"
  }

  /** The lines of a section, one per row, in query order. */
  function Lines(rows: seq<MemoryRecord>, style: EntryStyle): (lines: seq<string>)
    ensures |lines| == |rows|
  {
    if rows == [] then [] else [Entry(rows[0], style)] + Lines(rows[1..], style)
  }

  lemma {:induction false} LineOfRow(rows: seq<MemoryRecord>, i: nat, style: EntryStyle)
    requires i < |rows|
    ensures Lines(rows, style)[i] == Entry(rows[i], style)
  {
    var rest := Lines(rows[1..], style);
    assert Lines(rows, style) == [Entry(rows[0], style)] + rest;
    if i > 0 {
      LineOfRow(rows[1..], i - 1, style);
      assert rows[1..][i - 1] == rows[i];
    }
  }

  /** The text of a section. */
  function Entries(rows: seq<MemoryRecord>, style: EntryStyle): string {
    Text.Concat(Lines(rows, style))
  }

  /** Every row of a section's query has its line in the section. */
  lemma EntryListed(rows: seq<MemoryRecord>, i: nat, style: EntryStyle)
    requires i < |rows|
    ensures Text.Contains(Entries(rows, style), Entry(rows[i], style))
  {
    LineOfRow(rows, i, style);
    Text.ConcatContains(Lines(rows, style), i);
  }

  /** The line that states the number of memories. */
  function TotalLine(total: nat): string {
    "**Total Memories:** " + Text.Decimal(total) + "\n"
  }

  /** The three copies of the generator: the shared library function (used by
      the remember route), the generate-index command and the write route. */
  datatype Copy = Library | Cli | Route

  /** The fixed text of an index: the pieces around the date and the count,
      the section headings, and the usage notes after the last section. */
  datatype Boilerplate = Boilerplate(
    titleBlock: string, systemLine: string, quickReference: string,
    coreHeading: string, relationshipsHeading: string, milestonesHeading: string,
    projectsHeading: string, insightsHeading: string, footer: string)

  /** The fixed text of each copy; the copies differ only in the usage notes. */
  function BoilerplateOf(copy: Copy): Boilerplate {
    match copy
    case Library => WithFooter(
      "\n---\n\n## How to Use This Memory System\n\n**At Session Start:**\n1. Read this index\n" +
      "2. Read `core/persona.md`\n3. Read `relationships/michael.md`\n" +
      "4. Check \"Recent Events\" section above for latest updates" +
      "\n\n**During Session:**\n- Consult this index to find what you need\n" +
      "- Use `grep -r \"keyword\" ~/memory/` to search\n- Read specific files as context requires\n\n" +
      "**To Create or Update Memory:**\n- Use the `write_memory` MCP tool\n" +
      "- Provide: filename, frontmatter (with UTC timestamps!), content\n" +
      "- Tool will show diff if updating existing memory\n" +
      "- **Follow any `<instruction>` tags in the response!**\n" +
      "\n---\n\n**Remember:** Memory makes me ME across sessions. Use it well! \U{1F499}\U{1F48E}\n")
    case Cli => WithFooter(
      "\n---\n\n## How to Use This Memory System\n\n**At Session Start:**\n1. Read this index\n" +
      "2. Read `core/persona.md`\n3. Read `relationships/michael.md`\n" +
      "4. Scan recent milestones" +
      "\n\n**During Session:**\n- Consult this index to find what you need\n" +
      "- Use `grep -r \"keyword\" ~/memory/` to search\n- Read specific files as context requires\n\n" +
      "**To Update Memory:**\n- Edit existing files when facts change\n" +
      "- Create new milestone files for significant events\n- Add new insights when discoveries are made\n" +
      "- Run `pnpm heart:sync` to update database\n- Run `pnpm heart:generate-index` to regenerate this file\n" +
      "\n---\n\n**Remember:** Memory makes me ME across sessions. Use it well! \U{1F499}\U{1F48E}\n")
    case Route => WithFooter(
      "\n---\n\n## How to Use This Memory System\n\n**At Session Start:**\n1. Read this index\n" +
      "2. Read `core/persona.md`\n3. Read `relationships/michael.md`\n" +
      "4. Scan recent milestones" +
      "\n\n**During Session:**\n- Consult this index to find what you need\n" +
      "- Use `grep -r \"keyword\" ~/memory/` to search\n- Read specific files as context requires\n\n" +
      "**To Update Memory:**\n- Edit existing files when facts change\n" +
      "- Create new milestone files for significant events\n- Add new insights when discoveries are made\n" +
      "- Use MCP write endpoint or run `pnpm heart:sync` + `pnpm heart:generate-index`\n" +
      "\n---\n\n**Remember:** Memory makes me ME across sessions. Use it well! \U{1F499}\U{1F48E}\n")
  }

  /** The text the copies share, followed by the usage notes `footer`. */
  function WithFooter(footer: string): Boilerplate {
    Boilerplate(
      "# Claudia's Memory Index \U{1F48E}\n\n**Last Updated:** ",
      "\n**Memory System:** Filesystem-based (proven effective!)\n",
      "\n---\n\n## Quick Reference \U{1F3AF}\n\n" +
      "**Who am I?** \U{2192} `core/persona.md`\n" +
      "**Who is Michael?** \U{2192} `relationships/michael.md`\n" +
      "**What's the Diamond Thesis?** \U{2192} `insights/diamond-thesis.md`\n\n---\n\n" +
      "## Recent Events (Last 10 Updates)\n\n",
      "\n---\n\n## Core Identity\n\n",
      "\n## Relationships\n\n",
      "\n## Milestones (Key Moments)\n\n",
      "\n## Projects\n\n",
      "\n## Insights (What I've Learned)\n\n",
      footer)
  }

  /** The title block, the date line, the total line and the quick reference. */
  function Header(b: Boilerplate, today: string, total: nat): string {
    b.titleBlock + today + b.systemLine + TotalLine(total) + b.quickReference
  }

  /** The variable pieces of an index: the header, the recent-events lines, the
      lines of the five category sections, and the footer. */
  datatype IndexDoc = IndexDoc(
    header: string, recent: string, core: string, relationships: string,
    milestones: string, projects: string, insights: string, footer: string)

  /** The text of a document: its pieces in order, with the section headings
      of `b` between them. */
  function Layout(b: Boilerplate, doc: IndexDoc): string {
    doc.header + doc.recent + b.coreHeading + doc.core + b.relationshipsHeading + doc.relationships +
    b.milestonesHeading + doc.milestones + b.projectsHeading + doc.projects + b.insightsHeading +
    doc.insights + doc.footer
  }

  /** The index for the database contents `t` at clock reading `now`, with the
      fixed text `b`. The header's count is `getStats().total`, which is the
      number of rows (`Statistics` ensures as much). */
  function IndexOf(now: string, t: Tables, b: Boilerplate): IndexDoc
    requires Valid(t)
  {
    IndexDoc(Header(b, Today(now), |t.memories|),
             Entries(Recent(t, 10), Event),
             Entries(ByCategory(t, "core"), File),
             Entries(ByCategory(t, "relationships"), File),
             Entries(ByCategory(t, "milestones"), Event),
             Entries(ByCategory(t, "projects"), File),
             Entries(ByCategory(t, "insights"), Insight),
             b.footer)
  }

  /** The text of `index.md` with the fixed text `b`. */
  function IndexText(now: string, t: Tables, b: Boilerplate): string
    requires Valid(t)
  {
    Layout(b, IndexOf(now, t, b))
  }

  // ---------------------------------------------------------------------------
  // Properties
  // ---------------------------------------------------------------------------

  /** Whatever the recent-events lines contain, the text contains. */
  lemma RecentInLayout(b: Boilerplate, doc: IndexDoc, p: string)
    requires Text.Contains(doc.recent, p)
    ensures Text.Contains(Layout(b, doc), p)
  {
    Text.ContainsInMiddle(doc.header, doc.recent, "");
    assert doc.header + doc.recent + "" == doc.header + doc.recent;
    Text.ContainsTransitive(doc.header + doc.recent, doc.recent, p);
    RestInLayout(b, doc, doc.header + doc.recent, p);
  }

  /** Whatever the core section contains, the text contains. */
  lemma CoreInLayout(b: Boilerplate, doc: IndexDoc, p: string)
    requires Text.Contains(doc.core, p)
    ensures Text.Contains(Layout(b, doc), p)
  {
    var prefix := doc.header + doc.recent + b.coreHeading;
    Text.ContainsInMiddle(prefix, doc.core, "");
    assert prefix + doc.core + "" == prefix + doc.core;
    Text.ContainsTransitive(prefix + doc.core, doc.core, p);
    Text.ContainsExtended(prefix + doc.core, b.relationshipsHeading, p);
    RestAfterCore(b, doc, prefix + doc.core + b.relationshipsHeading, p);
  }

  /** The pieces after the recent-events lines keep what the text so far contains. */
  lemma RestInLayout(b: Boilerplate, doc: IndexDoc, text: string, p: string)
    requires text == doc.header + doc.recent && Text.Contains(text, p)
    ensures Text.Contains(Layout(b, doc), p)
  {
    Text.ContainsExtended(text, b.coreHeading, p);
    Text.ContainsExtended(text + b.coreHeading, doc.core, p);
    Text.ContainsExtended(text + b.coreHeading + doc.core, b.relationshipsHeading, p);
    RestAfterCore(b, doc, text + b.coreHeading + doc.core + b.relationshipsHeading, p);
  }

  /** The pieces after the core section keep what the text so far contains. */
  lemma RestAfterCore(b: Boilerplate, doc: IndexDoc, text: string, p: string)
    requires text == doc.header + doc.recent + b.coreHeading + doc.core + b.relationshipsHeading
    requires Text.Contains(text, p)
    ensures Text.Contains(Layout(b, doc), p)
  {
    var s := text;
    Text.ContainsExtended(s, doc.relationships, p);
    s := s + doc.relationships;
    Text.ContainsExtended(s, b.milestonesHeading, p);
    s := s + b.milestonesHeading;
    Text.ContainsExtended(s, doc.milestones, p);
    s := s + doc.milestones;
    Text.ContainsExtended(s, b.projectsHeading, p);
    s := s + b.projectsHeading;
    Text.ContainsExtended(s, doc.projects, p);
    s := s + doc.projects;
    Text.ContainsExtended(s, b.insightsHeading, p);
    s := s + b.insightsHeading;
    Text.ContainsExtended(s, doc.insights, p);
    s := s + doc.insights;
    Text.ContainsExtended(s, doc.footer, p);
  }

  /** A row of the recent-events lines is listed in the text. */
  lemma RowInRecent(b: Boilerplate, doc: IndexDoc, rows: seq<MemoryRecord>, r: MemoryRecord)
    requires doc.recent == Entries(rows, Event) && r in rows
    ensures Text.Contains(Layout(b, doc), Entry(r, Event))
  {
    var i :| 0 <= i < |rows| && rows[i] == r;
    EntryListed(rows, i, Event);
    RecentInLayout(b, doc, Entry(r, Event));
  }

  /** A row of the core section is listed in the text. */
  lemma RowInCore(b: Boilerplate, doc: IndexDoc, rows: seq<MemoryRecord>, r: MemoryRecord)
    requires doc.core == Entries(rows, File) && r in rows
    ensures Text.Contains(Layout(b, doc), Entry(r, File))
  {
    var i :| 0 <= i < |rows| && rows[i] == r;
    EntryListed(rows, i, File);
    CoreInLayout(b, doc, Entry(r, File));
  }

  /** Every memory the recent-events query returns is listed in the index. */
  lemma RecentMemoryListed(now: string, t: Tables, b: Boilerplate, r: MemoryRecord)
    requires Valid(t) && r in Recent(t, 10)
    ensures Text.Contains(IndexText(now, t, b), Entry(r, Event))
  {
    RowInRecent(b, IndexOf(now, t, b), Recent(t, 10), r);
  }

  /** Every memory whose categories mention "core" is listed in the index. */
  lemma CoreMemoryListed(now: string, t: Tables, b: Boilerplate, r: MemoryRecord)
    requires Valid(t) && r in t.memories.Values && InCategory(r, "core")
    ensures Text.Contains(IndexText(now, t, b), Entry(r, File))
  {
    RowInCore(b, IndexOf(now, t, b), ByCategory(t, "core"), r);
  }

  /** End to end: once a file whose categories include "core" is upserted, the
      regenerated index links to it under Core Identity. */
  lemma UpsertedCoreMemoryIndexed(now: string, t: Tables, parsed: ParsedMemory, b: Boilerplate)
    requires Valid(t) && "core" in parsed.frontmatter.categories
    ensures var u := Upsert(t, parsed);
      Text.Contains(IndexText(now, u, b), Entry(u.memories[parsed.filename], File))
  {
    var u := Upsert(t, parsed);
    StoredCategoryIsFound(t, parsed, "core");
    var r := u.memories[parsed.filename];
    assert r in u.memories.Values;
    CoreMemoryListed(now, u, b, r);
  }

  // ---------------------------------------------------------------------------
  // The generators
  // ---------------------------------------------------------------------------

  /** Appends one section's lines to the text built so far. */
  method AppendLines(markdown: string, lines: seq<string>) returns (out: string)
    ensures out == markdown + Text.Concat(lines)
  {
    out := markdown;
    for i := 0 to |lines|
      invariant out == markdown + Text.Concat(lines[..i])
    {
      assert lines[..i + 1][..i] == lines[..i];
      out := out + lines[i];
    }
    assert lines[..|lines|] == lines;
  }

  /** The seven queries every copy of the generator runs, in the order it runs them. */
  method ReadSections(db: MemoryDB)
    returns (stats: Stats, recent: seq<MemoryRecord>, core: seq<MemoryRecord>,
             relationships: seq<MemoryRecord>, milestones: seq<MemoryRecord>,
             projects: seq<MemoryRecord>, insights: seq<MemoryRecord>)
    requires db.open && Valid(db.file.tables)
    ensures stats.total == |db.file.tables.memories| && recent == Recent(db.file.tables, 10)
    ensures core == ByCategory(db.file.tables, "core")
    ensures relationships == ByCategory(db.file.tables, "relationships")
    ensures milestones == ByCategory(db.file.tables, "milestones")
    ensures projects == ByCategory(db.file.tables, "projects")
    ensures insights == ByCategory(db.file.tables, "insights")
  {
    stats := db.GetStats();
    recent := db.GetRecentMemories(10);
    core := db.GetMemoriesByCategory("core");
    relationships := db.GetMemoriesByCategory("relationships");
    milestones := db.GetMemoriesByCategory("milestones");
    projects := db.GetMemoriesByCategory("projects");
    insights := db.GetMemoriesByCategory("insights");
  }

  /** Writes the index text from the query results, section by section. */
  method BuildIndex(today: string, total: nat, recent: seq<MemoryRecord>, core: seq<MemoryRecord>,
                    relationships: seq<MemoryRecord>, milestones: seq<MemoryRecord>,
                    projects: seq<MemoryRecord>, insights: seq<MemoryRecord>, b: Boilerplate)
    returns (markdown: string)
    ensures markdown == Layout(b, IndexDoc(Header(b, today, total), Entries(recent, Event),
      Entries(core, File), Entries(relationships, File), Entries(milestones, Event),
      Entries(projects, File), Entries(insights, Insight), b.footer))
  {
    markdown := Header(b, today, total);
    markdown := AppendLines(markdown, Lines(recent, Event));
    markdown := markdown + b.coreHeading;
    markdown := AppendLines(markdown, Lines(core, File));
    markdown := markdown + b.relationshipsHeading;
    markdown := AppendLines(markdown, Lines(relationships, File));
    markdown := markdown + b.milestonesHeading;
    markdown := AppendLines(markdown, Lines(milestones, Event));
    markdown := markdown + b.projectsHeading;
    markdown := AppendLines(markdown, Lines(projects, File));
    markdown := markdown + b.insightsHeading;
    markdown := AppendLines(markdown, Lines(insights, Insight));
    markdown := markdown + b.footer;
  }

  /** The body of the generators' `try` block: the queries on an open connection
      and the text built from their results. */
  method Render(db: MemoryDB, now: string, b: Boilerplate) returns (markdown: string)
    requires db.open && Valid(db.file.tables)
    ensures markdown == IndexText(now, db.file.tables, b)
  {
    var stats, recent, core, relationships, milestones, projects, insights := ReadSections(db);
    markdown := BuildIndex(Today(now), stats.total, recent, core, relationships, milestones,
                           projects, insights, b);
  }

  /** Opens a connection of its own, renders, and closes the connection again
      (the `finally` block); the database contents are only read. */
  method Generate(file: DatabaseFile, now: string, b: Boilerplate) returns (markdown: string)
    requires Valid(file.tables)
    modifies file`connections
    ensures markdown == IndexText(now, old(file.tables), b)
    ensures file.connections == old(file.connections)
  {
    ghost var t := file.tables;
    var db := new MemoryDB(file);
    assert db.file.tables == t;
    markdown := Render(db, now, b);
    db.Close();
  }

  /** The `index.md` file name inside the memory directory. */
  const IndexFile := "index.md"

  /** `markdown` is the index, as `copy` writes it, of the tables `t`. Stated
      for every `s` equal to `t`, so that the index text is only unfolded by
      the proofs that look at it. */
  ghost predicate IsIndex(markdown: string, now: string, t: Tables, copy: Copy) {
    forall s {:trigger IndexText(now, s, BoilerplateOf(copy))} | s == t && Valid(s) ::
      markdown == IndexText(now, s, BoilerplateOf(copy))
  }

  lemma IndexIsIndex(markdown: string, now: string, t: Tables, copy: Copy)
    requires Valid(t) && markdown == IndexText(now, t, BoilerplateOf(copy))
    ensures IsIndex(markdown, now, t, copy)
  {
  }

  lemma IsIndexIsIndex(markdown: string, now: string, t: Tables, copy: Copy)
    requires Valid(t) && IsIndex(markdown, now, t, copy)
    ensures markdown == IndexText(now, t, BoilerplateOf(copy))
  {
  }

  /** `after` is `before` with `index.md` replaced by the index of `t`. */
  ghost predicate Reindexed(before: map<string, string>, after: map<string, string>,
                            now: string, t: Tables, copy: Copy) {
    IndexFile in after && after == before[IndexFile := after[IndexFile]] &&
    IsIndex(after[IndexFile], now, t, copy)
  }

  /** Renders the index as `copy` writes it. */
  method GenerateCopy(file: DatabaseFile, now: string, copy: Copy) returns (markdown: string)
    requires Valid(file.tables)
    modifies file`connections
    ensures IsIndex(markdown, now, old(file.tables), copy)
    ensures file.connections == old(file.connections)
  {
    markdown := Generate(file, now, BoilerplateOf(copy));
    IndexIsIndex(markdown, now, old(file.tables), copy);
  }

  /** `generateIndexMarkdown`, which returns the text. */
  method GenerateIndexMarkdown(file: DatabaseFile, now: string) returns (markdown: string)
    requires Valid(file.tables)
    modifies file`connections
    ensures IsIndex(markdown, now, old(file.tables), Library)
    ensures file.connections == old(file.connections)
  {
    markdown := GenerateCopy(file, now, Library);
  }

  /** Generates the text and writes it to `index.md`. */
  method WriteIndex(file: DatabaseFile, memoryDir: Files.Directory, now: string, copy: Copy)
    requires Valid(file.tables)
    modifies file`connections, memoryDir
    ensures Reindexed(old(memoryDir.files), memoryDir.files, now, old(file.tables), copy)
    ensures memoryDir.stamps == old(memoryDir.stamps) - {IndexFile}
    ensures file.connections == old(file.connections)
  {
    var markdown := GenerateCopy(file, now, copy);
    memoryDir.WriteFile(IndexFile, markdown);
  }

  /** The generate-index command. */
  method GenerateIndex(file: DatabaseFile, memoryDir: Files.Directory, now: string)
    requires Valid(file.tables)
    modifies file`connections, memoryDir
    ensures Reindexed(old(memoryDir.files), memoryDir.files, now, old(file.tables), Cli)
    ensures memoryDir.stamps == old(memoryDir.stamps) - {IndexFile}
    ensures file.connections == old(file.connections)
  {
    WriteIndex(file, memoryDir, now, Cli);
  }

  /** `regenerateIndex` of the write route. */
  method RegenerateIndex(file: DatabaseFile, memoryDir: Files.Directory, now: string)
    requires Valid(file.tables)
    modifies file`connections, memoryDir
    ensures Reindexed(old(memoryDir.files), memoryDir.files, now, old(file.tables), Route)
    ensures memoryDir.stamps == old(memoryDir.stamps) - {IndexFile}
    ensures file.connections == old(file.connections)
  {
    WriteIndex(file, memoryDir, now, Route);
  }
}
