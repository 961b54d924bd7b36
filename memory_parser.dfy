/** Reading memory files from disk: `parseMemoryFile` checks a file's header
    field by field, and `parseMemoryDirectory` walks the memory root and keeps
    every Markdown file that parses, skipping the ones that do not. */
module MemoryParser {
  import opened Wrappers
  import opened Text
  import opened MemoryTypes

  /** What gray-matter makes of a file's text: the header data and the body
      after the header. */
  datatype Matter = Matter(data: RawFrontmatter, body: string)

  const NotFound := "Memory file not found: "

  function MissingField(field: string, filepath: string): string {
    "Missing required field '" + field + "' in " + filepath
  }

  function InvalidCategories(filepath: string): string {
    "Missing or invalid 'categories' in " + filepath
  }

  /** `categories` is present and an array (an empty array is accepted). */
  predicate CategoriesListed(raw: RawFrontmatter) {
    raw.categories.Some? && raw.categories.value.CategoryList?
  }

  /** The five header checks `parseMemoryFile` makes. */
  predicate HeaderValid(raw: RawFrontmatter) {
    Truthy(raw.title) && Truthy(raw.date) && CategoriesListed(raw) &&
    Truthy(raw.createdAt) && Truthy(raw.updatedAt)
  }

  /** `parseMemoryFile` once the file was read: the header checks in the order
      title, date, categories, created_at, updated_at, the first failing one
      naming the error; on success the whole text as `content` and the body as
      `rawContent`. */
  function ParseText(filepath: string, text: string, matter: Matter): (r: Result<ParsedMemory>)
    ensures r.Ok? <==> HeaderValid(matter.data)
    ensures var raw := matter.data;
      (!Truthy(raw.title) ==> r == Err(MissingField("title", filepath))) &&
      (Truthy(raw.title) && !Truthy(raw.date) ==> r == Err(MissingField("date", filepath))) &&
      (Truthy(raw.title) && Truthy(raw.date) && !CategoriesListed(raw) ==>
        r == Err(InvalidCategories(filepath))) &&
      (Truthy(raw.title) && Truthy(raw.date) && CategoriesListed(raw) && !Truthy(raw.createdAt) ==>
        r == Err(MissingField("created_at", filepath))) &&
      (Truthy(raw.title) && Truthy(raw.date) && CategoriesListed(raw) && Truthy(raw.createdAt) &&
       !Truthy(raw.updatedAt) ==>
        r == Err(MissingField("updated_at", filepath)))
    ensures r.Ok? ==>
      r.value.filename == filepath && r.value.content == text && r.value.rawContent == matter.body &&
      r.value.frontmatter == Checked(matter.data)
  {
    var raw := matter.data;
    if !Truthy(raw.title) then Err(MissingField("title", filepath))
    else if !Truthy(raw.date) then Err(MissingField("date", filepath))
    else if !CategoriesListed(raw) then Err(InvalidCategories(filepath))
    else if !Truthy(raw.createdAt) then Err(MissingField("created_at", filepath))
    else if !Truthy(raw.updatedAt) then Err(MissingField("updated_at", filepath))
    else Ok(ParsedMemory(filepath, Checked(raw), text, matter.body))
  }

  /** `parseMemoryFile(filepath, memoryRoot)` for a path relative to the root:
      `files` is the tree under the root by relative path, `read` is
      gray-matter. */
  function ParseMemoryFile(root: string, filepath: string, files: map<string, string>,
                           read: string -> Matter): (r: Result<ParsedMemory>)
    ensures filepath !in files ==> r == Err(NotFound + JoinPath(root, filepath))
    ensures filepath in files ==> r == ParseText(filepath, files[filepath], read(files[filepath]))
  {
    if filepath !in files then Err(NotFound + JoinPath(root, filepath))
    else ParseText(filepath, files[filepath], read(files[filepath]))
  }

  // ---------------------------------------------------------------------------
  // The directory scan
  // ---------------------------------------------------------------------------

  /** A directory entry: a regular file with its text, a subdirectory, or
      anything else (a link, a socket), which the scan ignores. */
  datatype Entry =
    | File(name: string, text: string)
    | Folder(name: string, entries: seq<Entry>)
    | Special(name: string)

  /** The scan enters a directory unless its name starts with `.` or is
      `node_modules`. */
  predicate Descends(name: string) { !StartsWith(name, ".") && name != "node_modules" }

  /** The scan parses files ending in `.md` other than the generated `index.md`. */
  predicate IsMemoryFile(name: string) { EndsWith(name, ".md") && name != "index.md" }

  /** A file the scan hands to `parseMemoryFile`: its path relative to the root
      and its text. */
  datatype Candidate = Candidate(path: string, text: string)

  /** The files the scan visits, in visiting order: each entry of `entries` in
      turn, a subdirectory's files in place of the subdirectory. */
  function Candidates(entries: seq<Entry>, dir: string): (cs: seq<Candidate>)
    decreases entries
    ensures forall c :: c in cs ==> EndsWith(c.path, ".md")
  {
    if entries == [] then [] else EntryCandidates(entries[0], dir) + Candidates(entries[1..], dir)
  }

  function EntryCandidates(e: Entry, dir: string): (cs: seq<Candidate>)
    decreases e
    ensures forall c :: c in cs ==> EndsWith(c.path, ".md")
  {
    match e
    case File(name, text) =>
      if IsMemoryFile(name) then
        JoinedSuffix(dir, name, ".md");
        [Candidate(JoinPath(dir, name), text)]
      else []
    case Folder(name, entries) => if Descends(name) then Candidates(entries, JoinPath(dir, name)) else []
    case Special(_) => []
  }

  lemma JoinedSuffix(dir: string, name: string, suffix: string)
    requires EndsWith(name, suffix)
    ensures EndsWith(JoinPath(dir, name), suffix)
  {
    if dir != "" {
      var p := dir + "/" + name;
      assert p[|p| - |suffix|..] == name[|name| - |suffix|..];
    }
  }

  /** The candidates that parse, in order; the others are dropped with a
      warning. */
  function Successes(cs: seq<Candidate>, read: string -> Matter): (ps: seq<ParsedMemory>)
    ensures |ps| <= |cs|
  {
    if cs == [] then [] else Kept(cs[0], read) + Successes(cs[1..], read)
  }

  /** One candidate's contribution: the memory it parses to, or nothing. */
  function Kept(c: Candidate, read: string -> Matter): seq<ParsedMemory> {
    match ParseText(c.path, c.text, read(c.text))
    case Ok(p) => [p]
    case Err(_) => []
  }

  /** `parseMemoryDirectory` as a value: every file the scan visits that parses. */
  function Parsed(entries: seq<Entry>, read: string -> Matter): seq<ParsedMemory> {
    Successes(Candidates(entries, ""), read)
  }

  lemma {:induction false} CandidatesAppend(a: seq<Entry>, e: Entry, dir: string)
    ensures Candidates(a + [e], dir) == Candidates(a, dir) + EntryCandidates(e, dir)
  {
    if a == [] {
      assert [e][1..] == [];
    } else {
      assert (a + [e])[1..] == a[1..] + [e];
      CandidatesAppend(a[1..], e, dir);
    }
  }

  lemma {:induction false} SuccessesAppend(a: seq<Candidate>, b: seq<Candidate>, read: string -> Matter)
    ensures Successes(a + b, read) == Successes(a, read) + Successes(b, read)
  {
    if a == [] {
      assert a + b == b;
    } else {
      assert (a + b)[0] == a[0] && (a + b)[1..] == a[1..] + b;
      SuccessesAppend(a[1..], b, read);
      Assoc(Kept(a[0], read), Successes(a[1..], read), Successes(b, read));
    }
  }

  lemma Assoc(x: seq<ParsedMemory>, y: seq<ParsedMemory>, z: seq<ParsedMemory>)
    ensures x + (y + z) == x + y + z
  {
  }

  /** Skip on error, both ways: a memory is in the result exactly when some
      visited file parses to it. */
  lemma {:induction false} SuccessesAreParsedCandidates(cs: seq<Candidate>, read: string -> Matter, p: ParsedMemory)
    ensures p in Successes(cs, read) <==>
      exists i :: 0 <= i < |cs| && ParseText(cs[i].path, cs[i].text, read(cs[i].text)) == Ok(p)
  {
    if cs != [] {
      SuccessesAreParsedCandidates(cs[1..], read, p);
      if exists i :: 0 <= i < |cs| && ParseText(cs[i].path, cs[i].text, read(cs[i].text)) == Ok(p) {
        var i :| 0 <= i < |cs| && ParseText(cs[i].path, cs[i].text, read(cs[i].text)) == Ok(p);
        if i > 0 {
          assert cs[1..][i - 1] == cs[i];
        }
      }
      if p in Successes(cs[1..], read) {
        var j :| 0 <= j < |cs| - 1 && ParseText(cs[1..][j].path, cs[1..][j].text, read(cs[1..][j].text)) == Ok(p);
        assert cs[1..][j] == cs[j + 1];
      }
    }
  }

  /** Every memory the scan returns is a `.md` file whose header passed the
      checks. */
  lemma ParsedAreValidMemoryFiles(entries: seq<Entry>, read: string -> Matter, p: ParsedMemory)
    requires p in Parsed(entries, read)
    ensures EndsWith(p.filename, ".md")
    ensures exists c ::
      c in Candidates(entries, "") && c.path == p.filename && c.text == p.content &&
      HeaderValid(read(c.text).data) && p.rawContent == read(c.text).body
  {
    var cs := Candidates(entries, "");
    SuccessesAreParsedCandidates(cs, read, p);
    var i :| 0 <= i < |cs| && ParseText(cs[i].path, cs[i].text, read(cs[i].text)) == Ok(p);
    assert cs[i] in cs;
  }

  /** `scanDirectory(dir)`: appends to `results`, entry by entry, what the scan
      finds in `entries`. */
  method ScanDirectory(entries: seq<Entry>, dir: string, read: string -> Matter, results: seq<ParsedMemory>)
    returns (out: seq<ParsedMemory>)
    decreases entries
    ensures out == results + Successes(Candidates(entries, dir), read)
  {
    out := results;
    for i := 0 to |entries|
      invariant out == results + Successes(Candidates(entries[..i], dir), read)
    {
      ghost var before := out;
      out := ScanEntry(entries[i], dir, read, out);
      ScanStep(entries[..i], entries[i], dir, read, results, before, out);
      Prefix(entries, i);
    }
    assert entries[..|entries|] == entries;
  }

  lemma Prefix(entries: seq<Entry>, i: nat)
    requires i < |entries|
    ensures entries[..i + 1] == entries[..i] + [entries[i]]
  {
  }

  lemma ScanStep(done: seq<Entry>, e: Entry, dir: string, read: string -> Matter,
                 results: seq<ParsedMemory>, before: seq<ParsedMemory>, after: seq<ParsedMemory>)
    requires before == results + Successes(Candidates(done, dir), read)
    requires after == before + Successes(EntryCandidates(e, dir), read)
    ensures after == results + Successes(Candidates(done + [e], dir), read)
  {
    CandidatesAppend(done, e, dir);
    SuccessesAppend(Candidates(done, dir), EntryCandidates(e, dir), read);
    Assoc(results, Successes(Candidates(done, dir), read), Successes(EntryCandidates(e, dir), read));
  }

  /** One iteration of the scan: a subdirectory is entered unless it is hidden
      or `node_modules`; a Markdown file other than `index.md` is parsed and
      kept only when it parses. */
  method ScanEntry(e: Entry, dir: string, read: string -> Matter, results: seq<ParsedMemory>)
    returns (out: seq<ParsedMemory>)
    decreases e
    ensures out == results + Successes(EntryCandidates(e, dir), read)
  {
    out := results;
    match e
    case Folder(name, children) =>
      if Descends(name) {
        out := ScanDirectory(children, JoinPath(dir, name), read, results);
      }
    case File(name, text) =>
      if IsMemoryFile(name) {
        var c := Candidate(JoinPath(dir, name), text);
        var parsed := ParseText(c.path, text, read(text));
        assert [c][1..] == [];
        if parsed.Ok? {
          out := results + [parsed.value];
        }
      }
    case Special(_) =>
  }

  /** `parseMemoryDirectory(memoryRoot)` over the entries of the root. */
  method ParseMemoryDirectory(entries: seq<Entry>, read: string -> Matter) returns (results: seq<ParsedMemory>)
    ensures results == Parsed(entries, read)
  {
    results := ScanDirectory(entries, "", read, []);
  }
}
