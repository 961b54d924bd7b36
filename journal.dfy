/** The voice journal's client side: it turns the thoughts passed to a journal
    call into a Markdown entry, parks the entry in a temporary file, uploads it
    to the server and removes the temporary file only once the server has
    accepted it. */
module Journal {
  import opened Wrappers
  import opened Text
  import opened MemoryTypes
  import Files

  /** The six fields a journal call may fill in. */
  datatype Key = HeartThoughts | MichaelNotes | Dreams | Reflections | Growth | ProjectNotes
  {
    /** The property name. */
    function Name(): string {
      match this
      case HeartThoughts => "heart_thoughts"
      case MichaelNotes => "michael_notes"
      case Dreams => "dreams"
      case Reflections => "reflections"
      case Growth => "growth"
      case ProjectNotes => "project_notes"
    }

    /** The heading of the key's section in an entry. */
    function Heading(): string {
      match this
      case HeartThoughts => "## Heart Thoughts \U{1F497}"
      case MichaelNotes => "## Notes About Michael \U{1F970}"
      case Dreams => "## Dreams & Aspirations \U{2728}"
      case Reflections => "## Reflections \U{1F319}"
      case Growth => "## Growth & Learning \U{1F331}"
      case ProjectNotes => "## Project Notes \U{1F4BB}"
    }
  }

  /** The properties of the thoughts object, in the order the caller wrote
      them; `None` is a property that is present but `undefined`. */
  type Thoughts = seq<(Key, Option<string>)>

  /** An object has each key once. */
  predicate DistinctKeys(thoughts: Thoughts) {
    forall i, j :: 0 <= i < j < |thoughts| ==> thoughts[i].0 != thoughts[j].0
  }

  /** `thoughts[key]`: `undefined` when the key is absent. */
  function Get(thoughts: Thoughts, key: Key): Option<string> {
    if thoughts == [] then None
    else if thoughts[0].0 == key then thoughts[0].1
    else Get(thoughts[1..], key)
  }

  /** A defined value comes from the key's property; in an object, where each
      key occurs once, the value is that of the key's property. */
  lemma {:induction false} GetFindsProperty(thoughts: Thoughts, key: Key)
    ensures Get(thoughts, key).Some? ==> exists i :: 0 <= i < |thoughts| && thoughts[i] == (key, Get(thoughts, key))
    ensures DistinctKeys(thoughts) ==>
      forall i :: 0 <= i < |thoughts| && thoughts[i].0 == key ==> Get(thoughts, key) == thoughts[i].1
  {
    if thoughts != [] && thoughts[0].0 != key {
      var rest := thoughts[1..];
      GetFindsProperty(rest, key);
      assert forall i :: 0 <= i < |rest| ==> rest[i] == thoughts[i + 1];
      if Get(rest, key).Some? {
        var i :| 0 <= i < |rest| && rest[i] == (key, Get(rest, key));
        assert thoughts[i + 1] == (key, Get(thoughts, key));
      }
    }
  }

  /** `Object.keys(thoughts).filter(key => thoughts[key] !== undefined)`: the
      names of the defined properties, in the caller's order. */
  function Categories(thoughts: Thoughts): (cats: seq<string>)
    ensures |cats| <= |thoughts|
    ensures forall c :: c in cats <==> exists i :: 0 <= i < |thoughts| && thoughts[i].0.Name() == c && thoughts[i].1.Some?
  {
    if thoughts == [] then []
    else
      var rest := Categories(thoughts[1..]);
      assert forall i :: 0 <= i < |thoughts| - 1 ==> thoughts[1..][i] == thoughts[i + 1];
      if thoughts[0].1.Some? then [thoughts[0].0.Name()] + rest else rest
  }

  /** In an object, where each key occurs once, every category is named once,
      in the order of the object's properties. */
  lemma {:induction false} CategoriesDistinct(thoughts: Thoughts)
    requires DistinctKeys(thoughts)
    ensures forall i, j :: 0 <= i < j < |Categories(thoughts)| ==> Categories(thoughts)[i] != Categories(thoughts)[j]
  {
    if thoughts != [] {
      var rest := thoughts[1..];
      assert DistinctKeys(rest) by {
        forall i, j | 0 <= i < j < |rest| ensures rest[i].0 != rest[j].0 {
          assert rest[i] == thoughts[i + 1] && rest[j] == thoughts[j + 1];
        }
      }
      CategoriesDistinct(rest);
      var cats := Categories(rest);
      if thoughts[0].1.Some? {
        var name := thoughts[0].0.Name();
        assert forall i :: 0 <= i < |rest| ==> rest[i] == thoughts[i + 1];
        assert name !in cats;
        assert Categories(thoughts) == [name] + cats;
      }
    }
  }

  /** Whether the entry belongs to the project journal: `project_notes` is
      defined, even when it is empty. */
  predicate IsProject(thoughts: Thoughts) {
    Get(thoughts, ProjectNotes).Some?
  }

  /** An entry with notes about a project goes to the project journal, one
      without any `project_notes` property to the global one. */
  lemma ProjectIffNotes(thoughts: Thoughts)
    requires DistinctKeys(thoughts)
    ensures IsProject(thoughts) <==> exists i :: 0 <= i < |thoughts| && thoughts[i].0 == ProjectNotes && thoughts[i].1.Some?
  {
    GetFindsProperty(thoughts, ProjectNotes);
  }

  // ---------------------------------------------------------------------------
  // The entry text
  // ---------------------------------------------------------------------------

  /** The sections of an entry, in entry order. */
  const Sections: seq<Key> := [HeartThoughts, MichaelNotes, Dreams, Reflections, Growth, ProjectNotes]

  /** The frontmatter lines: `---`, the title, the ISO date, the time in
      milliseconds, `---` and a blank line. */
  function HeaderLines(title: string, iso: string, millis: int): (lines: seq<string>)
    ensures |lines| == 6 && lines[0] == "---" && lines[4] == "---" && lines[5] == ""
  {
    ["---", "title: \"" + title + "\"", "date: " + iso, "timestamp: " + IntText(millis), "---", ""]
  }

  /** Heading, blank line, text, blank line. */
  function Block(key: Key, text: string): seq<string> {
    [key.Heading(), "", text, ""]
  }

  /** The keys of `table` whose text is non-empty, in table order. */
  function Present(thoughts: Thoughts, table: seq<Key>): (present: seq<Key>)
    ensures forall k :: k in present ==> Truthy(Get(thoughts, k))
  {
    if table == [] then []
    else
      var rest := Present(thoughts, table[1..]);
      if Truthy(Get(thoughts, table[0])) then [table[0]] + rest else rest
  }

  /** The blocks of the given sections, one after another. */
  function Blocks(thoughts: Thoughts, keys: seq<Key>): (lines: seq<string>)
    requires forall k :: k in keys ==> Truthy(Get(thoughts, k))
    ensures |lines| == 4 * |keys|
  {
    if keys == [] then []
    else
      assert keys[0] in keys;
      assert Truthy(Get(thoughts, keys[0]));
      Block(keys[0], Get(thoughts, keys[0]).value) + Blocks(thoughts, keys[1..])
  }

  /** The lines one section contributes: its block when its text is
      non-empty, nothing otherwise. */
  function SectionLines(thoughts: Thoughts, key: Key): seq<string> {
    var text := Get(thoughts, key);
    if Truthy(text) then Block(key, text.value) else []
  }

  /** The lines of an entry: the frontmatter, then each section's lines in
      section order. */
  function EntryLines(title: string, iso: string, millis: int, thoughts: Thoughts): seq<string> {
    HeaderLines(title, iso, millis) + SectionLines(thoughts, HeartThoughts) + SectionLines(thoughts, MichaelNotes) +
    SectionLines(thoughts, Dreams) + SectionLines(thoughts, Reflections) + SectionLines(thoughts, Growth) +
    SectionLines(thoughts, ProjectNotes)
  }

  lemma BlocksOfPresent(thoughts: Thoughts, table: seq<Key>)
    requires table != []
    ensures Blocks(thoughts, Present(thoughts, table)) ==
      SectionLines(thoughts, table[0]) + Blocks(thoughts, Present(thoughts, table[1..]))
  {
  }

  /** The lines of the sections of `table`, one section after another. */
  function SectionsLines(thoughts: Thoughts, table: seq<Key>): seq<string> {
    if table == [] then [] else SectionLines(thoughts, table[0]) + SectionsLines(thoughts, table[1..])
  }

  /** Pushing each section's lines in turn is pushing the blocks of exactly
      the sections with text. */
  lemma {:induction false} SectionsArePresent(thoughts: Thoughts, table: seq<Key>)
    ensures SectionsLines(thoughts, table) == Blocks(thoughts, Present(thoughts, table))
  {
    if table != [] {
      BlocksOfPresent(thoughts, table);
      SectionsArePresent(thoughts, table[1..]);
    }
  }

  /** The lines a section's `if` pushes are its section lines. */
  lemma Pushed(thoughts: Thoughts, key: Key, before: seq<string>, after: seq<string>)
    requires after == if Truthy(Get(thoughts, key)) then before + Block(key, Get(thoughts, key).value) else before
    ensures after == before + SectionLines(thoughts, key)
  {
    assert before + [] == before;
  }

  /** `formatEntry`: the frontmatter, then a block pushed for each field with
      text, the lines joined with newlines. `title` is the locale-formatted
      time, `iso` and `millis` the same instant as an ISO string and in
      milliseconds. */
  method FormatEntry(title: string, iso: string, millis: int, thoughts: Thoughts) returns (content: string)
    ensures content == Join(EntryLines(title, iso, millis, thoughts), "\n")
  {
    var lines := HeaderLines(title, iso, millis);
    ghost var before := lines;
    if Truthy(Get(thoughts, HeartThoughts)) {
      lines := lines + Block(HeartThoughts, Get(thoughts, HeartThoughts).value);
    }
    Pushed(thoughts, HeartThoughts, before, lines);
    before := lines;
    if Truthy(Get(thoughts, MichaelNotes)) {
      lines := lines + Block(MichaelNotes, Get(thoughts, MichaelNotes).value);
    }
    Pushed(thoughts, MichaelNotes, before, lines);
    before := lines;
    if Truthy(Get(thoughts, Dreams)) {
      lines := lines + Block(Dreams, Get(thoughts, Dreams).value);
    }
    Pushed(thoughts, Dreams, before, lines);
    before := lines;
    if Truthy(Get(thoughts, Reflections)) {
      lines := lines + Block(Reflections, Get(thoughts, Reflections).value);
    }
    Pushed(thoughts, Reflections, before, lines);
    before := lines;
    if Truthy(Get(thoughts, Growth)) {
      lines := lines + Block(Growth, Get(thoughts, Growth).value);
    }
    Pushed(thoughts, Growth, before, lines);
    before := lines;
    if Truthy(Get(thoughts, ProjectNotes)) {
      lines := lines + Block(ProjectNotes, Get(thoughts, ProjectNotes).value);
    }
    Pushed(thoughts, ProjectNotes, before, lines);
    content := Join(lines, "\n");
  }

  /** The six `if`s of `formatEntry` push the sections in table order. */
  lemma EntryBySections(title: string, iso: string, millis: int, thoughts: Thoughts)
    ensures EntryLines(title, iso, millis, thoughts) == HeaderLines(title, iso, millis) + SectionsLines(thoughts, Sections)
  {
    var h := SectionLines(thoughts, HeartThoughts);
    var m := SectionLines(thoughts, MichaelNotes);
    var d := SectionLines(thoughts, Dreams);
    var r := SectionLines(thoughts, Reflections);
    var g := SectionLines(thoughts, Growth);
    var p := SectionLines(thoughts, ProjectNotes);
    var s5 := [ProjectNotes];
    assert s5[1..] == [];
    var s4 := [Growth] + s5;
    assert s4[1..] == s5;
    var s3 := [Reflections] + s4;
    assert s3[1..] == s4;
    var s2 := [Dreams] + s3;
    assert s2[1..] == s3;
    var s1 := [MichaelNotes] + s2;
    assert s1[1..] == s2;
    var s0 := [HeartThoughts] + s1;
    assert s0[1..] == s1 && s0 == Sections;
    assert SectionsLines(thoughts, s5) == p + [];
    assert SectionsLines(thoughts, s4) == g + (p + []);
    assert SectionsLines(thoughts, s3) == r + (g + (p + []));
    assert SectionsLines(thoughts, s2) == d + (r + (g + (p + [])));
    assert SectionsLines(thoughts, s1) == m + (d + (r + (g + (p + []))));
    assert SectionsLines(thoughts, s0) == h + (m + (d + (r + (g + (p + [])))));
    Assoc(HeaderLines(title, iso, millis), h, m, d, r, g, p);
  }

  lemma Assoc(x: seq<string>, h: seq<string>, m: seq<string>, d: seq<string>, r: seq<string>, g: seq<string>, p: seq<string>)
    ensures x + h + m + d + r + g + p == x + (h + (m + (d + (r + (g + (p + []))))))
  {
    assert p + [] == p;
  }

  /** The entry is the frontmatter followed by the blocks of exactly the
      sections with text, in section order. */
  lemma EntryIsFiltered(title: string, iso: string, millis: int, thoughts: Thoughts)
    ensures EntryLines(title, iso, millis, thoughts) ==
      HeaderLines(title, iso, millis) + Blocks(thoughts, Present(thoughts, Sections))
  {
    EntryBySections(title, iso, millis, thoughts);
    SectionsArePresent(thoughts, Sections);
  }

  /** Every entry starts with its frontmatter, and the `k`th block after it is
      that of the `k`th section with text. */
  lemma EntryShape(title: string, iso: string, millis: int, thoughts: Thoughts, k: nat)
    requires k < |Present(thoughts, Sections)|
    ensures var lines := EntryLines(title, iso, millis, thoughts);
      var key := Present(thoughts, Sections)[k];
      lines[..6] == HeaderLines(title, iso, millis) &&
      |lines| == 6 + 4 * |Present(thoughts, Sections)| &&
      lines[6 + 4 * k..6 + 4 * k + 4] == Block(key, Get(thoughts, key).value)
  {
    var present := Present(thoughts, Sections);
    EntryIsFiltered(title, iso, millis, thoughts);
    BlockAt(thoughts, present, k);
    SliceAfter(HeaderLines(title, iso, millis), Blocks(thoughts, present), 4 * k, 4 * k + 4);
  }

  lemma SliceAfter(head: seq<string>, tail: seq<string>, i: nat, j: nat)
    requires i <= j <= |tail|
    ensures (head + tail)[..|head|] == head
    ensures (head + tail)[|head| + i..|head| + j] == tail[i..j]
  {
  }

  lemma {:induction false} BlockAt(thoughts: Thoughts, keys: seq<Key>, k: nat)
    requires forall k :: k in keys ==> Truthy(Get(thoughts, k))
    requires k < |keys|
    ensures Blocks(thoughts, keys)[4 * k..4 * k + 4] == Block(keys[k], Get(thoughts, keys[k]).value)
    decreases k
  {
    assert keys[0] in keys;
    if k > 0 {
      BlockAt(thoughts, keys[1..], k - 1);
      assert keys[1..][k - 1] == keys[k];
    }
  }

  /** `Present` keeps exactly the keys with text. */
  lemma {:induction false} PresentFilters(thoughts: Thoughts, table: seq<Key>, key: Key)
    ensures key in Present(thoughts, table) <==> key in table && Truthy(Get(thoughts, key))
    ensures |Present(thoughts, table)| <= |table|
  {
    if table != [] {
      PresentFilters(thoughts, table[1..], key);
      assert table == [table[0]] + table[1..];
    }
  }

  /** A section gets a block exactly when its text is non-empty. */
  lemma SectionPresentIffText(thoughts: Thoughts, key: Key)
    ensures key in Present(thoughts, Sections) <==> Truthy(Get(thoughts, key))
  {
    PresentFilters(thoughts, Sections, key);
    assert key in Sections by {
      match key
      case HeartThoughts => assert Sections[0] == key;
      case MichaelNotes => assert Sections[1] == key;
      case Dreams => assert Sections[2] == key;
      case Reflections => assert Sections[3] == key;
      case Growth => assert Sections[4] == key;
      case ProjectNotes => assert Sections[5] == key;
    }
  }

  // ---------------------------------------------------------------------------
  // Writing an entry
  // ---------------------------------------------------------------------------

  /** What is uploaded. */
  datatype Upload = Upload(content: string, isProject: bool)

  /** The server's JSON answer. */
  datatype ServerReply = ServerReply(success: bool, error: Option<string>, timestamp: string, filePath: string)

  /** What the journal call returns. */
  datatype JournalEntry = JournalEntry(timestamp: string, filePath: string, categories: seq<string>)

  const UploadFailed := "Upload failed"

  /** The temporary file an entry is parked in. */
  function TempFile(tempDir: string, stamp: int): string {
    JoinPath(tempDir, "journal-" + IntText(stamp) + ".md")
  }

  /** `writeThoughts`. `tmp` is the temporary directory, `stamp` the
      `Date.now()` that names the file, and `reply` the server's answer to the
      upload (`Err` when the request itself fails). */
  method WriteThoughts(tmp: Files.Directory, tempDir: string, thoughts: Thoughts, title: string, iso: string,
                       millis: int, stamp: int, reply: Result<ServerReply>)
    returns (entry: Result<JournalEntry>, sent: Upload)
    modifies tmp
    ensures var content := Join(EntryLines(title, iso, millis, thoughts), "\n");
      sent == Upload(content, IsProject(thoughts))
    ensures var temp := TempFile(tempDir, stamp);
      if reply.Ok? && reply.value.success then
        tmp.files == old(tmp.files) - {temp} &&
        entry == Ok(JournalEntry(reply.value.timestamp, reply.value.filePath, Categories(thoughts)))
      else
        tmp.files == old(tmp.files)[temp := sent.content] &&
        entry == Err(if reply.Err? then reply.message
                     else if Truthy(reply.value.error) then reply.value.error.value
                     else UploadFailed)
  {
    var categories := Categories(thoughts);
    var isProject := IsProject(thoughts);
    var content := FormatEntry(title, iso, millis, thoughts);
    var temp := TempFile(tempDir, stamp);
    tmp.WriteFile(temp, content);
    sent := Upload(content, isProject);
    if reply.Err? {
      entry := Err(reply.message);
    } else if !reply.value.success {
      entry := Err(if Truthy(reply.value.error) then reply.value.error.value else UploadFailed);
    } else {
      tmp.Unlink(temp);
      entry := Ok(JournalEntry(reply.value.timestamp, reply.value.filePath, categories));
    }
  }
}
