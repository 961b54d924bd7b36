/** The SQLite store behind the memory system (`MemoryDB`): the `memories` table
    keyed by file name, the append-only `changes` log, the queries the index
    generator and the routes run, and the connection object that wraps them. */
module MemoryStore {
  import opened Wrappers
  import Text
  import JsonList
  import opened MemoryTypes

  /** The contents of the database file. `nextMemoryId`/`nextChangeId` are the
      AUTOINCREMENT counters. */
  datatype Tables = Tables(
    memories: map<string, MemoryRecord>,
    changes: seq<ChangeRecord>,
    nextMemoryId: nat,
    nextChangeId: nat)

  /** The schema's constraints plus what every writer keeps: a row sits under its
      own file name (UNIQUE filename), ids are distinct and below the counter,
      `categories` holds a JSON list, and change ids are below their counter. */
  predicate Valid(t: Tables) {
    (forall f :: f in t.memories ==>
       t.memories[f].filename == f && t.memories[f].id < t.nextMemoryId &&
       JsonList.Parse(t.memories[f].categories).Some?) &&
    (forall f, g :: f in t.memories && g in t.memories && f != g ==>
       t.memories[f].id != t.memories[g].id) &&
    (forall i :: 0 <= i < |t.changes| ==> t.changes[i].changeId < t.nextChangeId)
  }

  /** A database whose schema has just been created. */
  function EmptyTables(): (t: Tables)
    ensures Valid(t) && t.memories == map[] && t.changes == []
  {
    Tables(map[], [], 1, 1)
  }

  // ---------------------------------------------------------------------------
  // Writes
  // ---------------------------------------------------------------------------

  /** The row `upsertMemory` builds from a parsed file, with the given id. */
  function RecordOf(parsed: ParsedMemory, id: nat): (r: MemoryRecord)
    ensures r.id == id && r.filename == parsed.filename && r.content == parsed.content
    ensures r.title == parsed.frontmatter.title && r.date == parsed.frontmatter.date
    ensures JsonList.Parse(r.categories) == Some(parsed.frontmatter.categories)
    ensures r.tags.Some? <==> parsed.frontmatter.tags.Some?
    ensures r.tags.Some? ==> JsonList.Parse(r.tags.value) == parsed.frontmatter.tags
    ensures r.author.Some? <==> Truthy(parsed.frontmatter.author)
    ensures r.summary.Some? <==> Truthy(parsed.frontmatter.summary)
    ensures r.author.Some? ==> r.author == parsed.frontmatter.author
    ensures r.summary.Some? ==> r.summary == parsed.frontmatter.summary
    ensures r.createdAt == parsed.frontmatter.createdAt && r.updatedAt == parsed.frontmatter.updatedAt
  {
    var fm := parsed.frontmatter;
    JsonList.ParseStringify(fm.categories);
    OptionalListRoundTrip(fm.tags);
    MemoryRecord(
      id, parsed.filename, fm.title, fm.date,
      JsonList.Stringify(fm.categories),
      if fm.tags.Some? then Some(JsonList.Stringify(fm.tags.value)) else None,
      OrNull(fm.author), OrNull(fm.summary),
      parsed.content, fm.createdAt, fm.updatedAt)
  }

  lemma OptionalListRoundTrip(xs: Option<seq<string>>)
    ensures xs.Some? ==> JsonList.Parse(JsonList.Stringify(xs.value)) == xs
  {
    if xs.Some? { JsonList.ParseStringify(xs.value); }
  }

  /** The row left under a file name by one upsert: a new row takes the next id
      and the file's `created_at`; a conflicting row keeps its id and its
      `created_at` and takes every other column from the file. */
  function UpsertRow(existing: Option<MemoryRecord>, parsed: ParsedMemory, freshId: nat): (r: MemoryRecord)
    ensures existing.None? ==> r == RecordOf(parsed, freshId)
    ensures existing.Some? ==> r.id == existing.value.id && r.createdAt == existing.value.createdAt
    ensures r == RecordOf(parsed, r.id).(createdAt := r.createdAt)
  {
    match existing
    case None => RecordOf(parsed, freshId)
    case Some(prev) => RecordOf(parsed, prev.id).(createdAt := prev.createdAt)
  }

  /** `INSERT … ON CONFLICT(filename) DO UPDATE`. */
  function Upsert(t: Tables, parsed: ParsedMemory): (u: Tables)
    requires Valid(t)
    ensures Valid(u)
    ensures u.memories.Keys == t.memories.Keys + {parsed.filename}
    ensures forall f :: f in t.memories && f != parsed.filename ==> u.memories[f] == t.memories[f]
    ensures u.memories[parsed.filename] == UpsertRow(Lookup(t, parsed.filename), parsed, t.nextMemoryId)
    ensures u.changes == t.changes
  {
    var f := parsed.filename;
    var row := UpsertRow(Lookup(t, f), parsed, t.nextMemoryId);
    var next := if f in t.memories then t.nextMemoryId else t.nextMemoryId + 1;
    t.(memories := t.memories[f := row], nextMemoryId := next)
  }

  /** `DELETE FROM memories WHERE filename = ?`; the change log is kept. */
  function Remove(t: Tables, filename: string): (u: Tables)
    requires Valid(t)
    ensures Valid(u)
    ensures u.memories == t.memories - {filename} && u.changes == t.changes
  {
    t.(memories := t.memories - {filename})
  }

  /** The change row that preserves `existing` as it was at `changedAt`. */
  function ChangeOf(existing: MemoryRecord, changeId: nat, changedAt: string): ChangeRecord {
    ChangeRecord(changeId, existing.id, existing.filename, existing.title, existing.date,
                 existing.categories, existing.tags, existing.author, existing.summary,
                 existing.content, existing.createdAt, existing.updatedAt, changedAt)
  }

  /** Copies a row into the change log before it is overwritten. */
  function AppendChange(t: Tables, existing: MemoryRecord, changedAt: string): (u: Tables)
    requires Valid(t)
    ensures Valid(u)
    ensures u.memories == t.memories
    ensures |u.changes| == |t.changes| + 1 && u.changes[..|t.changes|] == t.changes
    ensures u.changes[|t.changes|].memoryId == existing.id && u.changes[|t.changes|].content == existing.content
    ensures u.changes[|t.changes|].changedAt == changedAt
  {
    t.(changes := t.changes + [ChangeOf(existing, t.nextChangeId, changedAt)],
       nextChangeId := t.nextChangeId + 1)
  }

  // ---------------------------------------------------------------------------
  // Reads
  // ---------------------------------------------------------------------------

  /** `SELECT * FROM memories WHERE filename = ?`, `null` when there is no row. */
  function Lookup(t: Tables, filename: string): (r: Option<MemoryRecord>)
    requires Valid(t)
    ensures r.Some? <==> filename in t.memories
    ensures r.Some? ==> r.value == t.memories[filename] && r.value.filename == filename
  {
    if filename in t.memories then Some(t.memories[filename]) else None
  }

  /** The column an `ORDER BY … DESC` sorts on. */
  datatype SortKey = ByDate | ByUpdatedAt

  function KeyOf(r: MemoryRecord, key: SortKey): string {
    match key
    case ByDate => r.date
    case ByUpdatedAt => r.updatedAt
  }

  /** `a` is listed before `b`: a larger key first; rows with equal keys in the
      order of their ids. */
  predicate Before(a: MemoryRecord, b: MemoryRecord, key: SortKey) {
    Text.LexLess(KeyOf(b, key), KeyOf(a, key)) || (KeyOf(a, key) == KeyOf(b, key) && a.id < b.id)
  }

  lemma BeforeAsymmetric(a: MemoryRecord, b: MemoryRecord, key: SortKey)
    requires Before(a, b, key)
    ensures !Before(b, a, key)
  {
    if Text.LexLess(KeyOf(b, key), KeyOf(a, key)) {
      Text.LexLessAsymmetric(KeyOf(b, key), KeyOf(a, key));
      Text.LexLessIrreflexive(KeyOf(a, key));
    } else {
      Text.LexLessIrreflexive(KeyOf(a, key));
    }
  }

  lemma BeforeTransitive(a: MemoryRecord, b: MemoryRecord, c: MemoryRecord, key: SortKey)
    requires Before(a, b, key) && Before(b, c, key)
    ensures Before(a, c, key)
  {
    var ka, kb, kc := KeyOf(a, key), KeyOf(b, key), KeyOf(c, key);
    if Text.LexLess(kb, ka) && Text.LexLess(kc, kb) {
      Text.LexLessTransitive(kc, kb, ka);
    }
  }

  lemma BeforeTotal(a: MemoryRecord, b: MemoryRecord, key: SortKey)
    requires a.id != b.id
    ensures Before(a, b, key) || Before(b, a, key)
  {
    Text.LexLessTotal(KeyOf(a, key), KeyOf(b, key));
  }

  predicate DistinctIds(s: set<MemoryRecord>) {
    forall a, b :: a in s && b in s && a != b ==> a.id != b.id
  }

  /** Every pair of listed rows is in `Before` order (so no row is listed twice). */
  predicate Ranked(q: seq<MemoryRecord>, key: SortKey) {
    forall i, j :: 0 <= i < j < |q| ==> Before(q[i], q[j], key)
  }

  predicate IsTop(top: MemoryRecord, s: set<MemoryRecord>, key: SortKey) {
    forall x :: x in s && x != top ==> Before(top, x, key)
  }

  lemma {:induction false} TopExists(s: set<MemoryRecord>, key: SortKey)
    requires s != {} && DistinctIds(s)
    ensures exists top :: top in s && IsTop(top, s, key)
    decreases |s|
  {
    var y :| y in s;
    if s != {y} {
      var rest := s - {y};
      TopExists(rest, key);
      var t :| t in rest && IsTop(t, rest, key);
      BeforeTotal(y, t, key);
      if Before(y, t, key) {
        AheadOfTop(y, t, rest, key);
        assert s == rest + {y};
      } else {
        assert IsTop(t, s, key);
      }
    }
  }

  /** Whatever comes before the top of `rest` is the top of `rest` plus itself. */
  lemma AheadOfTop(y: MemoryRecord, t: MemoryRecord, rest: set<MemoryRecord>, key: SortKey)
    requires t in rest && IsTop(t, rest, key) && Before(y, t, key)
    ensures IsTop(y, rest + {y}, key)
  {
    forall x | x in rest + {y} && x != y ensures Before(y, x, key) {
      if x != t { BeforeTransitive(y, t, x, key); }
    }
  }

  lemma TopUnique(s: set<MemoryRecord>, key: SortKey)
    ensures forall a, b :: a in s && b in s && IsTop(a, s, key) && IsTop(b, s, key) ==> a == b
  {
    forall a, b | a in s && b in s && IsTop(a, s, key) && IsTop(b, s, key) ensures a == b {
      if a != b {
        assert Before(a, b, key);
        BeforeAsymmetric(a, b, key);
      }
    }
  }

  /** The rows of `s` in the order the query returns them. */
  function Ordered(s: set<MemoryRecord>, key: SortKey): (q: seq<MemoryRecord>)
    requires DistinctIds(s)
    ensures Ranked(q, key)
    ensures forall x :: x in q <==> x in s
    decreases |s|
  {
    if s == {} then []
    else
      TopExists(s, key);
      TopUnique(s, key);
      var top :| top in s && IsTop(top, s, key);
      var rest := Ordered(s - {top}, key);
      TopBeforeAll(top, s, rest, key);
      [top] + rest
  }

  lemma TopBeforeAll(top: MemoryRecord, s: set<MemoryRecord>, rest: seq<MemoryRecord>, key: SortKey)
    requires IsTop(top, s, key) && Ranked(rest, key)
    requires forall x :: x in rest <==> x in s - {top}
    ensures Ranked([top] + rest, key)
  {
    var q := [top] + rest;
    forall i, j | 0 <= i < j < |q| ensures Before(q[i], q[j], key) {
      assert q[j] == rest[j - 1] && rest[j - 1] in rest;
      if i > 0 { assert q[i] == rest[i - 1]; }
    }
  }

  /** A ranked listing of exactly the rows of `s` is the one `Ordered` gives:
      the order of a query's result is fully determined by the rows. */
  lemma {:induction false} RankedUnique(q: seq<MemoryRecord>, s: set<MemoryRecord>, key: SortKey)
    requires DistinctIds(s) && Ranked(q, key)
    requires forall x :: x in q <==> x in s
    ensures q == Ordered(s, key)
    decreases |s|
  {
    if q == [] {
      assert s == {};
    } else {
      assert q[0] in s;
      var o := Ordered(s, key);
      OrderedUnfold(s, key);
      HeadIsTop(q, s, key);
      HeadIsTop(o, s, key);
      TopUnique(s, key);
      var top := q[0];
      assert top == o[0];
      TailHoldsTheRest(q, s, key);
      DistinctSubset(s, s - {top});
      RankedUnique(q[1..], s - {top}, key);
      SameListing(q, o, Ordered(s - {top}, key));
    }
  }

  lemma SameListing(q: seq<MemoryRecord>, o: seq<MemoryRecord>, r: seq<MemoryRecord>)
    requires q != [] && o != [] && q[0] == o[0] && q[1..] == r && o == [o[0]] + r
    ensures q == o
  {
    assert q == [q[0]] + q[1..];
  }

  lemma DistinctSubset(s: set<MemoryRecord>, t: set<MemoryRecord>)
    requires DistinctIds(s) && t <= s
    ensures DistinctIds(t)
  {
  }

  lemma OrderedUnfold(s: set<MemoryRecord>, key: SortKey)
    requires DistinctIds(s) && s != {}
    ensures Ordered(s, key) != []
    ensures Ordered(s, key) == [Ordered(s, key)[0]] + Ordered(s - {Ordered(s, key)[0]}, key)
  {
  }

  lemma HeadIsTop(q: seq<MemoryRecord>, s: set<MemoryRecord>, key: SortKey)
    requires q != [] && Ranked(q, key)
    requires forall x :: x in q <==> x in s
    ensures q[0] in s && IsTop(q[0], s, key)
  {
    forall x | x in s && x != q[0] ensures Before(q[0], x, key) {
      var j :| 0 <= j < |q| && q[j] == x;
    }
  }

  lemma TailHoldsTheRest(q: seq<MemoryRecord>, s: set<MemoryRecord>, key: SortKey)
    requires q != [] && Ranked(q, key)
    requires forall x :: x in q <==> x in s
    ensures Ranked(q[1..], key)
    ensures forall x :: x in q[1..] <==> x in s - {q[0]}
  {
    forall x ensures x in q[1..] <==> x in s - {q[0]} {
      if x in q[1..] {
        var j :| 1 <= j < |q| && q[j] == x;
        BeforeAsymmetric(q[0], q[j], key);
      }
      if x in s - {q[0]} {
        var j :| 0 <= j < |q| && q[j] == x;
        assert j != 0;
        assert x == q[1..][j - 1];
      }
    }
  }

  lemma ValidDistinct(t: Tables, s: set<MemoryRecord>)
    requires Valid(t) && s <= t.memories.Values
    ensures DistinctIds(s)
  {
    forall a, b | a in s && b in s && a != b ensures a.id != b.id {
      var f :| f in t.memories && t.memories[f] == a;
      var g :| g in t.memories && t.memories[g] == b;
    }
  }

  /** `getAllMemories(orderBy)`. */
  function AllRows(t: Tables, orderBy: SortKey): (q: seq<MemoryRecord>)
    requires Valid(t)
    ensures Ranked(q, orderBy)
    ensures forall x :: x in q <==> x in t.memories.Values
  {
    ValidDistinct(t, t.memories.Values);
    Ordered(t.memories.Values, orderBy)
  }

  /** `column LIKE '%' || p || '%'`: SQLite's default LIKE folds ASCII case only. */
  predicate LikeSubstring(column: string, p: string) {
    Text.Contains(Text.Lower(column), Text.Lower(p))
  }

  /** The `%"value"%` pattern the category and tag queries build. */
  function QuotedPattern(value: string): string { "\"" + value + "\"" }

  predicate InCategory(r: MemoryRecord, category: string) {
    LikeSubstring(r.categories, QuotedPattern(category))
  }

  predicate HasTag(r: MemoryRecord, tag: string) {
    r.tags.Some? && LikeSubstring(r.tags.value, QuotedPattern(tag))
  }

  /** `getMemoriesByCategory(category)`, newest `date` first. */
  function ByCategory(t: Tables, category: string): (q: seq<MemoryRecord>)
    requires Valid(t)
    ensures Ranked(q, ByDate)
    ensures forall x :: x in q <==> x in t.memories.Values && InCategory(x, category)
  {
    var s := set x | x in t.memories.Values && InCategory(x, category);
    ValidDistinct(t, s);
    Ordered(s, ByDate)
  }

  /** `getMemoriesByTag(tag)`, newest `date` first; rows without tags never match. */
  function ByTag(t: Tables, tag: string): (q: seq<MemoryRecord>)
    requires Valid(t)
    ensures Ranked(q, ByDate)
    ensures forall x :: x in q <==> x in t.memories.Values && HasTag(x, tag)
  {
    var s := set x | x in t.memories.Values && HasTag(x, tag);
    ValidDistinct(t, s);
    Ordered(s, ByDate)
  }

  /** `getRecentMemories(limit)`: the `limit` most recently updated rows. */
  function Recent(t: Tables, limit: nat): (q: seq<MemoryRecord>)
    requires Valid(t)
    ensures |q| <= limit && Ranked(q, ByUpdatedAt)
    ensures forall x :: x in q ==> x in t.memories.Values
    ensures forall x, y :: x in t.memories.Values && x !in q && y in q ==> Before(y, x, ByUpdatedAt)
    ensures |q| < limit ==> forall x :: x in t.memories.Values ==> x in q
  {
    var all := AllRows(t, ByUpdatedAt);
    var q := if limit < |all| then all[..limit] else all;
    forall x, y | x in t.memories.Values && x !in q && y in q ensures Before(y, x, ByUpdatedAt) {
      var i :| 0 <= i < |all| && all[i] == x;
      var j :| 0 <= j < |q| && q[j] == y;
      assert i >= |q|;
    }
    q
  }

  /** One group of `getStats().byCategory`: the first element of the group's
      `categories` list (`undefined` for an empty list) and the group's size. */
  datatype CategoryCount = CategoryCount(category: Option<string>, count: nat)

  datatype Stats = Stats(total: nat, byCategory: map<string, CategoryCount>)

  function FirstOf(xs: seq<string>): Option<string> {
    if xs == [] then None else Some(xs[0])
  }

  /** The number of rows whose `categories` text is `c`. */
  function GroupSize(t: Tables, c: string): (n: nat)
    ensures (exists f :: f in t.memories && t.memories[f].categories == c) ==> n >= 1
  {
    var members := set f | f in t.memories && t.memories[f].categories == c;
    if exists f :: f in t.memories && t.memories[f].categories == c then
      var f :| f in t.memories && t.memories[f].categories == c;
      assert f in members;
      |members|
    else |members|
  }

  /** `getStats()`: the row count, and one group per distinct `categories` text
      labelled with the first category of the list. */
  function Statistics(t: Tables): (s: Stats)
    requires Valid(t)
    ensures s.total == |t.memories|
    ensures forall f :: f in t.memories ==> t.memories[f].categories in s.byCategory
    ensures forall c :: c in s.byCategory ==>
      (exists f :: f in t.memories && t.memories[f].categories == c) &&
      JsonList.Parse(c).Some? &&
      s.byCategory[c].category == FirstOf(JsonList.Parse(c).value) &&
      s.byCategory[c].count == GroupSize(t, c) && s.byCategory[c].count >= 1
  {
    var groups := set f | f in t.memories :: t.memories[f].categories;
    var byCategory := map c | c in groups :: CategoryCount(FirstOf(JsonList.Parse(c).value), GroupSize(t, c));
    Stats(|t.memories|, byCategory)
  }

  // ---------------------------------------------------------------------------
  // Properties relating several operations
  // ---------------------------------------------------------------------------

  /** Repeated upserts of one file name keep the id and `created_at` of the first
      insert, whatever later versions of the file say. */
  lemma {:induction false} UpsertKeepsFirstInsert(t: Tables, versions: seq<ParsedMemory>, filename: string)
    requires Valid(t) && filename !in t.memories && versions != []
    requires forall i :: 0 <= i < |versions| ==> versions[i].filename == filename
    ensures var u := UpsertAll(t, versions);
      filename in u.memories &&
      u.memories[filename].createdAt == versions[0].frontmatter.createdAt &&
      u.memories[filename].id == t.nextMemoryId &&
      u.memories[filename].content == versions[|versions| - 1].content
    decreases |versions|
  {
    if |versions| > 1 {
      var first := Upsert(t, versions[0]);
      var init := versions[..|versions| - 1];
      UpsertKeepsFirstInsert(t, init, filename);
      assert init[0] == versions[0];
      assert UpsertAll(t, versions) == Upsert(UpsertAll(t, init), versions[|versions| - 1]);
    }
  }

  /** A sequence of upserts applied in order. */
  function UpsertAll(t: Tables, versions: seq<ParsedMemory>): (u: Tables)
    requires Valid(t)
    ensures Valid(u)
    ensures t.memories.Keys <= u.memories.Keys
    decreases |versions|
  {
    if versions == [] then t
    else Upsert(UpsertAll(t, versions[..|versions| - 1]), versions[|versions| - 1])
  }

  /** A row stored with category `c` is returned by `getMemoriesByCategory(c)`,
      for any `c` without quote, backslash or control characters. */
  lemma StoredCategoryIsFound(t: Tables, parsed: ParsedMemory, c: string)
    requires Valid(t) && c in parsed.frontmatter.categories && JsonList.Plain(c)
    ensures var u := Upsert(t, parsed);
      u.memories[parsed.filename] in ByCategory(u, c)
  {
    var u := Upsert(t, parsed);
    var r := u.memories[parsed.filename];
    var cats := parsed.frontmatter.categories;
    var i :| 0 <= i < |cats| && cats[i] == c;
    JsonList.ElementLiteralOccurs(cats, i);
    Text.ContainsLower(JsonList.Stringify(cats), JsonList.Quote(c));
    assert r.categories == JsonList.Stringify(cats);
    assert InCategory(r, c);
  }

  /** After an upsert the stats group of the stored categories is labelled with
      its first category. */
  lemma StatsLabelIsFirstCategory(t: Tables, parsed: ParsedMemory)
    requires Valid(t)
    ensures var u := Upsert(t, parsed);
      var cats := parsed.frontmatter.categories;
      JsonList.Stringify(cats) in Statistics(u).byCategory &&
      Statistics(u).byCategory[JsonList.Stringify(cats)].category == FirstOf(cats)
  {
    var u := Upsert(t, parsed);
    JsonList.ParseStringify(parsed.frontmatter.categories);
    assert u.memories[parsed.filename].categories == JsonList.Stringify(parsed.frontmatter.categories);
  }

  /** A deleted file name is no longer found, and no other row moves. */
  lemma RemoveOnlyThatRow(t: Tables, filename: string, other: string)
    requires Valid(t) && other != filename
    ensures Lookup(Remove(t, filename), filename).None?
    ensures Lookup(Remove(t, filename), other) == Lookup(t, other)
  {
  }

  // ---------------------------------------------------------------------------
  // The database file and its connections
  // ---------------------------------------------------------------------------

  /** The database file (`my-heart.db`) shared by every connection opened on it. */
  class DatabaseFile {
    var tables: Tables
    /** How many connections are open on the file. */
    var connections: nat

    constructor (tables: Tables)
      requires Valid(tables)
      ensures this.tables == tables && connections == 0
    {
      this.tables := tables;
      connections := 0;
    }
  }

  /** A connection opened with `new MemoryDB(dbPath)`. */
  class MemoryDB {
    const file: DatabaseFile
    var open: bool

    constructor (file: DatabaseFile)
      modifies file`connections
      ensures this.file == file && open
      ensures file.connections == old(file.connections) + 1
    {
      this.file := file;
      open := true;
      file.connections := file.connections + 1;
    }

    method UpsertMemory(parsed: ParsedMemory)
      requires open && Valid(file.tables)
      modifies file`tables
      ensures file.tables == Upsert(old(file.tables), parsed)
    {
      file.tables := Upsert(file.tables, parsed);
    }

    method GetAllMemories(orderBy: SortKey) returns (rows: seq<MemoryRecord>)
      requires open && Valid(file.tables)
      ensures rows == AllRows(file.tables, orderBy)
    {
      rows := AllRows(file.tables, orderBy);
    }

    method GetMemoriesByCategory(category: string) returns (rows: seq<MemoryRecord>)
      requires open && Valid(file.tables)
      ensures rows == ByCategory(file.tables, category)
    {
      rows := ByCategory(file.tables, category);
    }

    method GetRecentMemories(limit: nat) returns (rows: seq<MemoryRecord>)
      requires open && Valid(file.tables)
      ensures rows == Recent(file.tables, limit)
    {
      rows := Recent(file.tables, limit);
    }

    method GetMemoriesByTag(tag: string) returns (rows: seq<MemoryRecord>)
      requires open && Valid(file.tables)
      ensures rows == ByTag(file.tables, tag)
    {
      rows := ByTag(file.tables, tag);
    }

    method GetMemory(filename: string) returns (row: Option<MemoryRecord>)
      requires open && Valid(file.tables)
      ensures row == Lookup(file.tables, filename)
    {
      row := Lookup(file.tables, filename);
    }

    method DeleteMemory(filename: string)
      requires open && Valid(file.tables)
      modifies file`tables
      ensures file.tables == Remove(old(file.tables), filename)
    {
      file.tables := Remove(file.tables, filename);
    }

    method GetStats() returns (stats: Stats)
      requires open && Valid(file.tables)
      ensures stats == Statistics(file.tables)
    {
      stats := Statistics(file.tables);
    }

    /** Preserves the current version of a row in the change log; `changedAt`
        is the clock reading. */
    method SnapshotToChanges(existing: MemoryRecord, changedAt: string)
      requires open && Valid(file.tables)
      modifies file`tables
      ensures file.tables == AppendChange(old(file.tables), existing, changedAt)
    {
      file.tables := AppendChange(file.tables, existing, changedAt);
    }

    method Close()
      requires open && file.connections >= 1
      modifies this, file`connections
      ensures !open && file.connections == old(file.connections) - 1
    {
      open := false;
      file.connections := file.connections - 1;
    }
  }
}
