/** The text of a memory file as the write and remember routes produce it: the
    YAML header (`buildFrontmatter`), the framing around header and body, the
    removal of a leading header (`stripFrontmatter`), and the `touch -t` stamp
    derived from `updated_at` (`formatTouchTime`). */
module MemoryFile {
  import opened Wrappers
  import opened Text
  import opened MemoryTypes

  // ---------------------------------------------------------------------------
  // The header
  // ---------------------------------------------------------------------------

  /** A YAML list as the routes write it: `[${xs.join(", ")}]`. */
  function FlowList(xs: seq<string>): string { "[" + Join(xs, ", ") + "]" }

  /** `fm.tags && fm.tags.length > 0`. */
  predicate WritesTags(fm: Frontmatter) { fm.tags.Some? && |fm.tags.value| > 0 }

  /** One `key: value` line of a header. */
  datatype Field = Field(key: string, value: string)

  /** The fields of a header in the order `buildFrontmatter` writes them: title,
      date and categories always; tags only when there are some; author and
      summary only when set; then the two timestamps. Title and summary are
      written between double quotes. */
  function Fields(fm: Frontmatter): seq<Field> {
    [Field("title", "\"" + fm.title + "\""), Field("date", fm.date),
     Field("categories", FlowList(fm.categories))] +
    (if WritesTags(fm) then [Field("tags", FlowList(fm.tags.value))] else []) +
    (if Truthy(fm.author) then [Field("author", fm.author.value)] else []) +
    (if Truthy(fm.summary) then [Field("summary", "\"" + fm.summary.value + "\"")] else []) +
    [Field("created_at", fm.createdAt), Field("updated_at", fm.updatedAt)]
  }

  function Line(f: Field): string { f.key + ": " + f.value }

  /** Lines, each followed by a newline. */
  function Rendered(fields: seq<Field>): string {
    if fields == [] then "" else Line(fields[0]) + "\n" + Rendered(fields[1..])
  }

  /** `buildFrontmatter`: `yaml += `key: value\n`` for each field in turn. */
  function BuildFrontmatter(fm: Frontmatter): (yaml: string)
    ensures EndsWith(yaml, "\n")
  {
    RenderedEndsWithNewline(Fields(fm));
    Rendered(Fields(fm))
  }

  lemma {:induction false} RenderedEndsWithNewline(fields: seq<Field>)
    requires fields != []
    ensures EndsWith(Rendered(fields), "\n")
  {
    if fields[1..] != [] {
      RenderedEndsWithNewline(fields[1..]);
    }
  }

  /** Every value of the header fits on one line. */
  predicate SingleLine(fm: Frontmatter) {
    forall f :: f in Fields(fm) ==> '\n' !in f.value
  }

  lemma {:induction false} SplitRendered(fields: seq<Field>)
    requires forall i :: 0 <= i < |fields| ==> '\n' !in Line(fields[i])
    ensures var lines := Split(Rendered(fields), '\n');
      |lines| == |fields| + 1 && lines[|fields|] == "" &&
      forall i :: 0 <= i < |fields| ==> lines[i] == Line(fields[i])
  {
    if fields != [] {
      SplitRendered(fields[1..]);
      SplitAtFirst(Line(fields[0]), '\n', Rendered(fields[1..]));
      assert Line(fields[0]) + "\n" + Rendered(fields[1..]) ==
             Line(fields[0]) + ['\n'] + Rendered(fields[1..]);
    }
  }

  /** Split at its newlines, the header is one `key: value` line per field of
      `Fields(fm)`, in that order, and nothing follows the last newline. */
  lemma HeaderLines(fm: Frontmatter)
    requires SingleLine(fm)
    ensures var lines := Split(BuildFrontmatter(fm), '\n');
      var fields := Fields(fm);
      |lines| == |fields| + 1 && lines[|fields|] == "" &&
      forall i :: 0 <= i < |fields| ==> lines[i] == fields[i].key + ": " + fields[i].value
  {
    var fields := Fields(fm);
    forall i | 0 <= i < |fields| ensures '\n' !in Line(fields[i]) {
      assert fields[i] in fields;
      KeyHasNoNewline(fields, i);
    }
    SplitRendered(fields);
  }

  /** The keys `buildFrontmatter` writes are plain words. */
  predicate PlainKey(k: string) {
    k in {"title", "date", "categories", "tags", "author", "summary", "created_at", "updated_at"}
  }

  lemma KeyHasNoNewline(fields: seq<Field>, i: nat)
    requires i < |fields| && PlainKey(fields[i].key) && '\n' !in fields[i].value
    ensures '\n' !in Line(fields[i])
  {
    var k := fields[i].key;
    assert '\n' !in k;
    assert '\n' !in ": ";
  }

  // ---------------------------------------------------------------------------
  // The file: header between fences, then the body
  // ---------------------------------------------------------------------------

  /** `content.endsWith('\n') ? content : content + '\n'`. */
  function WithNewline(body: string): (r: string)
    ensures EndsWith(r, "\n")
    ensures EndsWith(body, "\n") ==> r == body
    ensures !EndsWith(body, "\n") ==> r == body + "\n"
  {
    if EndsWith(body, "\n") then body else body + "\n"
  }

  /** The opening fence of a header. */
  const Opening := "---\n"
  /** The closing fence of a header with the newline in front of it and the
      blank line after it. */
  const Fence := "\n---\n\n"

  /** `---\n${yaml}---\n\n${contentWithNewline}`. */
  function FullContent(yaml: string, body: string): string {
    Opening + yaml + "---\n\n" + WithNewline(body)
  }

  /** The first index at or after `from` where `Fence` starts. */
  function FirstFence(s: string, from: nat): (r: Option<nat>)
    decreases |s| - from
    ensures r.Some? ==> from <= r.value && OccursAt(s, Fence, r.value)
    ensures r.Some? ==> forall j :: from <= j < r.value ==> !OccursAt(s, Fence, j)
    ensures r.None? ==> forall j :: from <= j ==> !OccursAt(s, Fence, j)
  {
    if from + |Fence| > |s| then None
    else if OccursAt(s, Fence, from) then Some(from)
    else FirstFence(s, from + 1)
  }

  /** `stripFrontmatter`: `content.replace(/^---\n[\s\S]*?\n---\n\n/, "")`. The
      lazy `[\s\S]*?` makes the match end at the first closing fence after the
      opening one (which may directly follow it). */
  function StripFrontmatter(s: string): (r: string)
    ensures |r| <= |s| && r == s[|s| - |r|..]
    ensures |r| < |s| <==> StartsWith(s, Opening) && exists i: nat :: 4 <= i && OccursAt(s, Fence, i)
    ensures |r| < |s| ==> var k := |s| - |r|;
      k >= 10 && StartsWith(s, Opening) && OccursAt(s, Fence, k - 6) &&
      forall j :: 4 <= j < k - 6 ==> !OccursAt(s, Fence, j)
  {
    if StartsWith(s, Opening) then
      match FirstFence(s, 4)
      case Some(i) => s[i + 6..]
      case None => s
    else s
  }

  /** No line after the first starts with `-`: a newline inside the text (other
      than its last character) is never followed by a dash. */
  predicate NoDashLine(yaml: string) {
    forall m :: 0 <= m < |yaml| - 1 && yaml[m] == '\n' ==> yaml[m + 1] != '-'
  }

  lemma {:induction false} RenderedHasNoDashLine(fields: seq<Field>)
    requires forall i :: 0 <= i < |fields| ==> '\n' !in Line(fields[i]) && PlainKey(fields[i].key)
    ensures NoDashLine(Rendered(fields))
  {
    if fields != [] {
      var l := Line(fields[0]);
      var rest := Rendered(fields[1..]);
      RenderedHasNoDashLine(fields[1..]);
      var y := Rendered(fields);
      assert y == l + "\n" + rest;
      assert forall m :: 0 <= m < |l| ==> y[m] == l[m];
      forall m | |l| <= m < |y| - 1 && y[m] == '\n' ensures y[m + 1] != '-' {
        if m == |l| {
          assert rest != [];
          assert fields[1..] != [];
          var k := fields[1].key;
          assert rest[0] == k[0];
          assert y[m + 1] == rest[0];
        } else {
          assert y[m] == rest[m - |l| - 1];
          assert y[m + 1] == rest[m - |l|];
        }
      }
    }
  }

  /** Removing the header from a file that was written with a header built from
      single-line values gives back the body (with its final newline). */
  lemma StripFullContent(yaml: string, body: string)
    requires yaml != [] && yaml[|yaml| - 1] == '\n' && NoDashLine(yaml)
    ensures StripFrontmatter(FullContent(yaml, body)) == WithNewline(body)
  {
    var s := FullContent(yaml, body);
    var b := WithNewline(body);
    var k := |yaml| + 3;
    assert s == Opening + yaml + "---\n\n" + b;
    assert StartsWith(s, Opening);
    assert s[k..k + 6] == Fence;
    assert OccursAt(s, Fence, k);
    forall j | 4 <= j < k ensures !OccursAt(s, Fence, j) {
      assert s[j] == yaml[j - 4] && s[j + 1] == yaml[j - 3];
      if yaml[j - 4] == '\n' {
        assert yaml[j - 3] != '-';
      }
    }
    var first := FirstFence(s, 4);
    assert first == Some(k);
    assert s[k + 6..] == b;
  }

  /** What `stripFrontmatter` does to a file the write route produced. */
  lemma StripWrittenFile(fm: Frontmatter, body: string)
    requires SingleLine(fm)
    ensures StripFrontmatter(FullContent(BuildFrontmatter(fm), body)) == WithNewline(body)
  {
    var fields := Fields(fm);
    forall i | 0 <= i < |fields| ensures '\n' !in Line(fields[i]) && PlainKey(fields[i].key) {
      assert fields[i] in fields;
      KeyHasNoNewline(fields, i);
    }
    RenderedHasNoDashLine(fields);
    var yaml := BuildFrontmatter(fm);
    assert yaml[|yaml| - 1] == '\n';
    StripFullContent(yaml, body);
  }

  // ---------------------------------------------------------------------------
  // The `touch -t` stamp
  // ---------------------------------------------------------------------------

  /** The UTC calendar fields of a `Date`. */
  datatype UtcTime = UtcTime(year: nat, month: nat, day: nat, hour: nat, minute: nat, second: nat)

  predicate ValidTime(t: UtcTime) {
    1 <= t.month <= 12 && 1 <= t.day <= 31 && t.hour < 24 && t.minute < 60 && t.second < 60
  }

  /** `formatTouchTime`: `YYYYMMDDhhmm.ss`, every field but the year padded to
      two digits. `month` is the calendar month (`getUTCMonth() + 1`). */
  function FormatTouchTime(t: UtcTime): (stamp: string)
    requires ValidTime(t)
    ensures |stamp| == |Decimal(t.year)| + 11 && stamp[|stamp| - 3] == '.'
  {
    Decimal(t.year) + Pad2(t.month) + Pad2(t.day) + Pad2(t.hour) + Pad2(t.minute) + "." + Pad2(t.second)
  }

  /** How `touch -t` reads a `CCYYMMDDhhmm.ss` stamp. */
  function ParseTouchTime(s: string): (t: Option<UtcTime>)
    ensures t.Some? ==> |s| == 15 && s[12] == '.'
  {
    if |s| == 15 && AllDigits(s[..12]) && s[12] == '.' && AllDigits(s[13..]) then
      Some(UtcTime(DigitsValue(s[..4]), DigitsValue(s[4..6]), DigitsValue(s[6..8]),
                   DigitsValue(s[8..10]), DigitsValue(s[10..12]), DigitsValue(s[13..])))
    else None
  }

  lemma FourDigitYear(n: nat)
    requires 1000 <= n <= 9999
    ensures |Decimal(n)| == 4
  {
    var a := n / 10;
    var b := a / 10;
    var c := b / 10;
    assert 100 <= a && 10 <= b && 1 <= c < 10;
    assert |Decimal(n)| == |Decimal(a)| + 1;
    assert |Decimal(a)| == |Decimal(b)| + 1;
    assert |Decimal(b)| == |Decimal(c)| + 1;
  }

  /** For a four-digit year, `touch -t` reads back exactly the time the stamp was
      made from. */
  lemma TouchTimeRoundTrip(t: UtcTime)
    requires ValidTime(t) && 1000 <= t.year <= 9999
    ensures ParseTouchTime(FormatTouchTime(t)) == Some(t)
  {
    var y, mo, d, h, mi, se := Decimal(t.year), Pad2(t.month), Pad2(t.day), Pad2(t.hour), Pad2(t.minute), Pad2(t.second);
    FourDigitYear(t.year);
    DecimalRoundTrip(t.year);
    var s := FormatTouchTime(t);
    assert s == y + mo + d + h + mi + "." + se;
    assert s[..4] == y;
    assert s[4..6] == mo;
    assert s[6..8] == d;
    assert s[8..10] == h;
    assert s[10..12] == mi;
    assert s[13..] == se;
    assert s[..12] == y + mo + d + h + mi;
    assert AllDigits(s[..12]);
  }
}
