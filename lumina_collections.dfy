/** The gallery's collection reader: every Markdown file in the collections
    folder becomes a collection with a title, a few labelled fields, tags,
    the numbered pieces that name an image, and the artist's notes. */
module LuminaCollections {
  import opened Wrappers
  import opened Text
  import opened TextLines

  // ---------------------------------------------------------------------------
  // Paths and names
  // ---------------------------------------------------------------------------

  const VisionHome := "/Users/claudia/vision/"
  const VisionRoot := "/vision/"

  /** An image path as served: a leading home vision folder becomes the served
      `/vision/` folder, and the rest of the path is kept. */
  function Served(path: string): (r: string)
    ensures StartsWith(path, VisionHome) ==> StartsWith(r, VisionRoot) && r[|VisionRoot|..] == path[|VisionHome|..]
    ensures !StartsWith(path, VisionHome) ==> r == path
  {
    if StartsWith(path, VisionHome) then VisionRoot + path[|VisionHome|..] else path
  }

  /** A served path is served as it is. */
  lemma ServedTwice(path: string)
    ensures Served(Served(path)) == Served(path)
  {
    if StartsWith(path, VisionHome) {
      var r := Served(path);
      assert r[1] == 'v' != VisionHome[1];
    }
  }

  const Markdown := ".md"

  /** The collection's id, `path.basename(file, '.md')`: the file name
      without its `.md` extension, except that a name that is only the
      extension is kept whole. */
  function Id(file: string): (id: string)
    ensures EndsWith(file, Markdown) && |file| > |Markdown| ==> id + Markdown == file
    ensures !EndsWith(file, Markdown) || |file| == |Markdown| ==> id == file
    ensures id == [] <==> file == []
  {
    if EndsWith(file, Markdown) && |file| > |Markdown| then file[..|file| - |Markdown|] else file
  }

  // ---------------------------------------------------------------------------
  // Title and labelled fields (multi-line patterns, line by line)
  // ---------------------------------------------------------------------------

  /** `^# (.+)$`: a hash, a space and at least one more character. */
  predicate IsTitleText(t: string) { |t| >= 3 && t[0] == '#' && t[1] == ' ' }

  /** The first title line's text after `# `, or the id. */
  function TitleOf(texts: seq<string>, file: string): string {
    match FirstWhere(texts, IsTitleText)
    case Some(k) => texts[k][2..]
    case None => Id(file)
  }

  /** The title is the text of the first line of the form `# text`. */
  lemma TitleFound(texts: seq<string>, file: string, k: nat, title: string)
    requires k < |texts| && texts[k] == "# " + title && title != ""
    requires forall j :: 0 <= j < k ==> !IsTitleText(texts[j])
    ensures TitleOf(texts, file) == title
  {
    FirstWhereIs(texts, IsTitleText, k);
  }

  /** Without a title line the title is the file name without `.md`. */
  lemma TitleMissing(texts: seq<string>, file: string)
    requires forall j :: 0 <= j < |texts| ==> !IsTitleText(texts[j])
    ensures TitleOf(texts, file) == Id(file)
  {
  }

  const DescriptionLabel := "**Description:** "
  const CoverLabel := "**Cover Image:** "
  const CreatedLabel := "**Created:** "
  const TagsLabel := "**Tags:** "

  /** `key(.+)$` matches in line `t`: the key's first occurrence is
      followed by at least one more character of the line. A later
      occurrence in the same line ends later, so it cannot match either. */
  predicate HasField(t: string, key: string) {
    var o := FirstFrom(t, key, 0);
    o.Some? && o.value + |key| < |t|
  }

  /** The rest of the line after the key's first occurrence. */
  function FieldIn(t: string, key: string): (v: string)
    requires HasField(t, key)
    ensures v != [] && EndsWith(t, v)
  {
    t[FirstFrom(t, key, 0).value + |key|..]
  }

  /** The first line where the labelled pattern matches, and its value. */
  function Field(texts: seq<string>, key: string): (v: Option<string>)
    ensures v.None? <==> forall j :: 0 <= j < |texts| ==> !HasField(texts[j], key)
    ensures v.Some? ==> v.value != []
  {
    match FirstWhere(texts, t => HasField(t, key))
    case None => None
    case Some(k) => Some(FieldIn(texts[k], key))
  }

  /** A line that starts with the key gives the rest of the line. */
  lemma FieldAtStart(t: string, key: string, v: string)
    requires t == key + v && v != ""
    ensures HasField(t, key) && FieldIn(t, key) == v
  {
    assert OccursAt(t, key, 0);
  }

  /** The value comes from the first line where the pattern matches. */
  lemma FieldFound(texts: seq<string>, key: string, k: nat)
    requires k < |texts| && HasField(texts[k], key)
    requires forall j :: 0 <= j < k ==> !HasField(texts[j], key)
    ensures Field(texts, key) == Some(FieldIn(texts[k], key))
  {
    FirstWhereIs(texts, t => HasField(t, key), k);
  }

  /** A missing field is the empty string. */
  function FieldOr(texts: seq<string>, key: string): (v: string)
    ensures Field(texts, key).None? ==> v == ""
    ensures Field(texts, key).Some? ==> v == Field(texts, key).value
  {
    match Field(texts, key)
    case None => ""
    case Some(v) => v
  }

  // ---------------------------------------------------------------------------
  // Tags: split at white-space runs, keep the tokens that start with `#`
  // ---------------------------------------------------------------------------

  predicate NotSpace(c: char) { !IsJsSpace(c) }

  predicate NoSpace(w: string) { forall i :: 0 <= i < |w| ==> NotSpace(w[i]) }

  /** The end of the run of characters satisfying `p` that starts at `i`. */
  function RunEnd(t: string, i: nat, p: char -> bool): (e: nat)
    requires i <= |t|
    ensures i <= e <= |t| && (e == |t| || !p(t[e]))
    ensures forall j :: i <= j < e ==> p(t[j])
    decreases |t| - i
  {
    if i == |t| || !p(t[i]) then i else RunEnd(t, i + 1, p)
  }

  /** The non-empty pieces of `s.split(/\s+/)`: the maximal runs without
      white space. */
  function Words(s: string): (ws: seq<string>)
    ensures forall i :: 0 <= i < |ws| ==> ws[i] != [] && NoSpace(ws[i])
    decreases |s|
  {
    if s == [] then []
    else if IsJsSpace(s[0]) then Words(s[1..])
    else
      var e := RunEnd(s, 0, NotSpace);
      [s[..e]] + Words(s[e..])
  }

  /** A word followed by white space or nothing is the first word. */
  lemma WordsOfWord(w: string, t: string)
    requires w != [] && NoSpace(w) && (t == [] || IsJsSpace(t[0]))
    ensures Words(w + t) == [w] + Words(t)
  {
    var s := w + t;
    assert forall j :: 0 <= j < |w| ==> s[j] == w[j];
    assert |w| == |s| || s[|w|] == t[0];
    var e := RunEnd(s, 0, NotSpace);
    assert s[..e] == w && s[e..] == t;
  }

  /** Splitting words joined by single spaces gives the words back. */
  lemma {:induction false} WordsJoin(ws: seq<string>)
    requires forall i :: 0 <= i < |ws| ==> ws[i] != [] && NoSpace(ws[i])
    ensures Words(Join(ws, " ")) == ws
  {
    if |ws| == 1 {
      WordsOfWord(ws[0], "");
      assert ws[0] + "" == ws[0];
    } else if |ws| > 1 {
      var rest := Join(ws[1..], " ");
      WordsJoin(ws[1..]);
      var t := " " + rest;
      WordsOfWord(ws[0], t);
      assert ws[0] + " " + rest == ws[0] + t;
      assert t[1..] == rest;
      assert ws == [ws[0]] + ws[1..];
    }
  }

  /** The words that start with `#`, in order. */
  function Hashtags(ws: seq<string>): (ts: seq<string>)
    ensures |ts| <= |ws|
    ensures forall t :: t in ts <==> t in ws && StartsWith(t, "#")
  {
    if ws == [] then []
    else (if StartsWith(ws[0], "#") then [ws[0]] else []) + Hashtags(ws[1..])
  }

  /** When every word is a tag, all of them are kept, in order. */
  lemma {:induction false} HashtagsAll(ws: seq<string>)
    requires forall i :: 0 <= i < |ws| ==> StartsWith(ws[i], "#")
    ensures Hashtags(ws) == ws
  {
    if ws != [] {
      HashtagsAll(ws[1..]);
    }
  }

  /** The tags field's `#` words, or none. */
  function Tags(texts: seq<string>): (tags: seq<string>)
    ensures forall t :: t in tags ==> StartsWith(t, "#") && NoSpace(t)
  {
    match Field(texts, TagsLabel)
    case None => []
    case Some(v) => Hashtags(Words(v))
  }

  /** Tags written with single spaces between them are read back as they
      were written. */
  lemma TagsJoin(tags: seq<string>)
    requires forall i :: 0 <= i < |tags| ==> StartsWith(tags[i], "#") && NoSpace(tags[i])
    ensures Hashtags(Words(Join(tags, " "))) == tags
  {
    WordsJoin(tags);
    HashtagsAll(tags);
  }

  // ---------------------------------------------------------------------------
  // Pieces: `### <n>. <title>` followed by optional field lines
  // ---------------------------------------------------------------------------

  /** One match of the piece pattern: the optional captures. */
  datatype Match = Match(image: Option<string>, caption: Option<string>, created: Option<string>, context: Option<string>)

  /** `###\s+\d+\.\s+.+?` from `o` to the end of line `t`. */
  predicate HeadingAt(t: string, o: nat) {
    o + 3 <= |t| && t[o..o + 3] == "###" &&
    var a := RunEnd(t, o + 3, IsJsSpace);
    a > o + 3 &&
    var d := RunEnd(t, a, IsDigit);
    d > a && d + 2 < |t| && t[d] == '.' && IsJsSpace(t[d + 1])
  }

  predicate IsPieceHeading(t: string) { exists o: nat | o < |t| :: HeadingAt(t, o) }

  /** `### <n>. <title>` is a piece heading. */
  lemma HeadingLine(n: nat, title: string)
    requires title != ""
    ensures IsPieceHeading("### " + Decimal(n) + ". " + title)
  {
    var t := "### " + Decimal(n) + ". " + title;
    var d := 4 + |Decimal(n)|;
    assert t[..3] == "###" && t[3] == ' ';
    assert t[d] == '.' && t[d + 1] == ' ';
    forall j | 4 <= j < d
      ensures IsDigit(t[j])
    {
      assert t[j] == Decimal(n)[j - 4];
    }
    assert RunEnd(t, 3, IsJsSpace) == 4;
    assert RunEnd(t, 4, IsDigit) == d;
    assert HeadingAt(t, 0);
  }

  /** `\s+(.+?)` up to the end of a line: the text after the leading white
      space, or, when the white space runs to the end, its last character
      (the pattern gives one back). */
  function AfterSpaces(r: string): (v: Option<string>)
    ensures v.Some? ==> v.value != [] && |v.value| < |r| && v.value == r[|r| - |v.value|..]
    ensures v.Some? ==> forall j :: 0 <= j < |r| - |v.value| ==> IsJsSpace(r[j])
  {
    var n := RunEnd(r, 0, IsJsSpace);
    if n == 0 then None
    else if n < |r| then Some(r[n..])
    else if n >= 2 then Some(r[n - 1..])
    else None
  }

  /** White space then a value that starts with something else gives the
      value. */
  lemma AfterSpacesOf(w: string, v: string)
    requires w != [] && v != [] && (forall j :: 0 <= j < |w| ==> IsJsSpace(w[j])) && !IsJsSpace(v[0])
    ensures AfterSpaces(w + v) == Some(v)
  {
    var r := w + v;
    assert forall j :: 0 <= j < |w| ==> r[j] == w[j];
    assert r[|w|] == v[0];
    var n := RunEnd(r, 0, IsJsSpace);
    assert r[n..] == v;
  }

  const ImageLabel := "- **Image:**"
  const CaptionLabel := "- **Caption:**"
  const PieceCreatedLabel := "- **Created:**"
  const ContextLabel := "- **Philosophical Context:**"

  /** `- **Image:**\s+`(.+?)`` on one line. */
  function ImageIn(t: string): (v: Option<string>)
    ensures v.Some? ==> v.value != [] && StartsWith(t, ImageLabel) && EndsWith(t, v.value + "`")
  {
    if StartsWith(t, ImageLabel) then
      var r := t[|ImageLabel|..];
      var n := RunEnd(r, 0, IsJsSpace);
      if n >= 1 && n + 3 <= |r| && r[n] == '`' && r[|r| - 1] == '`' then
        assert r[n + 1..|r| - 1] + "`" == r[n + 1..];
        Some(r[n + 1..|r| - 1])
      else None
    else None
  }

  function ImageLine(path: string): string { ImageLabel + " `" + path + "`" }

  /** An image line gives back its path. */
  lemma ImageLineRead(path: string)
    requires path != ""
    ensures ImageIn(ImageLine(path)) == Some(path)
  {
    var t := ImageLine(path);
    assert StartsWith(t, ImageLabel);
    var r := t[|ImageLabel|..];
    assert r == " `" + path + "`";
    assert RunEnd(r, 0, IsJsSpace) == 1;
    assert r[2..|r| - 1] == path;
  }

  /** `"?(.+?)"?` up to the end of the line: an opening quote is dropped when
      something follows it, and a closing quote when something precedes it. */
  function Unquoted(u: string): (v: string)
    requires u != []
    ensures v != [] && |v| <= |u|
  {
    var w := if u[0] == '"' && |u| >= 2 then u[1..] else u;
    if |w| >= 2 && w[|w| - 1] == '"' then w[..|w| - 1] else w
  }

  /** `- **Caption:**\s+"?(.+?)"?` on one line. */
  function CaptionIn(t: string): (v: Option<string>)
    ensures v.Some? ==> v.value != [] && StartsWith(t, CaptionLabel)
  {
    if StartsWith(t, CaptionLabel) then
      match AfterSpaces(t[|CaptionLabel|..])
      case None => None
      case Some(u) => Some(Unquoted(u))
    else None
  }

  function CaptionLine(caption: string): string { CaptionLabel + " \"" + caption + "\"" }

  /** A quoted caption line gives back its caption without the quotes. */
  lemma CaptionLineRead(caption: string)
    requires caption != ""
    ensures CaptionIn(CaptionLine(caption)) == Some(caption)
  {
    var t := CaptionLine(caption);
    assert StartsWith(t, CaptionLabel);
    var rest := caption + "\"";
    var u := "\"" + rest;
    assert u == "\"" + caption + "\"";
    assert t[|CaptionLabel|..] == " " + u;
    AfterSpacesOf(" ", u);
    assert u[1..] == rest;
    assert (caption + "\"")[..|caption|] == caption;
  }

  /** `key\s+(.+?)` on one line. */
  function PlainIn(t: string, key: string): (v: Option<string>)
    ensures v.Some? ==> v.value != [] && StartsWith(t, key) && EndsWith(t, v.value)
  {
    if StartsWith(t, key) then AfterSpaces(t[|key|..]) else None
  }

  /** A labelled line gives back its value. */
  lemma PlainLineRead(key: string, value: string)
    requires value != "" && !IsJsSpace(value[0])
    ensures PlainIn(key + " " + value, key) == Some(value)
  {
    var t := key + " " + value;
    assert StartsWith(t, key);
    assert t[|key|..] == " " + value;
    AfterSpacesOf(" ", value);
  }

  /** An optional group at line `i`: it matches when its line parses and a
      line feed ends it. */
  function Optional(ls: seq<string>, i: nat, parse: string -> Option<string>): (r: (Option<string>, nat))
    ensures r.1 == i || (r.1 == i + 1 && r.0.Some?)
    ensures r.1 <= |ls| || r.1 == i
  {
    if i + 1 < |ls| && parse(ls[i]).Some? then (parse(ls[i]), i + 1) else (None, i)
  }

  /** The match whose heading is line `h`, and the line after it. */
  function MatchAt(ls: seq<string>, h: nat): (r: (Match, nat))
    requires h < |ls|
    ensures h < r.1 <= |ls|
  {
    var (image, a) := Optional(ls, h + 1, ImageIn);
    var (caption, b) := Optional(ls, a, CaptionIn);
    var (created, c) := Optional(ls, b, t => PlainIn(t, PieceCreatedLabel));
    var (context, d) := Optional(ls, c, t => PlainIn(t, ContextLabel));
    (Match(image, caption, created, context), d)
  }

  /** The first heading line at or after `k` that a line feed ends. */
  function NextHeading(ls: seq<string>, k: nat): (h: Option<nat>)
    ensures h.Some? ==> k <= h.value && h.value + 1 < |ls| && IsPieceHeading(ls[h.value])
    ensures forall j :: k <= j && j + 1 < |ls| && (h.None? || j < h.value) ==> !IsPieceHeading(ls[j])
    decreases |ls| - k
  {
    if k + 1 >= |ls| then None
    else if IsPieceHeading(ls[k]) then Some(k)
    else NextHeading(ls, k + 1)
  }

  /** `pieceRegex.exec(content)` from the start of line `k`: the next match
      and the line where the following search starts. */
  function Exec(ls: seq<string>, k: nat): (r: Option<(Match, nat)>)
    ensures r.Some? ==> k < r.value.1 <= |ls|
  {
    match NextHeading(ls, k)
    case None => None
    case Some(h) => Some(MatchAt(ls, h))
  }

  /** Every match from line `k` on, in document order. */
  function Matches(ls: seq<string>, k: nat): seq<Match>
    decreases |ls| - k
  {
    match Exec(ls, k)
    case None => []
    case Some((m, e)) => [m] + Matches(ls, e)
  }

  /** A piece of a collection. */
  datatype Piece = Piece(image: string, caption: Option<string>, created: Option<string>, philosophicalContext: Option<string>)

  function PieceOf(m: Match): Piece
    requires m.image.Some?
  {
    Piece(Served(m.image.value), m.caption, m.created, m.context)
  }

  /** The matches that captured an image, as pieces, in order. */
  function Kept(ms: seq<Match>): (ps: seq<Piece>)
    ensures |ps| <= |ms|
    ensures forall i :: 0 <= i < |ps| ==> exists j :: 0 <= j < |ms| && ms[j].image.Some? && ps[i] == PieceOf(ms[j])
    ensures forall j :: 0 <= j < |ms| && ms[j].image.Some? ==> PieceOf(ms[j]) in ps
  {
    if ms == [] then []
    else
      var init := ms[..|ms| - 1];
      var last := ms[|ms| - 1];
      var ps := Kept(init);
      assert forall j :: 0 <= j < |init| ==> init[j] == ms[j];
      if last.image.Some? then ps + [PieceOf(last)] else ps
  }

  /** Keeping is done match by match: the pieces of two runs of matches are
      the pieces of the first followed by those of the second. */
  lemma {:induction false} KeptAppend(a: seq<Match>, b: seq<Match>)
    ensures Kept(a + b) == Kept(a) + Kept(b)
  {
    if b != [] {
      var init := b[..|b| - 1];
      KeptAppend(a, init);
      assert (a + b)[..|a + b| - 1] == a + init;
      assert (a + b)[|a + b| - 1] == b[|b| - 1];
    } else {
      assert a + b == a;
    }
  }

  /** The loop of `parseCollectionMarkdown`: run the pattern until it no
      longer matches, keeping each match that captured an image. */
  method CollectPieces(content: string) returns (pieces: seq<Piece>)
    ensures pieces == Kept(Matches(Split(content, '\n'), 0))
  {
    var ls := Split(content, '\n');
    var k := 0;
    var seen: seq<Match> := [];
    pieces := [];
    while true
      invariant k <= |ls|
      invariant seen + Matches(ls, k) == Matches(ls, 0)
      invariant pieces == Kept(seen)
      decreases |ls| - k
    {
      var next := Exec(ls, k);
      if next.None? {
        assert Matches(ls, k) == [];
        assert seen + [] == seen;
        break;
      }
      var (m, e) := next.value;
      assert Matches(ls, k) == [m] + Matches(ls, e);
      assert Kept(seen + [m]) == Kept(seen) + (if m.image.Some? then [PieceOf(m)] else []) by {
        assert (seen + [m])[..|seen|] == seen;
      }
      if m.image.Some? {
        pieces := pieces + [PieceOf(m)];
      }
      Regroup(seen, m, Matches(ls, e));
      seen := seen + [m];
      k := e;
    }
  }

  lemma Regroup(a: seq<Match>, m: Match, b: seq<Match>)
    ensures a + [m] + b == a + ([m] + b)
  {
  }

  /** A heading followed by an image line and a quoted caption line, then a
      line that is neither a created nor a context line, is one match with
      that image and caption. */
  lemma PieceBlock(ls: seq<string>, h: nat, path: string, caption: string)
    requires h + 3 < |ls| && path != "" && caption != ""
    requires ls[h + 1] == ImageLine(path) && ls[h + 2] == CaptionLine(caption)
    requires PlainIn(ls[h + 3], PieceCreatedLabel).None? && PlainIn(ls[h + 3], ContextLabel).None?
    ensures MatchAt(ls, h) == (Match(Some(path), Some(caption), None, None), h + 3)
  {
    ImageLineRead(path);
    CaptionLineRead(caption);
  }

  // ---------------------------------------------------------------------------
  // Artist notes
  // ---------------------------------------------------------------------------

  const NotesLabel := "## Artist Notes\n\n"

  /** Where the notes start: after the key's first occurrence, when at
      least one character follows it. */
  function NotesStart(c: string): (s: Option<nat>)
    ensures s.Some? ==> s.value < |c|
  {
    match FirstFrom(c, NotesLabel, 0)
    case None => None
    case Some(o) => if o + |NotesLabel| < |c| then Some(o + |NotesLabel|) else None
  }

  /** The first position from `i` on that is the end of the text or a line
      break: where `$` matches in a multi-line pattern. */
  function LineEndFrom(c: string, i: nat): (x: nat)
    requires i <= |c|
    ensures i <= x <= |c| && (x == |c| || IsLineBreak(c[x]))
    ensures forall j :: i <= j < x ==> !IsLineBreak(c[j])
    decreases |c| - i
  {
    if i == |c| || IsLineBreak(c[i]) then i else LineEndFrom(c, i + 1)
  }

  /** The notes as written: the lazy capture stops at the first `$`, which in
      a multi-line pattern is the first line break, so only the first line
      of the notes is kept. */
  function ArtistNotesAsWritten(c: string): Option<string> {
    match NotesStart(c)
    case None => None
    case Some(s) => Some(Trim(c[s..LineEndFrom(c, s + 1)]))
  }

  /** A line feed followed by a heading, a rule or a list item. */
  predicate SectionBreakAt(c: string, j: nat) {
    OccursAt(c, "\n##", j) || OccursAt(c, "\n---", j) || OccursAt(c, "\n*", j)
  }

  /** The first position from `i` on where a section break starts, or the
      end of the text. */
  function SectionEndFrom(c: string, i: nat): (x: nat)
    requires i <= |c|
    ensures i <= x <= |c| && (x == |c| || SectionBreakAt(c, x))
    ensures forall j :: i <= j < x ==> !SectionBreakAt(c, j)
    decreases |c| - i
  {
    if i == |c| || SectionBreakAt(c, i) then i else SectionEndFrom(c, i + 1)
  }

  /** The notes: everything after the key up to the next heading, rule or
      list item, or to the end, trimmed. */
  function ArtistNotes(c: string): Option<string> {
    match NotesStart(c)
    case None => None
    case Some(s) => Some(Trim(c[s..SectionEndFrom(c, s + 1)]))
  }

  /** No section break starts at a character that is not a line feed, or at
      a line feed followed by anything but a heading, rule or list mark. */
  lemma NotBreakAt(c: string, j: nat)
    requires j < |c|
    requires c[j] != '\n' || (j + 1 < |c| && c[j + 1] != '#' && c[j + 1] != '-' && c[j + 1] != '*')
    ensures !SectionBreakAt(c, j)
  {
    MarkAt(c, "\n##", j);
    MarkAt(c, "\n---", j);
    MarkAt(c, "\n*", j);
  }

  /** A mark of two or more characters occurs only where its first two do. */
  lemma MarkAt(c: string, p: string, j: nat)
    requires |p| >= 2
    ensures OccursAt(c, p, j) ==> j + 1 < |c| && c[j] == p[0] && c[j + 1] == p[1]
  {
    if OccursAt(c, p, j) {
      assert c[j..j + |p|][0] == c[j] && c[j..j + |p|][1] == c[j + 1];
    }
  }

  /** Two lines of notes after the label. */
  predicate TwoLineNotes(a: string, b: string) {
    a != [] && b != [] && NoBreak(a) && NoBreak(b) && Trimmed(a) && Trimmed(b) &&
    b[0] != '#' && b[0] != '-' && b[0] != '*'
  }

  /** The notes start right after a leading label. */
  lemma NotesAfterLabel(rest: string)
    requires rest != []
    ensures NotesStart(NotesLabel + rest) == Some(|NotesLabel|)
  {
    assert OccursAt(NotesLabel + rest, NotesLabel, 0);
  }

  /** As written, notes of two lines keep only the first line. */
  lemma NotesCutAtLineBreak(a: string, b: string)
    requires TwoLineNotes(a, b)
    ensures ArtistNotesAsWritten(NotesLabel + a + "\n" + b) == Some(a)
  {
    var c := NotesLabel + a + "\n" + b;
    var s := |NotesLabel|;
    assert c == NotesLabel + (a + "\n" + b);
    NotesAfterLabel(a + "\n" + b);
    var e := s + |a|;
    assert c[e] == '\n';
    forall j | s + 1 <= j < e
      ensures !IsLineBreak(c[j])
    {
      assert c[j] == a[j - s];
    }
    assert LineEndFrom(c, s + 1) == e;
    assert c[s..e] == a;
    TrimTrimmed(a);
  }

  /** No section break follows the label in two lines of notes. */
  lemma {:induction false} NoBreakInNotes(a: string, b: string)
    requires TwoLineNotes(a, b)
    ensures var c := NotesLabel + (a + "\n" + b);
      forall j :: |NotesLabel| + 1 <= j < |c| ==> !SectionBreakAt(c, j)
  {
    var c := NotesLabel + (a + "\n" + b);
    var s := |NotesLabel|;
    var e := s + |a|;
    assert c[e] == '\n' && c[e + 1] == b[0];
    forall j | s + 1 <= j < |c|
      ensures !SectionBreakAt(c, j)
    {
      if j < e {
        assert c[j] == a[j - s];
        assert !IsLineBreak(a[j - s]);
        NotBreakAt(c, j);
      } else if j > e {
        assert c[j] == b[j - e - 1];
        assert !IsLineBreak(b[j - e - 1]);
        NotBreakAt(c, j);
      } else {
        NotBreakAt(c, j);
      }
    }
  }

  /** Notes of two lines with nothing after them are kept whole. */
  lemma NotesWholeSection(a: string, b: string)
    requires TwoLineNotes(a, b)
    ensures ArtistNotes(NotesLabel + a + "\n" + b) == Some(a + "\n" + b)
  {
    var notes := a + "\n" + b;
    var c := NotesLabel + notes;
    var s := |NotesLabel|;
    assert NotesLabel + a + "\n" + b == c;
    NotesAfterLabel(notes);
    NoBreakInNotes(a, b);
    var x := SectionEndFrom(c, s + 1);
    assert x == |c|;
    assert c[s..x] == notes;
    assert notes[0] == a[0] && notes[|notes| - 1] == b[|b| - 1];
    TrimTrimmed(notes);
    assert ArtistNotes(c) == Some(Trim(c[s..x]));
  }

  // ---------------------------------------------------------------------------
  // Collections
  // ---------------------------------------------------------------------------

  datatype Collection = Collection(
    id: string, title: string, description: string, coverImage: string, created: string,
    tags: seq<string>, pieces: seq<Piece>, artistNotes: Option<string>)

  /** `parseCollectionMarkdown` on the text of `file`. */
  function CollectionOf(file: string, c: string): (r: Collection)
    ensures r.id == Id(file) && |r.pieces| <= |Matches(Split(c, '\n'), 0)|
    ensures r.artistNotes.Some? <==> NotesStart(c).Some?
  {
    var texts := SplitLines(c).texts;
    Collection(Id(file), TitleOf(texts, file), FieldOr(texts, DescriptionLabel),
               Served(FieldOr(texts, CoverLabel)), FieldOr(texts, CreatedLabel), Tags(texts),
               Kept(Matches(Split(c, '\n'), 0)), ArtistNotesAsWritten(c))
  }

  /** `parseCollectionMarkdown`: `content` is the file's text, `None` when it
      cannot be read, which gives no collection. */
  method ParseCollection(file: string, content: Option<string>) returns (r: Option<Collection>)
    ensures content.None? ==> r.None?
    ensures content.Some? ==> r == Some(CollectionOf(file, content.value))
  {
    if content.None? {
      return None;
    }
    var c := content.value;
    var pieces := CollectPieces(c);
    var texts := SplitLines(c).texts;
    r := Some(Collection(Id(file), TitleOf(texts, file), FieldOr(texts, DescriptionLabel),
                         Served(FieldOr(texts, CoverLabel)), FieldOr(texts, CreatedLabel), Tags(texts),
                         pieces, ArtistNotesAsWritten(c)));
  }

  /** The collections of the Markdown files among `names` that can be read,
      in directory order. */
  function Listed(names: seq<string>, contents: map<string, string>): (cs: seq<Collection>)
    ensures |cs| <= |names|
  {
    if names == [] then []
    else
      var n := names[|names| - 1];
      Listed(names[..|names| - 1], contents) +
        (if EndsWith(n, Markdown) && n in contents then [CollectionOf(n, contents[n])] else [])
  }

  /** Every listed collection comes from a readable `.md` file, and every
      readable `.md` file gives one. */
  lemma {:induction false} ListedFiles(names: seq<string>, contents: map<string, string>)
    ensures forall c :: c in Listed(names, contents) ==>
      exists n :: n in names && EndsWith(n, Markdown) && n in contents && c == CollectionOf(n, contents[n])
    ensures forall n :: n in names && EndsWith(n, Markdown) && n in contents ==>
      CollectionOf(n, contents[n]) in Listed(names, contents)
  {
    if names != [] {
      var init := names[..|names| - 1];
      ListedFiles(init, contents);
      assert names == init + [names[|names| - 1]];
    }
  }

  /** One more directory entry adds its collection, if it gives one. */
  lemma ListedNext(ns: seq<string>, i: nat, contents: map<string, string>)
    requires i < |ns|
    ensures Listed(ns[..i + 1], contents) == Listed(ns[..i], contents) +
      (if EndsWith(ns[i], Markdown) && ns[i] in contents then [CollectionOf(ns[i], contents[ns[i]])] else [])
  {
    assert ns[..i + 1][..i] == ns[..i];
  }

  /** The handler: `names` is the directory listing, `None` when it cannot be
      read, which gives no collections; `contents` holds the text of every
      file that can be read. */
  method ListCollections(names: Option<seq<string>>, contents: map<string, string>) returns (cs: seq<Collection>)
    ensures names.None? ==> cs == []
    ensures names.Some? ==> cs == Listed(names.value, contents)
  {
    cs := [];
    if names.None? {
      return;
    }
    var ns := names.value;
    for i := 0 to |ns|
      invariant cs == Listed(ns[..i], contents)
    {
      var n := ns[i];
      ListedNext(ns, i, contents);
      if EndsWith(n, Markdown) {
        var read := if n in contents then Some(contents[n]) else None;
        var c := ParseCollection(n, read);
        if c.Some? {
          cs := cs + [c.value];
        }
      }
    }
    assert ns[..|ns|] == ns;
  }
}
