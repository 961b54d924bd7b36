/** The newsletter publisher: a Markdown newsletter becomes a title, an
    optional subtitle and styled HTML, posted as a draft or as a published
    post. The heading, rule and subtitle patterns work line by line, so the
    text is cut at its line breaks first. */
module Newsletter {
  import opened Wrappers
  import opened Text
  import opened MemoryTypes
  import opened TextLines

  // ---------------------------------------------------------------------------
  // Headings
  // ---------------------------------------------------------------------------

  /** `^#\s+.+$` within one line: a hash, a space and at least one more
      character. */
  predicate IsTitleLine(t: string) { |t| >= 3 && t[0] == '#' && IsJsSpace(t[1]) }

  /** `^##\s+.+$` within one line. */
  predicate IsSubheadLine(t: string) { |t| >= 4 && t[0] == '#' && t[1] == '#' && IsJsSpace(t[2]) }

  /** `^###\s+.+$` within one line. */
  predicate IsMinorLine(t: string) { |t| >= 5 && t[0] == '#' && t[1] == '#' && t[2] == '#' && IsJsSpace(t[3]) }

  /** The capture of `\s+(.+)$` where the spaces start at `k`: the rest of the
      line after the spaces, or its last character when only spaces are
      left. */
  function Capture(t: string, k: nat): (g: string)
    requires k + 2 <= |t|
    ensures g != [] && EndsWith(t, g)
  {
    var r := TrimStart(t[k..]);
    if r != [] then r else [t[|t| - 1]]
  }

  /** Trimming the capture is trimming the whole rest of the line: the title
      and subtitle are the heading text without surrounding spaces. */
  lemma CaptureTrim(t: string, k: nat)
    requires k + 2 <= |t|
    ensures Trim(Capture(t, k)) == Trim(t[k..])
  {
    var r := TrimStart(t[k..]);
    if r != [] {
      TrimStartUnchanged(r);
    } else {
      var c := t[|t| - 1];
      assert t[k..][|t| - k - 1] == c;
      assert IsJsSpace(c);
      assert TrimStart([c]) == [];
    }
  }

  // ---------------------------------------------------------------------------
  // Line conversions
  // ---------------------------------------------------------------------------

  const H2Style := "font-size: 24px; font-weight: 600; margin-top: 32px; margin-bottom: 16px; color: #1a1a1a;"
  const H3Style := "font-size: 20px; font-weight: 600; margin-top: 24px; margin-bottom: 12px; color: #2a2a2a;"
  const ParagraphStyle := "font-size: 16px; line-height: 1.6; margin-bottom: 16px; color: #374151;"
  const FooterStyle := "margin-top: 48px; padding-top: 24px; border-top: 1px solid #e5e7eb;"

  const H2Open := "<h2 style=\"" + H2Style + "\">"
  const H3Open := "<h3 style=\"" + H3Style + "\">"
  const ParagraphOpen := "<p style=\"" + ParagraphStyle + "\">"
  const Footer := "<div style=\"" + FooterStyle + "\"></div>"

  /** The horizontal-rule pass: a line that is exactly `---` becomes empty. */
  function Unruled(t: string): string { if t == "---" then "" else t }

  /** The `<h2>` pass. */
  function WithH2(t: string): string { if IsSubheadLine(t) then H2Open + Capture(t, 2) + "</h2>" else t }

  /** The `<h3>` pass. */
  function WithH3(t: string): string { if IsMinorLine(t) then H3Open + Capture(t, 3) + "</h3>" else t }

  /** One line after the three passes, in order. No rule survives. */
  function Converted(t: string): (r: string)
    ensures r != "---"
  {
    WithH3(WithH2(Unruled(t)))
  }

  /** The passes do not interfere: each line is changed by at most one of
      them, and a line none of them matches is left as it is. */
  lemma ConvertedCases(t: string)
    ensures t == "---" ==> Converted(t) == ""
    ensures IsSubheadLine(t) ==> Converted(t) == H2Open + Capture(t, 2) + "</h2>"
    ensures IsMinorLine(t) ==> Converted(t) == H3Open + Capture(t, 3) + "</h3>"
    ensures t != "---" && !IsSubheadLine(t) && !IsMinorLine(t) ==> Converted(t) == t
  {
    if t == "---" {
    } else if IsSubheadLine(t) {
      var h := H2Open + Capture(t, 2) + "</h2>";
      assert h[0] == H2Open[0] == '<';
      assert !IsMinorLine(h);
    } else if IsMinorLine(t) {
    } else {
    }
  }

  function ConvertAll(texts: seq<string>): (r: seq<string>)
    ensures |r| == |texts|
    ensures forall i :: 0 <= i < |r| ==> r[i] != "---"
  {
    seq(|texts|, i requires 0 <= i < |texts| => Converted(texts[i]))
  }

  // ---------------------------------------------------------------------------
  // Paragraphs
  // ---------------------------------------------------------------------------

  /** No two line feeds in a row. */
  ghost predicate NoBlankLine(t: string) {
    forall i, j :: 0 <= i < j < |t| && j == i + 1 ==> !(t[i] == '\n' && t[j] == '\n')
  }

  /** The text after its leading line feeds. */
  function SkipNewlines(s: string): (r: string)
    ensures |r| <= |s| && r == s[|s| - |r|..]
    ensures r == [] || r[0] != '\n'
  {
    if s != [] && s[0] == '\n' then SkipNewlines(s[1..]) else s
  }

  /** `s.split(/\n\n+/)`: the pieces between runs of two or more line
      feeds. */
  function Paragraphs(s: string): (ps: seq<string>)
    ensures |ps| >= 1 && StartsWith(s, ps[0])
    ensures forall i :: 0 <= i < |ps| ==> NoBlankLine(ps[i])
    decreases |s|
  {
    if |s| < 2 then [s]
    else if s[0] == '\n' && s[1] == '\n' then [""] + Paragraphs(SkipNewlines(s))
    else
      var rest := Paragraphs(s[1..]);
      var first := [s[0]] + rest[0];
      assert NoBlankLine(first) by {
        if |rest[0]| > 0 {
          assert rest[0][0] == s[1];
        }
      }
      [first] + rest[1..]
  }

  lemma ParagraphsSingle(b: string)
    requires NoBlankLine(b)
    ensures Paragraphs(b) == [b]
    decreases |b|
  {
    if |b| >= 2 {
      ParagraphsSingle(b[1..]);
      assert [b[0]] + b[1..] == b;
    }
  }

  /** At a run of exactly two line feeds the split cuts an empty first
      piece. */
  lemma ParagraphsAtBreak(s: string)
    requires |s| >= 2 && s[0] == '\n' && s[1] == '\n' && (|s| == 2 || s[2] != '\n')
    ensures Paragraphs(s) == [""] + Paragraphs(s[2..])
  {
    var t := s[1..];
    var u := t[1..];
    assert u == s[2..];
    assert SkipNewlines(u) == u;
    assert SkipNewlines(t) == SkipNewlines(u);
  }

  lemma {:induction false} ParagraphsCons(b: string, r: string)
    requires NoBlankLine(b) && (b == [] || b[|b| - 1] != '\n')
    requires r == [] || r[0] != '\n'
    ensures Paragraphs(b + "\n\n" + r) == [b] + Paragraphs(r)
    decreases |b|
  {
    var s := b + "\n\n" + r;
    if b == [] {
      assert s[2..] == r;
      ParagraphsAtBreak(s);
    } else {
      assert s[0] == b[0];
      if |b| >= 2 {
        assert s[1] == b[1];
      }
      assert s[1..] == b[1..] + "\n\n" + r;
      ParagraphsCons(b[1..], r);
      assert [b[0]] + b[1..] == b;
    }
  }

  /** A paragraph as the split leaves it: not empty, no line feed at either
      end and no blank line inside. */
  ghost predicate Clean(b: string) { b != [] && b[0] != '\n' && b[|b| - 1] != '\n' && NoBlankLine(b) }

  /** Splitting clean paragraphs joined by blank lines gives them back. */
  lemma {:induction false} ParagraphsJoin(bs: seq<string>)
    requires |bs| >= 1 && forall i :: 0 <= i < |bs| ==> Clean(bs[i])
    ensures Paragraphs(Join(bs, "\n\n")) == bs
  {
    if |bs| == 1 {
      ParagraphsSingle(bs[0]);
    } else {
      var rest := Join(bs[1..], "\n\n");
      ParagraphsJoin(bs[1..]);
      assert bs[1..][0] == bs[1];
      assert rest[0] == bs[1][0];
      ParagraphsCons(bs[0], rest);
    }
  }

  // ---------------------------------------------------------------------------
  // HTML
  // ---------------------------------------------------------------------------

  /** `text.replace(/\n/g, ' ')`. */
  function Spaced(t: string): (r: string)
    ensures |r| == |t| && '\n' !in r
    ensures forall i :: 0 <= i < |t| && t[i] != '\n' ==> r[i] == t[i]
  {
    if t == [] then [] else [if t[0] == '\n' then ' ' else t[0]] + Spaced(t[1..])
  }

  /** One trimmed paragraph: kept when it already starts with a tag,
      otherwise wrapped in a styled `<p>` on one line. */
  function Block(t: string): (b: string)
    requires t != []
  {
    if t[0] == '<' then t else ParagraphOpen + Spaced(t) + "</p>"
  }

  /** `filter(block => block.trim())`: the paragraphs that are not blank, in
      order. */
  function Kept(ps: seq<string>): (r: seq<string>)
    ensures |r| <= |ps|
    ensures forall p :: p in r <==> p in ps && Trim(p) != []
  {
    if ps == [] then []
    else (if Trim(ps[0]) == [] then [] else [ps[0]]) + Kept(ps[1..])
  }

  /** The blocks: each kept paragraph trimmed and rendered. */
  function Blocks(ps: seq<string>): seq<string>
  {
    var kept := Kept(ps);
    seq(|kept|, i requires 0 <= i < |kept| => Block(Trim(kept[i])))
  }

  /** The HTML after the line passes: the blocks separated by blank lines,
      then the footer. */
  function Html(s: string): (h: string)
    ensures EndsWith(h, "\n\n" + Footer)
  {
    var body := Join(Blocks(Paragraphs(s)), "\n\n");
    EndsWithAppend(body, "\n\n" + Footer);
    body + ("\n\n" + Footer)
  }

  lemma EndsWithAppend(a: string, b: string)
    ensures EndsWith(a + b, b)
  {
    assert (a + b)[|a|..] == b;
  }

  /** A block led by a tag is kept as it is; any other is wrapped in a `<p>`
      with its line feeds turned into spaces. Either way it starts with a
      tag. */
  lemma BlockCases(t: string)
    requires t != []
    ensures t[0] == '<' ==> Block(t) == t
    ensures t[0] != '<' ==> exists inner :: Block(t) == ParagraphOpen + inner + "</p>" && '\n' !in inner && |inner| == |t|
    ensures Block(t)[0] == '<'
  {
    if t[0] != '<' {
      var inner := Spaced(t);
      assert Block(t) == ParagraphOpen + inner + "</p>";
      assert Block(t)[0] == ParagraphOpen[0];
    }
  }

  // ---------------------------------------------------------------------------
  // The newsletter
  // ---------------------------------------------------------------------------

  /** The title, the subtitle if any, and the HTML body. */
  datatype Parsed = Parsed(title: string, subtitle: Option<string>, html: string)

  /** The title: the first title line's capture trimmed, or `Untitled Post`. */
  function TitleOf(l: Lines, t: Option<nat>): string
    requires t.Some? ==> t.value < |l.texts| && IsTitleLine(l.texts[t.value])
  {
    if t.Some? then Trim(Capture(l.texts[t.value], 1)) else "Untitled Post"
  }

  /** `^#\s+.+\n##\s+(.+)$` matching at line `k`: a title line, a line feed
      and a subheading line. */
  predicate SubtitleAt(l: Lines, k: nat)
    requires Sized(l)
  {
    k + 1 < |l.texts| && IsTitleLine(l.texts[k]) && l.breaks[k] == '\n' && IsSubheadLine(l.texts[k + 1])
  }

  /** The first line, from `k` on, where the subtitle pattern matches. */
  function FirstSubtitlePair(l: Lines, k: nat): (p: Option<nat>)
    requires Sized(l)
    ensures p.Some? ==> k <= p.value && SubtitleAt(l, p.value)
    ensures forall j :: k <= j && (p.None? || j < p.value) ==> !SubtitleAt(l, j)
    decreases |l.texts| - k
  {
    if k + 1 >= |l.texts| then None
    else if SubtitleAt(l, k) then Some(k)
    else FirstSubtitlePair(l, k + 1)
  }

  /** The lines with line `k` emptied, when there is one. */
  function Blanked(texts: seq<string>, k: Option<nat>): (r: seq<string>)
    ensures |r| == |texts|
    ensures forall i :: 0 <= i < |texts| ==> r[i] == (if k == Some(i) then "" else texts[i])
  {
    if k.Some? && k.value < |texts| then texts[k.value := ""] else texts
  }

  /** The subtitle pattern's first match anywhere, and the subtitle removal
      blanking the first subheading line anywhere, as written. */
  function SubtitleLineAsWritten(l: Lines): Option<nat>
    requires Sized(l)
  {
    match FirstSubtitlePair(l, 0)
    case None => None
    case Some(k) => Some(k + 1)
  }

  function SubtitleOfAsWritten(l: Lines): Option<string>
    requires Sized(l)
  {
    var s := SubtitleLineAsWritten(l);
    if s.Some? then Some(Trim(Capture(l.texts[s.value], 2))) else None
  }

  function BodyAsWritten(l: Lines): (body: seq<string>)
    requires Sized(l)
    ensures |body| == |l.texts|
  {
    var untitled := Blanked(l.texts, FirstWhere(l.texts, IsTitleLine));
    Blanked(untitled, if Truthy(SubtitleOfAsWritten(l)) then FirstWhere(untitled, IsSubheadLine) else None)
  }

  function ParseLinesAsWritten(l: Lines, inline: string -> string): Parsed
    requires Sized(l)
  {
    Parsed(TitleOf(l, FirstWhere(l.texts, IsTitleLine)), SubtitleOfAsWritten(l),
           Html(inline(Unlines(ConvertAll(BodyAsWritten(l)), l.breaks))))
  }

  /** `parseMarkdownNewsletter` as written. The bold, italic and link passes
      are `inline`. */
  function ParseAsWritten(content: string, inline: string -> string): Parsed {
    ParseLinesAsWritten(SplitLines(content), inline)
  }

  /** The subtitle's line: the line right after the title line, when a line
      feed and a subheading follow the title. */
  function SubtitleLine(l: Lines): (s: Option<nat>)
    requires Sized(l)
    ensures s.Some? ==> s.value >= 1 && FirstWhere(l.texts, IsTitleLine) == Some(s.value - 1) &&
                        SubtitleAt(l, s.value - 1)
    ensures s.None? ==> FirstWhere(l.texts, IsTitleLine).None? || !SubtitleAt(l, FirstWhere(l.texts, IsTitleLine).value)
  {
    var t := FirstWhere(l.texts, IsTitleLine);
    if t.Some? && SubtitleAt(l, t.value) then Some(t.value + 1) else None
  }

  function SubtitleOf(l: Lines): Option<string>
    requires Sized(l)
  {
    var s := SubtitleLine(l);
    if s.Some? then Some(Trim(Capture(l.texts[s.value], 2))) else None
  }

  /** The body lines: the title line and, when the subtitle is not empty, the
      subtitle line are emptied, and no other line changes. */
  function Body(l: Lines): (body: seq<string>)
    requires Sized(l)
    ensures |body| == |l.texts|
    ensures forall i :: 0 <= i < |body| ==>
      body[i] == (if FirstWhere(l.texts, IsTitleLine) == Some(i) || (Truthy(SubtitleOf(l)) && SubtitleLine(l) == Some(i))
                  then "" else l.texts[i])
  {
    var untitled := Blanked(l.texts, FirstWhere(l.texts, IsTitleLine));
    Blanked(untitled, if Truthy(SubtitleOf(l)) then SubtitleLine(l) else None)
  }

  function ParseLines(l: Lines, inline: string -> string): Parsed
    requires Sized(l)
  {
    Parsed(TitleOf(l, FirstWhere(l.texts, IsTitleLine)), SubtitleOf(l),
           Html(inline(Unlines(ConvertAll(Body(l)), l.breaks))))
  }

  /** `parseMarkdownNewsletter` with the subtitle taken only from the line
      right after the title, and that line removed. */
  function Parse(content: string, inline: string -> string): Parsed {
    ParseLines(SplitLines(content), inline)
  }

  /** A heading's capture, trimmed, is the text after the marker and its
      space, trimmed. */
  lemma HeadingText(t: string, k: nat)
    requires k + 2 <= |t| && IsJsSpace(t[k])
    ensures Trim(Capture(t, k)) == Trim(t[k + 1..])
  {
    CaptureTrim(t, k);
    var a := t[k..];
    var b := t[k + 1..];
    assert a[0] == t[k] && a[1..] == b;
    assert TrimStart(a) == TrimStart(b);
  }

  /** The title is the first title line's text, trimmed (the same with the
      subtitle tied to the title). */
  lemma ParseTitle(l: Lines, inline: string -> string, k: nat)
    requires Sized(l) && k < |l.texts| && IsTitleLine(l.texts[k])
    requires forall j :: 0 <= j < k ==> !IsTitleLine(l.texts[j])
    ensures ParseLinesAsWritten(l, inline).title == Trim(l.texts[k][2..])
    ensures ParseLines(l, inline).title == Trim(l.texts[k][2..])
  {
    assert FirstWhere(l.texts, IsTitleLine) == Some(k);
    HeadingText(l.texts[k], 1);
  }

  /** Without a title line the title is `Untitled Post`. */
  lemma ParseUntitled(l: Lines, inline: string -> string)
    requires Sized(l) && forall k :: 0 <= k < |l.texts| ==> !IsTitleLine(l.texts[k])
    ensures ParseLinesAsWritten(l, inline).title == "Untitled Post"
    ensures ParseLines(l, inline).title == "Untitled Post"
  {
  }

  /** As written, the subtitle is the subheading of the first place where a
      title line is followed by a line feed and a subheading line, trimmed. */
  lemma ParseSubtitle(l: Lines, inline: string -> string, k: nat)
    requires Sized(l) && SubtitleAt(l, k) && forall i :: 0 <= i < k ==> !SubtitleAt(l, i)
    ensures ParseLinesAsWritten(l, inline).subtitle == Some(Trim(l.texts[k + 1][3..]))
  {
    LaterPairLine(l, k);
    HeadingText(l.texts[k + 1], 2);
  }

  /** As written, there is no subtitle exactly when no title line is followed
      by a line feed and a subheading line. */
  lemma ParseNoSubtitle(l: Lines, inline: string -> string)
    requires Sized(l)
    ensures ParseLinesAsWritten(l, inline).subtitle.None? <==> forall k :: 0 <= k ==> !SubtitleAt(l, k)
  {
    if !(forall k :: 0 <= k ==> !SubtitleAt(l, k)) {
      var k :| 0 <= k && SubtitleAt(l, k);
      assert FirstSubtitlePair(l, 0).Some?;
    }
  }

  /** As intended, when the title line is followed by a line feed and a
      subheading line, the subtitle is that line's text, trimmed. */
  lemma ParseSubtitleAsIntended(l: Lines, inline: string -> string, k: nat)
    requires Sized(l) && FirstWhere(l.texts, IsTitleLine) == Some(k) && SubtitleAt(l, k)
    ensures ParseLines(l, inline).subtitle == Some(Trim(l.texts[k + 1][3..]))
  {
    assert SubtitleLine(l) == Some(k + 1);
    HeadingText(l.texts[k + 1], 2);
  }

  /** As intended, otherwise there is no subtitle. */
  lemma NoSubtitleAsIntended(l: Lines, inline: string -> string)
    requires Sized(l)
    requires FirstWhere(l.texts, IsTitleLine).None? || !SubtitleAt(l, FirstWhere(l.texts, IsTitleLine).value)
    ensures ParseLines(l, inline).subtitle.None?
  {
  }

  /** Lines that open with a title line, hold a subheading at line `j`
      that does not follow the title, and hold the first title and
      subheading pair the subtitle pattern finds at line `k`, after `j`. */
  predicate EarlySubheading(l: Lines, j: nat, k: nat)
    requires Sized(l)
  {
    0 < j <= k && k + 1 < |l.texts| && IsTitleLine(l.texts[0]) &&
    (forall i :: 0 < i < j ==> !IsSubheadLine(l.texts[i])) && IsSubheadLine(l.texts[j]) &&
    (forall i :: 0 <= i < k ==> !SubtitleAt(l, i)) && SubtitleAt(l, k) &&
    Trim(Capture(l.texts[k + 1], 2)) != ""
  }

  /** As written, the subtitle line follows the first title and subheading
      pair. */
  lemma LaterPairLine(l: Lines, k: nat)
    requires Sized(l) && SubtitleAt(l, k) && forall i :: 0 <= i < k ==> !SubtitleAt(l, i)
    ensures SubtitleLineAsWritten(l) == Some(k + 1)
    ensures SubtitleOfAsWritten(l) == Some(Trim(Capture(l.texts[k + 1], 2)))
  {
    assert FirstSubtitlePair(l, 0) == Some(k);
  }

  /** As written, the subtitle is taken from the pair at `k`. */
  lemma SubtitleFromLaterPair(l: Lines, inline: string -> string, j: nat, k: nat)
    requires Sized(l) && EarlySubheading(l, j, k)
    ensures SubtitleLineAsWritten(l) == Some(k + 1)
    ensures ParseLinesAsWritten(l, inline).subtitle == Some(Trim(Capture(l.texts[k + 1], 2)))
  {
    LaterPairLine(l, k);
  }

  /** As written, the removal empties the earlier subheading at `j` and
      leaves the subtitle's own line in the body, where it becomes a section
      heading. */
  lemma SubtitleRemovesWrongLine(l: Lines, j: nat, k: nat)
    requires Sized(l) && EarlySubheading(l, j, k)
    ensures BodyAsWritten(l)[j] == "" && BodyAsWritten(l)[k + 1] == l.texts[k + 1]
  {
    EarlySubtitle(l, j, k);
    EarlyRemoval(l, j, k);
    BodyAsWrittenBlanks(l, j);
  }

  /** As written, those lines have a subtitle that is not empty. */
  lemma EarlySubtitle(l: Lines, j: nat, k: nat)
    requires Sized(l) && EarlySubheading(l, j, k)
    ensures Truthy(SubtitleOfAsWritten(l))
  {
    LaterPairLine(l, k);
  }

  /** The title line comes first, and once it is blanked the first
      subheading line is the one at `j`. */
  lemma EarlyRemoval(l: Lines, j: nat, k: nat)
    requires Sized(l) && EarlySubheading(l, j, k)
    ensures FirstWhere(l.texts, IsTitleLine) == Some(0)
    ensures FirstWhere(Blanked(l.texts, Some(0)), IsSubheadLine) == Some(j)
  {
    FirstWhereIs(l.texts, IsTitleLine, 0);
    UntitledSubheading(l.texts, j);
  }

  /** As written, with a subtitle that is not empty, a title line first and
      the first subheading after it at `j`, the body is the lines with both
      emptied. */
  lemma BodyAsWrittenBlanks(l: Lines, j: nat)
    requires Sized(l) && Truthy(SubtitleOfAsWritten(l))
    requires FirstWhere(l.texts, IsTitleLine) == Some(0)
    requires FirstWhere(Blanked(l.texts, Some(0)), IsSubheadLine) == Some(j)
    ensures BodyAsWritten(l) == Blanked(Blanked(l.texts, Some(0)), Some(j))
  {
  }

  /** Once the title line is blanked, the first subheading line is the one
      at `j`. */
  lemma UntitledSubheading(texts: seq<string>, j: nat)
    requires 0 < j < |texts| && IsSubheadLine(texts[j])
    requires forall i :: 0 < i < j ==> !IsSubheadLine(texts[i])
    ensures FirstWhere(Blanked(texts, Some(0)), IsSubheadLine) == Some(j)
  {
    var untitled := Blanked(texts, Some(0));
    forall i | 0 <= i < j
      ensures !IsSubheadLine(untitled[i])
    {
      if i > 0 {
        assert untitled[i] == texts[i];
      }
    }
    assert untitled[j] == texts[j];
    FirstWhereIs(untitled, IsSubheadLine, j);
  }

  /** With the subtitle tied to the title, the same lines have no subtitle
      and keep the subheading at `j`. */
  lemma SubtitleKeptInPlace(l: Lines, inline: string -> string, j: nat, k: nat)
    requires Sized(l) && EarlySubheading(l, j, k)
    ensures SubtitleLine(l).None? && ParseLines(l, inline).subtitle.None?
    ensures Body(l)[j] == l.texts[j] && Body(l)[k + 1] == l.texts[k + 1]
  {
    assert FirstWhere(l.texts, IsTitleLine) == Some(0);
    assert !SubtitleAt(l, 0);
  }

  /** Title, text, subheading, title, subheading, one per line. */
  function Example(): Lines {
    Lines(["# A", "text", "## Early", "# B", "## Sub"], "\n\n\n\n")
  }

  lemma ExampleLines()
    ensures var t := Example().texts;
      IsTitleLine(t[0]) && !IsTitleLine(t[1]) && !IsTitleLine(t[2]) && IsTitleLine(t[3]) &&
      !IsSubheadLine(t[1]) && IsSubheadLine(t[2]) && IsSubheadLine(t[4])
  {
  }

  /** The example has the shape above: `## Early` is emptied and `Sub`
      becomes the subtitle while `## Sub` stays in the body. */
  lemma ExampleHasEarlySubheading()
    ensures EarlySubheading(Example(), 2, 3)
    ensures Trim(Capture(Example().texts[4], 2)) == "Sub"
  {
    var l := Example();
    ExampleLines();
    assert !SubtitleAt(l, 0) && !SubtitleAt(l, 1) && !SubtitleAt(l, 2) && SubtitleAt(l, 3);
    forall i | 0 <= i < 3
      ensures !SubtitleAt(l, i)
    {
    }
    forall i | 0 < i < 2
      ensures !IsSubheadLine(l.texts[i])
    {
      assert i == 1;
    }
    var sub := l.texts[4];
    assert sub == "## Sub" && sub[3..] == "Sub";
    HeadingText(sub, 2);
    VisibleNotSpace('S');
    VisibleNotSpace('b');
    TrimTrimmed("Sub");
  }

  // ---------------------------------------------------------------------------
  // Posting
  // ---------------------------------------------------------------------------

  /** The request body sent to the newsletter service. */
  datatype Post = Post(title: string, bodyContent: string, subtitle: Option<string>, status: string)

  /** `publishToBeehiiv`'s body: the subtitle only when it is not empty, and
      `confirmed` exactly when publishing. */
  function PostFor(n: Parsed, publish: bool): (p: Post)
    ensures p.title == n.title && p.bodyContent == n.html
    ensures p.subtitle.Some? <==> Truthy(n.subtitle)
    ensures p.subtitle.Some? ==> p.subtitle == n.subtitle
    ensures p.status == "confirmed" <==> publish
    ensures p.status == "draft" <==> !publish
  {
    Post(n.title, n.html, OrNull(n.subtitle), if publish then "confirmed" else "draft")
  }

  const Usage := "Usage: tsx scripts/publish-to-beehiiv.ts <newsletter-file> [--publish]"

  /** `main`: the first argument names the file, `--publish` anywhere asks for
      publishing; `content` is the file's text, `None` when it cannot be
      read. */
  function Publish(args: seq<string>, content: Option<string>, inline: string -> string): (r: Result<Post>)
    ensures (args == [] || args[0] == "") ==> r == Err(Usage)
    ensures r.Ok? ==> content.Some? && r.value == PostFor(ParseAsWritten(content.value, inline), "--publish" in args)
    ensures r.Ok? <==> args != [] && args[0] != "" && content.Some?
  {
    if args == [] || args[0] == "" then Err(Usage)
    else if content.None? then Err("Failed to publish")
    else Ok(PostFor(ParseAsWritten(content.value, inline), "--publish" in args))
  }
}
