/** `JSON.stringify` of a list of strings, as the record store uses it to fill the
    `categories` and `tags` columns, and the matching `JSON.parse` for such text. */
module JsonList {
  import opened Wrappers
  import Text

  function HexDigit(d: nat): (c: char)
    requires d < 16
  {
    if d < 10 then ('0' as int + d) as char else ('a' as int + d - 10) as char
  }

  /** The value of one hexadecimal digit, either case. */
  function HexValue(c: char): Option<nat> {
    if '0' <= c <= '9' then Some(c as int - '0' as int)
    else if 'a' <= c <= 'f' then Some(c as int - 'a' as int + 10)
    else if 'A' <= c <= 'F' then Some(c as int - 'A' as int + 10)
    else None
  }

  lemma HexRoundTrip(d: nat)
    requires d < 16
    ensures HexValue(HexDigit(d)) == Some(d)
  {
  }

  /** The escape JSON.stringify writes for one character inside a string literal. */
  function EscapeChar(c: char): (r: string)
    ensures |r| >= 1
    ensures |r| == 1 <==> (c != '"' && c != '\\' && c >= ' ')
    ensures |r| == 1 ==> r == [c]
    ensures |r| > 1 ==> r[0] == '\\'
  {
    if c == '"' then "\\\""
    else if c == '\\' then "\\\\"
    else if c == '\U{0008}' then "\\b"
    else if c == '\t' then "\\t"
    else if c == '\n' then "\\n"
    else if c == '\U{000C}' then "\\f"
    else if c == '\r' then "\\r"
    else if c < ' ' then "\\u00" + [HexDigit(c as int / 16), HexDigit(c as int % 16)]
    else [c]
  }

  function Escape(s: string): (r: string)
    ensures |r| >= |s|
  {
    if s == [] then [] else EscapeChar(s[0]) + Escape(s[1..])
  }

  /** A string that needs no escaping (no quote, backslash or control character)
      is written as it is. */
  predicate Plain(s: string) {
    forall i :: 0 <= i < |s| ==> s[i] != '"' && s[i] != '\\' && s[i] >= ' '
  }

  lemma {:induction false} EscapePlain(s: string)
    ensures Plain(s) ==> Escape(s) == s
  {
    if s != [] && Plain(s) {
      EscapePlain(s[1..]);
      assert [s[0]] + s[1..] == s;
    }
  }

  /** A JSON string literal. */
  function Quote(s: string): (r: string)
    ensures Plain(s) ==> r == "\"" + s + "\""
  {
    EscapePlain(s);
    "\"" + Escape(s) + "\""
  }

  /** The literals of a non-empty list, separated by commas. */
  function Elements(xs: seq<string>): string
    requires xs != []
  {
    if |xs| == 1 then Quote(xs[0]) else Quote(xs[0]) + "," + Elements(xs[1..])
  }

  /** `JSON.stringify(xs)` for a list of strings. */
  function Stringify(xs: seq<string>): (r: string)
    ensures |r| >= 2 && r[0] == '[' && r[|r| - 1] == ']'
  {
    if xs == [] then "[]" else "[" + Elements(xs) + "]"
  }

  /** Every element appears in the text as its own quoted literal; this is what
      a `LIKE '%"x"%'` query relies on. */
  lemma {:induction false} ElementLiteralOccurs(xs: seq<string>, i: nat)
    requires i < |xs|
    ensures Text.Contains(Stringify(xs), Quote(xs[i]))
  {
    var e := Elements(xs);
    ElementLiteralInElements(xs, i);
    Text.ContainsInMiddle("[", e, "]");
    Text.ContainsTransitive(Stringify(xs), e, Quote(xs[i]));
  }

  lemma {:induction false} ElementLiteralInElements(xs: seq<string>, i: nat)
    requires i < |xs|
    ensures Text.Contains(Elements(xs), Quote(xs[i]))
  {
    var q := Quote(xs[i]);
    if i == 0 {
      if |xs| == 1 {
        Text.ContainsInMiddle("", q, "");
        assert "" + q + "" == Elements(xs);
      } else {
        Text.ContainsInMiddle("", q, "," + Elements(xs[1..]));
        assert "" + q + ("," + Elements(xs[1..])) == Elements(xs);
      }
    } else {
      ElementLiteralInElements(xs[1..], i - 1);
      var rest := Elements(xs[1..]);
      Text.ContainsInMiddle(Quote(xs[0]) + ",", rest, "");
      assert Quote(xs[0]) + "," + rest + "" == Elements(xs);
      Text.ContainsTransitive(Elements(xs), rest, q);
    }
  }

  // ---------------------------------------------------------------------------
  // Parsing back (JSON.parse restricted to compact string arrays)
  // ---------------------------------------------------------------------------

  /** Reads the characters of a string literal up to its closing quote; returns
      the decoded text and what follows the closing quote. */
  function ReadLiteral(s: string): (r: Option<(string, string)>)
    ensures r.Some? ==> |r.value.1| < |s|
    decreases |s|
  {
    if s == [] then None
    else if s[0] == '"' then Some(("", s[1..]))
    else
      match ReadChar(s)
      case None => None
      case Some((ch, n)) =>
        match ReadLiteral(s[n..])
        case None => None
        case Some((text, rest)) => Some(([ch] + text, rest))
  }

  /** One character of a literal other than its closing quote: an escape
      sequence or a character that needs none, with the number of characters it
      takes up. A control character or an unknown escape is an error. */
  function ReadChar(s: string): (r: Option<(char, nat)>)
    requires s != []
    ensures r.Some? ==> 1 <= r.value.1 <= |s|
  {
    if s[0] == '\\' then
      if |s| < 2 then None
      else
        var e := s[1];
        if e == '"' then Some(('"', 2))
        else if e == '\\' then Some(('\\', 2))
        else if e == '/' then Some(('/', 2))
        else if e == 'b' then Some(('\U{0008}', 2))
        else if e == 't' then Some(('\t', 2))
        else if e == 'n' then Some(('\n', 2))
        else if e == 'f' then Some(('\U{000C}', 2))
        else if e == 'r' then Some(('\r', 2))
        else if e == 'u' && |s| >= 6 then
          match (HexValue(s[2]), HexValue(s[3]), HexValue(s[4]), HexValue(s[5]))
          case (Some(a), Some(b), Some(c), Some(d)) =>
            var v := 4096 * a + 256 * b + 16 * c + d;
            if v < 0xD800 then Some((v as char, 6)) else if 0xE000 <= v < 0x11_0000 then Some((v as char, 6)) else None
          case _ => None
        else None
    else if s[0] < ' ' then None
    else Some((s[0], 1))
  }

  lemma {:induction false} ReadEscaped(x: string, rest: string)
    ensures ReadLiteral(Escape(x) + "\"" + rest) == Some((x, rest))
  {
    if x == [] {
      ReadClosingQuote(rest);
    } else {
      ReadEscaped(x[1..], rest);
      ReadEscapedStep(x, rest);
    }
  }

  /** The closing quote ends a literal. */
  lemma ReadClosingQuote(rest: string)
    ensures ReadLiteral(Escape([]) + "\"" + rest) == Some(([], rest))
  {
    var s := "\"" + rest;
    assert Escape([]) + "\"" + rest == s;
    assert s[0] == '"' && s[1..] == rest;
  }

  /** Reading the escape of a first character, then the rest. */
  lemma ReadEscapedStep(x: string, rest: string)
    requires x != [] && ReadLiteral(Escape(x[1..]) + "\"" + rest) == Some((x[1..], rest))
    ensures ReadLiteral(Escape(x) + "\"" + rest) == Some((x, rest))
  {
    var tail := Escape(x[1..]) + "\"" + rest;
    ReadAfterChar(x[0], tail, x[1..], rest);
    assert Escape(x) == EscapeChar(x[0]) + Escape(x[1..]);
    Regroup(EscapeChar(x[0]), Escape(x[1..]), "\"", rest);
    assert [x[0]] + x[1..] == x;
  }

  /** A character's escape in front of a literal's remainder reads back as the
      character in front of that remainder's text. */
  lemma ReadAfterChar(c: char, tail: string, text: string, rest: string)
    requires ReadLiteral(tail) == Some((text, rest))
    ensures ReadLiteral(EscapeChar(c) + tail) == Some(([c] + text, rest))
  {
    var e := EscapeChar(c);
    ReadOne(c, tail);
    assert (e + tail)[|e|..] == tail;
  }

  lemma Regroup3(a: string, b: string, c: string)
    ensures a + b + c == a + (b + c)
  {
  }

  lemma Regroup(a: string, b: string, c: string, d: string)
    ensures a + b + c + d == a + (b + c + d)
  {
  }

  /** The escape of one character, whatever follows it, reads back as that character. */
  lemma ReadOne(c: char, tail: string)
    ensures var s := EscapeChar(c) + tail;
      s[0] != '"' && ReadChar(s) == Some((c, |EscapeChar(c)|))
  {
    var s := EscapeChar(c) + tail;
    if c == '"' || c == '\\' || c == '\U{0008}' || c == '\t' || c == '\n' || c == '\U{000C}' || c == '\r' {
      assert s[..2] == EscapeChar(c);
    } else if c < ' ' {
      HexRoundTrip(c as int / 16);
      HexRoundTrip(c as int % 16);
      assert s[..6] == "\\u00" + [HexDigit(c as int / 16), HexDigit(c as int % 16)];
      assert HexValue(s[2]) == Some(0) && HexValue(s[3]) == Some(0);
      assert HexValue(s[4]) == Some(c as int / 16);
      assert HexValue(s[5]) == Some(c as int % 16);
    } else {
      assert s[0] == c;
    }
  }

  /** Reads `"lit","lit",…]` (the part of an array after its `[`). */
  function ReadElements(s: string): (r: Option<seq<string>>)
    decreases |s|
  {
    if s == [] || s[0] != '"' then None
    else
      match ReadLiteral(s[1..])
      case None => None
      case Some((x, rest)) =>
        if rest == "]" then Some([x])
        else if rest != [] && rest[0] == ',' then
          match ReadElements(rest[1..])
          case None => None
          case Some(more) => Some([x] + more)
        else None
  }

  /** `JSON.parse(s)` for the text of a compact array of strings; `None` when the
      text is not such an array (where `JSON.parse` would throw or return
      something else). */
  function Parse(s: string): Option<seq<string>> {
    if s == "[]" then Some([])
    else if |s| >= 1 && s[0] == '[' then ReadElements(s[1..])
    else None
  }

  lemma {:induction false} ReadElementsRoundTrip(xs: seq<string>)
    requires xs != []
    ensures ReadElements(Elements(xs) + "]") == Some(xs)
  {
    if |xs| == 1 {
      ReadLast(xs[0]);
      assert Elements(xs) == Quote(xs[0]);
      assert [xs[0]] == xs;
    } else {
      ReadElementsRoundTrip(xs[1..]);
      ReadCons(xs[0], Elements(xs[1..]) + "]", xs[1..]);
      Regroup3(Quote(xs[0]) + ",", Elements(xs[1..]), "]");
      assert [xs[0]] + xs[1..] == xs;
    }
  }

  lemma ReadLast(x: string)
    ensures ReadElements(Quote(x) + "]") == Some([x])
  {
    var s := Quote(x) + "]";
    assert s[1..] == Escape(x) + "\"" + "]";
    ReadEscaped(x, "]");
  }

  lemma ReadCons(x: string, tail: string, more: seq<string>)
    requires ReadElements(tail) == Some(more)
    ensures ReadElements(Quote(x) + "," + tail) == Some([x] + more)
  {
    var rest := "," + tail;
    Regroup3(Quote(x), ",", tail);
    AfterOpeningQuote(Escape(x), rest);
    ReadEscaped(x, rest);
    assert rest[1..] == tail;
  }

  /** A literal followed by `rest` is its opening quote, then its escaped text,
      closing quote and `rest`. */
  lemma AfterOpeningQuote(e: string, rest: string)
    ensures var s := "\"" + e + "\"" + rest;
      s[0] == '"' && s[1..] == e + "\"" + rest
  {
    var s := "\"" + e + "\"" + rest;
    assert s == "\"" + (e + "\"" + rest);
  }

  /** Parsing what `Stringify` wrote gives back the list. */
  lemma ParseStringify(xs: seq<string>)
    ensures Parse(Stringify(xs)) == Some(xs)
  {
    if xs != [] {
      ReadElementsRoundTrip(xs);
      var s := Stringify(xs);
      assert s[1..] == Elements(xs) + "]";
      ElementsLength(xs);
    }
  }

  lemma {:induction false} ElementsLength(xs: seq<string>)
    requires xs != []
    ensures |Elements(xs)| >= 2
  {
    if |xs| > 1 { ElementsLength(xs[1..]); }
  }
}
