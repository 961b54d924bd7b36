/** Text cut at its line breaks, as the multi-line patterns of the
    Markdown readers see it: `^` and `$` match at a line break and `.` does
    not match one. */
module TextLines {
  import opened Wrappers

  /** The characters at which `^` and `$` match in a multi-line pattern, and
      which `.` does not match. */
  predicate IsLineBreak(c: char) { c == '\n' || c == '\r' || c == '\U{2028}' || c == '\U{2029}' }

  predicate NoBreak(t: string) { forall i :: 0 <= i < |t| ==> !IsLineBreak(t[i]) }

  /** A text cut at its line breaks: one more line than breaks. */
  datatype Lines = Lines(texts: seq<string>, breaks: string)

  predicate Sized(l: Lines) { |l.texts| == |l.breaks| + 1 }

  function SplitLines(s: string): (l: Lines)
    ensures Sized(l)
    ensures forall i :: 0 <= i < |l.texts| ==> NoBreak(l.texts[i])
    ensures forall i :: 0 <= i < |l.breaks| ==> IsLineBreak(l.breaks[i])
  {
    if s == [] then Lines([""], [])
    else
      var rest := SplitLines(s[1..]);
      if IsLineBreak(s[0]) then Lines([""] + rest.texts, [s[0]] + rest.breaks)
      else Lines([[s[0]] + rest.texts[0]] + rest.texts[1..], rest.breaks)
  }

  /** The lines put back together with their breaks. */
  function Unlines(texts: seq<string>, breaks: string): string
    requires |texts| == |breaks| + 1
  {
    if breaks == [] then texts[0] else texts[0] + [breaks[0]] + Unlines(texts[1..], breaks[1..])
  }

  /** Cutting a text into lines loses nothing. */
  lemma {:induction false} UnlinesSplit(s: string)
    ensures Unlines(SplitLines(s).texts, SplitLines(s).breaks) == s
  {
    if s != [] {
      var rest := SplitLines(s[1..]);
      UnlinesSplit(s[1..]);
      var l := SplitLines(s);
      if IsLineBreak(s[0]) {
        assert l.texts[1..] == rest.texts && l.breaks[1..] == rest.breaks;
      } else if rest.breaks == [] {
        assert Unlines(l.texts, l.breaks) == [s[0]] + rest.texts[0];
      } else {
        assert l.texts[1..] == rest.texts[1..];
        assert Unlines(l.texts, l.breaks) == [s[0]] + rest.texts[0] + [rest.breaks[0]] +
          Unlines(rest.texts[1..], rest.breaks[1..]);
      }
    }
  }

  /** The first line satisfying `p`. */
  function FirstWhere(xs: seq<string>, p: string -> bool): (k: Option<nat>)
    ensures k.Some? ==> k.value < |xs| && p(xs[k.value]) && forall j :: 0 <= j < k.value ==> !p(xs[j])
    ensures k.None? ==> forall j :: 0 <= j < |xs| ==> !p(xs[j])
  {
    if xs == [] then None
    else if p(xs[0]) then Some(0)
    else
      match FirstWhere(xs[1..], p)
      case None => None
      case Some(k) => Some(k + 1)
  }

  /** The first line satisfying `p` is the one at `k` when `k` satisfies it
      and no earlier line does. */
  lemma FirstWhereIs(xs: seq<string>, p: string -> bool, k: nat)
    requires k < |xs| && p(xs[k]) && forall j :: 0 <= j < k ==> !p(xs[j])
    ensures FirstWhere(xs, p) == Some(k)
  {
  }
}
