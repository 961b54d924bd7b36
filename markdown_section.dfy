/** The section editor of the anima server: find the first heading whose text
    matches a section name (ignoring case), work out where that section ends, and
    splice a paragraph in at that point; or, when no heading matches, append a new
    depth-2 heading and the paragraph.

    A parsed document is the list of its top-level blocks (the `children` of the
    remark root); headings carry their depth and their inline children. */
module MarkdownSection {
  import opened Wrappers
  import Text

  datatype Inline =
    | TextNode(value: string)
      /** any other inline node (emphasis, strong, inline code, link, ...) */
    | OtherInline(kind: string, children: seq<Inline>)

  datatype Block =
    | Heading(depth: nat, children: seq<Inline>)
    | Paragraph(children: seq<Inline>)
      /** any other block (list, code, thematic break, yaml, ...) */
    | OtherBlock(kind: string)

  datatype SectionInsertResult = SectionInsertResult(blocks: seq<Block>, sectionCreated: bool, sectionFound: bool)

  /** The paragraph node the editor creates for inserted content. */
  function ContentParagraph(content: string): Block {
    Paragraph([TextNode(content)])
  }

  /** The heading node the editor creates for a missing section. */
  function NewSectionHeading(sectionName: string): Block {
    Heading(2, [TextNode(sectionName)])
  }

  // ---------------------------------------------------------------------------
  // Heading text
  // ---------------------------------------------------------------------------

  /** `extractHeadingText`: the values of the direct `text` children, concatenated;
      every other inline child (and whatever is nested inside it) contributes nothing. */
  function HeadingText(children: seq<Inline>): string {
    if children == [] then ""
    else (if children[0].TextNode? then children[0].value else "") + HeadingText(children[1..])
  }

  lemma {:induction false} HeadingTextAppend(a: seq<Inline>, b: seq<Inline>)
    ensures HeadingText(a + b) == HeadingText(a) + HeadingText(b)
  {
    if a == [] {
      assert a + b == b;
    } else {
      assert (a + b)[0] == a[0];
      assert (a + b)[1..] == a[1..] + b;
      HeadingTextAppend(a[1..], b);
    }
  }

  /** Only `text` children count: putting any other inline node anywhere among the
      children leaves the heading text as it was. */
  lemma HeadingTextIgnoresOther(a: seq<Inline>, other: Inline, b: seq<Inline>)
    requires !other.TextNode?
    ensures HeadingText(a + [other] + b) == HeadingText(a + b)
  {
    HeadingTextAppend(a + [other], b);
    HeadingTextAppend(a, [other]);
    HeadingTextAppend(a, b);
    assert HeadingText([other]) == "";
  }

  // ---------------------------------------------------------------------------
  // Specification
  // ---------------------------------------------------------------------------

  /** A block is the target of `sectionName` when it is a heading whose text,
      lower-cased, equals the lower-cased name. */
  predicate Matches(b: Block, sectionName: string) {
    b.Heading? && Text.EqualsIgnoreCase(HeadingText(b.children), sectionName)
  }

  /** A heading at `depth` or shallower closes a section of `depth`. */
  predicate ClosesSection(b: Block, depth: nat) {
    b.Heading? && b.depth <= depth
  }

  /** The first matching heading at or after `from`. */
  function FirstMatchFrom(blocks: seq<Block>, sectionName: string, from: nat): (r: Option<nat>)
    requires from <= |blocks|
    ensures r.Some? ==> from <= r.value < |blocks| && Matches(blocks[r.value], sectionName)
    ensures r.Some? ==> forall j :: from <= j < r.value ==> !Matches(blocks[j], sectionName)
    ensures r.None? ==> forall j :: from <= j < |blocks| ==> !Matches(blocks[j], sectionName)
    decreases |blocks| - from
  {
    if from == |blocks| then None
    else if Matches(blocks[from], sectionName) then Some(from)
    else FirstMatchFrom(blocks, sectionName, from + 1)
  }

  /** The index of the target heading: the first match in document order. */
  function FirstMatch(blocks: seq<Block>, sectionName: string): (r: Option<nat>)
    ensures r.Some? ==> r.value < |blocks| && Matches(blocks[r.value], sectionName)
    ensures r.Some? ==> forall j :: 0 <= j < r.value ==> !Matches(blocks[j], sectionName)
    ensures r.None? ==> forall j :: 0 <= j < |blocks| ==> !Matches(blocks[j], sectionName)
  {
    FirstMatchFrom(blocks, sectionName, 0)
  }

  /** Where the section that starts at `start` ends: the first later index holding a
      heading of depth at most `depth`, or the block count when there is none. */
  function SectionEnd(blocks: seq<Block>, start: nat, depth: nat): (k: nat)
    requires start < |blocks|
    ensures start < k <= |blocks|
    ensures k < |blocks| ==> ClosesSection(blocks[k], depth)
    ensures forall j :: start < j < k ==> !ClosesSection(blocks[j], depth)
    decreases |blocks| - start
  {
    if start + 1 == |blocks| then |blocks|
    else if ClosesSection(blocks[start + 1], depth) then start + 1
    else SectionEnd(blocks, start + 1, depth)
  }

  /** The headings of a document, in order. */
  function Headings(blocks: seq<Block>): (hs: seq<Block>)
    ensures forall h :: h in hs ==> h.Heading?
  {
    if blocks == [] then []
    else (if blocks[0].Heading? then [blocks[0]] else []) + Headings(blocks[1..])
  }

  lemma {:induction false} HeadingsAppend(a: seq<Block>, b: seq<Block>)
    ensures Headings(a + b) == Headings(a) + Headings(b)
  {
    if a == [] {
      assert a + b == b;
    } else {
      assert (a + b)[0] == a[0];
      assert (a + b)[1..] == a[1..] + b;
      HeadingsAppend(a[1..], b);
    }
  }

  // ---------------------------------------------------------------------------
  // The tree that the editor mutates
  // ---------------------------------------------------------------------------

  /** The parsed root node; its `children` are spliced and pushed in place. */
  class Root {
    var children: seq<Block>

    constructor (blocks: seq<Block>)
      ensures children == blocks
    {
      children := blocks;
    }

    /** `children.splice(at, 0, b)`. */
    method InsertAt(at: nat, b: Block)
      requires at <= |children|
      modifies this
      ensures children == old(children)[..at] + [b] + old(children)[at..]
    {
      children := children[..at] + [b] + children[at..];
    }

    /** `children.push(a, b)`. */
    method Push2(a: Block, b: Block)
      modifies this
      ensures children == old(children) + [a, b]
    {
      children := children + [a, b];
    }
  }

  // ---------------------------------------------------------------------------
  // Operations
  // ---------------------------------------------------------------------------

  /** The `visit` over the headings of `insertIntoSection`: the flags are set on
      the first match and every later heading is skipped. */
  method FindSection(blocks: seq<Block>, sectionName: string) returns (sectionFound: bool, sectionIndex: int, sectionDepth: nat)
    ensures sectionFound <==> FirstMatch(blocks, sectionName).Some?
    ensures sectionFound ==> sectionIndex == FirstMatch(blocks, sectionName).value
    ensures sectionFound ==> sectionDepth == blocks[sectionIndex].depth
    ensures !sectionFound ==> sectionIndex == -1
  {
    sectionFound, sectionIndex, sectionDepth := false, -1, 0;
    var i := 0;
    while i < |blocks|
      invariant 0 <= i <= |blocks|
      invariant !sectionFound ==> sectionIndex == -1 && forall j :: 0 <= j < i ==> !Matches(blocks[j], sectionName)
      invariant sectionFound ==> 0 <= sectionIndex < i && Matches(blocks[sectionIndex], sectionName)
      invariant sectionFound ==> sectionDepth == blocks[sectionIndex].depth
      invariant sectionFound ==> forall j :: 0 <= j < sectionIndex ==> !Matches(blocks[j], sectionName)
    {
      var node := blocks[i];
      if node.Heading? && !sectionFound {
        if Text.Lower(HeadingText(node.children)) == Text.Lower(sectionName) {
          sectionFound := true;
          sectionIndex := i;
          sectionDepth := node.depth;
        }
      }
      i := i + 1;
    }
  }

  /** `findNextHeadingIndex`: scan forward from the target for the first heading of
      equal or shallower depth. */
  method FindNextHeadingIndex(blocks: seq<Block>, currentIndex: nat, currentDepth: nat) returns (k: nat)
    requires currentIndex < |blocks|
    ensures k == SectionEnd(blocks, currentIndex, currentDepth)
  {
    for i := currentIndex + 1 to |blocks|
      invariant forall j :: currentIndex < j < i ==> !ClosesSection(blocks[j], currentDepth)
    {
      var node := blocks[i];
      if node.Heading? && node.depth <= currentDepth {
        SectionEndIsFirst(blocks, currentIndex, currentDepth, i);
        return i;
      }
    }
    SectionEndIsFirst(blocks, currentIndex, currentDepth, |blocks|);
    k := |blocks|;
  }

  /** The section end is the only index with its two defining properties. */
  lemma SectionEndIsFirst(blocks: seq<Block>, start: nat, depth: nat, k: nat)
    requires start < k <= |blocks|
    requires k < |blocks| ==> ClosesSection(blocks[k], depth)
    requires forall j :: start < j < k ==> !ClosesSection(blocks[j], depth)
    ensures k == SectionEnd(blocks, start, depth)
  {
  }

  /** `insertIntoSection` on a parsed document. */
  method InsertIntoSection(blocks: seq<Block>, sectionName: string, content: string) returns (r: SectionInsertResult)
    ensures r.sectionFound <==> exists j :: 0 <= j < |blocks| && Matches(blocks[j], sectionName)
    ensures r.sectionCreated == !r.sectionFound
    ensures r.sectionFound ==>
      var i := FirstMatch(blocks, sectionName).value;
      var k := SectionEnd(blocks, i, blocks[i].depth);
      r.blocks == blocks[..k] + [ContentParagraph(content)] + blocks[k..]
    ensures !r.sectionFound ==>
      r.blocks == blocks + [NewSectionHeading(sectionName), ContentParagraph(content)]
  {
    var tree := new Root(blocks);
    var sectionFound, sectionIndex, sectionDepth := FindSection(tree.children, sectionName);
    if sectionFound && sectionIndex >= 0 {
      var nextHeadingIndex := FindNextHeadingIndex(tree.children, sectionIndex, sectionDepth);
      tree.InsertAt(nextHeadingIndex, ContentParagraph(content));
      r := SectionInsertResult(tree.children, false, true);
    } else {
      tree.Push2(NewSectionHeading(sectionName), ContentParagraph(content));
      r := SectionInsertResult(tree.children, true, false);
    }
  }

  /** `sectionExists`: the same visit, reporting only whether a heading matched. */
  method SectionExists(blocks: seq<Block>, sectionName: string) returns (found: bool)
    ensures found <==> exists j :: 0 <= j < |blocks| && Matches(blocks[j], sectionName)
  {
    found := false;
    var i := 0;
    while i < |blocks|
      invariant 0 <= i <= |blocks|
      invariant found <==> exists j :: 0 <= j < i && Matches(blocks[j], sectionName)
    {
      var node := blocks[i];
      if node.Heading? && !found {
        if Text.Lower(HeadingText(node.children)) == Text.Lower(sectionName) {
          found := true;
        }
      }
      i := i + 1;
    }
  }

  // ---------------------------------------------------------------------------
  // Properties of the found path
  // ---------------------------------------------------------------------------

  /** Splicing the paragraph in at the section end keeps every other block in
      place and leaves the target at its index; the new paragraph comes after the
      target and its section's content and directly before the heading that
      closes the section. */
  lemma FoundPathPlacement(blocks: seq<Block>, sectionName: string, content: string)
    requires FirstMatch(blocks, sectionName).Some?
    ensures
      var i := FirstMatch(blocks, sectionName).value;
      var k := SectionEnd(blocks, i, blocks[i].depth);
      var out := blocks[..k] + [ContentParagraph(content)] + blocks[k..];
      && |out| == |blocks| + 1
      && i < k
      && out[i] == blocks[i]
      && (forall j :: 0 <= j < k ==> out[j] == blocks[j])
      && out[k] == ContentParagraph(content)
      && (forall j :: k < j < |out| ==> out[j] == blocks[j - 1])
      && (k + 1 < |out| ==> ClosesSection(out[k + 1], blocks[i].depth))
  {
  }

  /** Inserting a paragraph changes no heading: the headings of the result, with
      their text, depth and order, are those of the input. */
  lemma {:induction false} InsertParagraphKeepsHeadings(blocks: seq<Block>, k: nat, content: string)
    requires k <= |blocks|
    ensures Headings(blocks[..k] + [ContentParagraph(content)] + blocks[k..]) == Headings(blocks)
  {
    var p := ContentParagraph(content);
    assert Headings([p]) == [] by {
      assert [p][1..] == [];
    }
    HeadingsSkipped(blocks[..k], [p], blocks[k..]);
    assert blocks[..k] + blocks[k..] == blocks;
  }

  /** Blocks without headings between two runs of blocks add no heading. */
  lemma HeadingsSkipped(a: seq<Block>, m: seq<Block>, c: seq<Block>)
    requires Headings(m) == []
    ensures Headings(a + m + c) == Headings(a + c)
  {
    assert a + m + c == a + (m + c);
    HeadingsAppend(a, m + c);
    HeadingsAppend(m, c);
    HeadingsAppend(a, c);
  }

  /** The not-found path adds exactly one heading, the new one, after all others. */
  lemma {:induction false} CreatePathAddsOneHeading(blocks: seq<Block>, sectionName: string, content: string)
    ensures Headings(blocks + [NewSectionHeading(sectionName), ContentParagraph(content)])
         == Headings(blocks) + [NewSectionHeading(sectionName)]
  {
    var h, p := NewSectionHeading(sectionName), ContentParagraph(content);
    HeadingsAppend(blocks, [h, p]);
    assert [h, p][1..] == [p];
    assert [p][1..] == [];
    assert Headings([p]) == [];
    assert Headings([h, p]) == [h] + Headings([p]);
  }

  /** Only the first of several equally named headings is ever the target. */
  lemma TargetIsEarliest(blocks: seq<Block>, sectionName: string, j: nat)
    requires j < |blocks| && Matches(blocks[j], sectionName)
    ensures FirstMatch(blocks, sectionName).Some?
    ensures FirstMatch(blocks, sectionName).value <= j
  {
  }

  /** Matching ignores case: a heading written "personal details" is the target of
      the section name "Personal Details". */
  lemma CaseInsensitiveExample()
    ensures FirstMatch([OtherBlock("yaml"), Heading(2, [TextNode("personal details")]), Paragraph([TextNode("Some info here.")])],
                       "Personal Details") == Some(1)
  {
    var doc := [OtherBlock("yaml"), Heading(2, [TextNode("personal details")]), Paragraph([TextNode("Some info here.")])];
    HeadingMatchesExample();
    assert Matches(doc[1], "Personal Details");
    assert FirstMatchFrom(doc, "Personal Details", 1) == Some(1);
  }

  lemma HeadingMatchesExample()
    ensures Matches(Heading(2, [TextNode("personal details")]), "Personal Details")
  {
    SingleTextHeading("personal details");
    LowerExample();
  }

  /** A heading made of one text node reads as that text. */
  lemma SingleTextHeading(s: string)
    ensures HeadingText([TextNode(s)]) == s
  {
    assert [TextNode(s)][1..] == [];
  }

  lemma LowerExample()
    ensures Text.Lower("Personal Details") == Text.Lower("personal details")
  {
    var lower, upper := "personal details", "Personal Details";
    var a, b := Text.Lower(lower), Text.Lower(upper);
    assert |a| == |b| == 16;
    forall i | 0 <= i < 16 ensures a[i] == b[i] {
      assert a[i] == Text.LowerChar(lower[i]);
      assert b[i] == Text.LowerChar(upper[i]);
    }
  }

  /** An empty document has no target, so the section is always created. */
  lemma EmptyDocumentCreates(sectionName: string)
    ensures FirstMatch([], sectionName).None?
  {
  }
}
