/** Properties of the converter that relate several calls. */
module MarkdownProofs {
  import opened Wrappers
  import opened CText
  import opened Mmd
  import opened HtmlTree
  import opened Anchor
  import opened Markdown

  /** Converting the children `a + b` is converting `a`, then `b`, in order. */
  lemma {:induction false} ChildrenInOrder(kids: seq<Node>, a: seq<MdNode>, b: seq<MdNode>)
    requires ChildrenReady(a + b)
    ensures ChildrenReady(a) && ChildrenReady(b)
    ensures AddChildren(kids, a + b) == AddChildren(AddChildren(kids, a), b)
    decreases |a|
  {
    assert forall i :: 0 <= i < |a| ==> a[i] == (a + b)[i];
    assert forall i :: 0 <= i < |b| ==> b[i] == (a + b)[|a| + i];
    if |a| == 0 {
      assert a + b == b;
    } else {
      assert (a + b)[0] == a[0];
      assert (a + b)[1..] == a[1..] + b;
      assert NodeReady(a[0]);
      var next := if IsBlock(a[0].kind) then AddBlock(kids, a[0]) else AddLeaf(kids, a[0]);
      ChildrenInOrder(next, a[1..], b);
    }
  }

  /** Converting a leaf and then the children after it. */
  lemma {:induction false} LeafStep(kids: seq<Node>, l: MdNode, rest: seq<MdNode>)
    requires !IsBlock(l.kind) && LeafReady(l) && ChildrenReady(rest)
    ensures ChildrenReady([l] + rest)
    ensures AddChildren(kids, [l] + rest) == AddChildren(AddLeaf(kids, l), rest)
  {
    var cs := [l] + rest;
    assert cs[0] == l && cs[1..] == rest;
    assert forall i :: 1 <= i < |cs| ==> cs[i] == rest[i - 1];
  }

  /** Converting two leaves is converting them one after the other. */
  lemma {:induction false} TwoLeaves(kids: seq<Node>, a: MdNode, b: MdNode)
    requires !IsBlock(a.kind) && !IsBlock(b.kind) && LeafReady(a) && LeafReady(b)
    ensures ChildrenReady([a, b])
    ensures AddChildren(kids, [a, b]) == AddLeaf(AddLeaf(kids, a), b)
  {
    var s1 := AddLeaf(kids, a);
    LeafStep(s1, b, []);
    assert [b] + [] == [b];
    LeafStep(kids, a, [b]);
    assert [a] + [b] == [a, b];
  }

  /** Two consecutive leaves of one inline style under a parent whose last
      child has another style become a single element holding both texts; the
      second leaf adds no attribute. */
  lemma {:induction false} StyledLeavesMerge(kids: seq<Node>, l1: MdNode, l2: MdNode)
    requires LeafMarkup(l1.kind).Some? && l2.kind == l1.kind
    requires LeafReady(l1) && LeafReady(l2)
    requires |kids| == 0 || Last(kids).markup != LeafMarkup(l1.kind).value
    ensures var r := AddChildren(kids, [l1, l2]);
      && |r| == |kids| + 1
      && r[..|kids|] == kids
      && Last(r).markup == LeafMarkup(l1.kind).value
      && Last(r).children == [TextNode(LeafText(l1)), TextNode(LeafText(l2))]
      && Last(r).attrs == Last(AddLeaf(kids, l1)).attrs
  {
    var s1 := AddLeaf(kids, l1);
    OpenStep(kids, l1);
    var s2 := AddLeaf(s1, l2);
    MergeStep(s1, l2);
    TwoLeaves(kids, l1, l2);
    assert s2[..|kids|] == s1[..|kids|];
  }

  /** A consequence of merging: two adjacent links become one `a`, and the
      second link's target is not kept. */
  lemma {:induction false} AdjacentLinksKeepFirstTarget(kids: seq<Node>, l1: MdNode, l2: MdNode, u1: CString, u2: CString)
    requires l1.kind == LinkedText && l2.kind == LinkedText
    requires l1.url == Some(u1) && u1 != "@" && l2.url == Some(u2)
    requires LeafReady(l1) && LeafReady(l2)
    requires |kids| == 0 || Last(kids).markup != A
    ensures var r := AddChildren(kids, [l1, l2]);
      && |r| == |kids| + 1
      && Last(r).markup == A
      && Last(r).attrs == map["href" := Some(u1)]
  {
    StyledLeavesMerge(kids, l1, l2);
  }

  /** Merging only joins a leaf to the immediately preceding sibling: a plain
      text run between two leaves of one style keeps them apart. */
  lemma {:induction false} RunsMergeOnlyWhenAdjacent(kids: seq<Node>, l1: MdNode, p: MdNode, l2: MdNode)
    requires LeafMarkup(l1.kind).Some? && l2.kind == l1.kind
    requires p.kind == NormalText
    requires LeafReady(l1) && LeafReady(p) && LeafReady(l2)
    requires |kids| == 0 || Last(kids).markup != LeafMarkup(l1.kind).value
    ensures var r := AddChildren(kids, [l1, p, l2]);
      && |r| == |kids| + 3
      && r[|kids|].markup == LeafMarkup(l1.kind).value
      && r[|kids| + 1] == TextNode(LeafText(p))
      && r[|kids| + 2].markup == LeafMarkup(l1.kind).value
  {
    var s1 := AddLeaf(kids, l1);
    OpenStep(kids, l1);
    var s2 := AddLeaf(s1, p);
    PlainStep(s1, p);
    var s3 := AddLeaf(s2, l2);
    OpenStep(s2, l2);
    ThreeLeaves(kids, l1, p, l2);
    assert s3[|kids|] == s2[|kids|] == s1[|kids|];
    assert s3[|kids| + 1] == s2[|kids| + 1];
  }

  /** Converting three leaves is converting them one after the other. */
  lemma {:induction false} ThreeLeaves(kids: seq<Node>, a: MdNode, b: MdNode, c: MdNode)
    requires !IsBlock(a.kind) && !IsBlock(b.kind) && !IsBlock(c.kind)
    requires LeafReady(a) && LeafReady(b) && LeafReady(c)
    ensures ChildrenReady([a, b, c])
    ensures AddChildren(kids, [a, b, c]) == AddLeaf(AddLeaf(AddLeaf(kids, a), b), c)
  {
    var s1 := AddLeaf(kids, a);
    var s2 := AddLeaf(s1, b);
    LeafStep(s2, c, []);
    assert [c] + [] == [c];
    LeafStep(s1, b, [c]);
    assert [b] + [c] == [b, c];
    LeafStep(kids, a, [b, c]);
    assert [a] + [b, c] == [a, b, c];
  }

  /** A leaf with an inline style takes the run path of add_leaf. */
  lemma {:induction false} StyledLeaf(kids: seq<Node>, l: MdNode)
    requires LeafMarkup(l.kind).Some? && LeafReady(l)
    ensures AddLeaf(kids, l) == AddInline(kids, l)
  {
    assert !IsSpecialLeaf(l.kind);
  }

  /** A styled leaf after a sibling of another kind opens a new element. */
  lemma {:induction false} OpenStep(kids: seq<Node>, l: MdNode)
    requires LeafMarkup(l.kind).Some? && LeafReady(l)
    requires |kids| == 0 || Last(kids).markup != LeafMarkup(l.kind).value
    ensures var r := AddLeaf(kids, l);
      && |r| == |kids| + 1 && r[..|kids|] == kids
      && Last(r).markup == LeafMarkup(l.kind).value
      && Last(r).children == [TextNode(LeafText(l))]
      && Last(r).attrs == (if l.kind == LinkedText then LinkAttrs(l) else map[])
  {
    StyledLeaf(kids, l);
  }

  /** A styled leaf after a sibling of its own style joins that sibling. */
  lemma {:induction false} MergeStep(kids: seq<Node>, l: MdNode)
    requires LeafMarkup(l.kind).Some? && LeafReady(l)
    requires |kids| > 0 && Last(kids).markup == LeafMarkup(l.kind).value
    ensures var r := AddLeaf(kids, l);
      && |r| == |kids| && r[..|kids| - 1] == kids[..|kids| - 1]
      && GrowsFrom(Last(kids), Last(r))
      && Last(r).children == Last(kids).children + [TextNode(LeafText(l))]
  {
    StyledLeaf(kids, l);
  }

  /** Plain text is appended as a run of its own. */
  lemma {:induction false} PlainStep(kids: seq<Node>, p: MdNode)
    requires p.kind == NormalText && LeafReady(p)
    ensures AddLeaf(kids, p) == kids + [TextNode(LeafText(p))]
  {
    assert AddLeaf(kids, p) == AddInline(kids, p);
  }

  // ----- Two words -----

  function Word(kind: MdType, text: CString, ws: bool): MdNode
  {
    MdNode(kind, Some(text), None, ws, [])
  }

  /** The anchor of two words separated by a space: each word transliterated,
      with '-' between them, when the buffer has room for all of it. */
  lemma {:induction false} TwoWordAnchor(w1: CString, w2: CString)
    requires |w1| + 1 + |w2| <= Capacity
    ensures MakeAnchorText(w1 + " " + w2) == Transliterate(w1) + "-" + Transliterate(w2)
  {
    var space: CString := " ";
    var t := Transliterate(w1 + space + w2);
    assert t == Transliterate(w1) + "-" + Transliterate(w2) by {
      TransliterateAppend(w1 + space, w2);
      TransliterateAppend(w1, space);
      assert Transliterate(space) == Translit(' ') + Transliterate([]);
    }
    assert |t| <= Capacity by {
      TransliterateNoLonger(w1);
      TransliterateNoLonger(w2);
    }
  }

  /** A heading of two plain words, the second preceded by whitespace. */
  function TwoWordHeading(level: HeadingLevel, w1: CString, w2: CString): MdNode
  {
    MdNode(Heading(level), None, None, false, [Word(NormalText, w1, false), Word(NormalText, w2, true)])
  }

  lemma {:induction false} TwoWordHeadingText(level: HeadingLevel, w1: CString, w2: CString)
    ensures SpacedText(TwoWordHeading(level, w1, w2).children) == w1 + " " + w2
  {
    var cs := TwoWordHeading(level, w1, w2).children;
    assert cs[1..] == [cs[1]];
    assert [cs[1]][1..] == [];
    assert SpacedText([cs[1]]) == [' '] + w2 + SpacedText([]);
    assert SpacedText(cs) == [] + w1 + SpacedText([cs[1]]);
  }

  /** The heading's anchor joins the transliterated words with '-'. */
  lemma {:induction false} TwoWordHeadingAnchor(level: HeadingLevel, w1: CString, w2: CString)
    requires |w1| + 1 + |w2| <= Capacity
    ensures MakeAnchorBlock(TwoWordHeading(level, w1, w2)) == Transliterate(w1) + "-" + Transliterate(w2)
  {
    AnchorBlockIsAnchorText(TwoWordHeading(level, w1, w2));
    TwoWordHeadingText(level, w1, w2);
    TwoWordAnchor(w1, w2);
  }

  /** The heading's content: the second word keeps its leading space. */
  lemma {:induction false} TwoWordHeadingContent(level: HeadingLevel, w1: CString, w2: CString)
    requires |w2| <= LeafBufferRoom
    ensures AddChildren([], TwoWordHeading(level, w1, w2).children)
         == [TextNode(Some(w1)), TextNode(Some(" " + w2))]
  {
    var a := Word(NormalText, w1, false);
    var b := Word(NormalText, w2, true);
    var s1 := AddLeaf([], a);
    PlainStep([], a);
    var s2 := AddLeaf(s1, b);
    PlainStep(s1, b);
    assert LeafText(b) == Some(" " + w2);
    LeafStep(s1, b, []);
    LeafStep([], a, [b]);
    assert [a] + [b] == TwoWordHeading(level, w1, w2).children;
    assert [b] + [] == [b];
  }

  /** A two-word heading becomes one `hN` holding one `a` around both words,
      identified by the words transliterated and joined with '-'. */
  lemma {:induction false} TwoWordHeadingExample(level: HeadingLevel, w1: CString, w2: CString)
    requires |w1| + 1 + |w2| <= Capacity
    ensures AddBlock([], TwoWordHeading(level, w1, w2)) == [Node(H(level), None, map[], [
              Node(A, None, map["id" := Some(Transliterate(w1) + "-" + Transliterate(w2))],
                   [TextNode(Some(w1)), TextNode(Some(" " + w2))])])]
  {
    var b := TwoWordHeading(level, w1, w2);
    var content := [TextNode(Some(w1)), TextNode(Some(" " + w2))];
    var id := Transliterate(w1) + "-" + Transliterate(w2);
    TwoWordHeadingAnchor(level, w1, w2);
    TwoWordHeadingContent(level, w1, w2);
    var r := AddHeading([], b);
    var a := Last(r).children[0];
    assert a == Node(A, None, map["id" := Some(id)], content);
    assert Last(r) == Node(H(level), None, map[], [a]);
    assert r == [Last(r)];
  }

  /** A link whose target is "@" and whose text is two words points at those
      words transliterated and joined with '-'. */
  lemma {:induction false} SelfAnchorExample(w1: CString, w2: CString)
    requires |w1| + 1 + |w2| <= Capacity
    ensures AddLeaf([], MdNode(LinkedText, Some(w1 + " " + w2), Some("@"), false, []))
         == [Node(A, None, map["href" := Some(Transliterate(w1) + "-" + Transliterate(w2))],
                  [TextNode(Some(w1 + " " + w2))])]
  {
    TwoWordAnchor(w1, w2);
    var leaf := MdNode(LinkedText, Some(w1 + " " + w2), Some("@"), false, []);
    OpenStep([], leaf);
    assert LinkAttrs(leaf) == map["href" := Some(Transliterate(w1) + "-" + Transliterate(w2))];
  }
}
