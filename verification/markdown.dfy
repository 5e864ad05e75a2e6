/** The Markdown-to-HTML converter: `add_block` and `add_leaf`.
    Each converter takes the child sequence of the HTML parent it appends to
    and returns that sequence after the conversion. */
module Markdown {
  import opened Wrappers
  import opened CText
  import opened Mmd
  import opened HtmlTree
  import opened Anchor

  /** Room for node text after the leading space in add_leaf's 1024-byte
      buffer: the copy is given 1023 bytes, one of which holds the NUL. */
  const LeafBufferRoom: nat := 1022

  /** The element a block type is wrapped in, if any: always a plain
      container. Code blocks and thematic breaks are handled before this
      table is consulted. */
  function BlockMarkup(t: MdType): (r: Option<Markup>)
    ensures r.Some? ==> IsBlock(t)
    ensures r.Some? ==> !IsInlineStyle(r.value) && r.value != NoMarkup && !IsVoid(r.value)
    ensures t.Heading? <==> r.Some? && r.value.H?
    ensures t.Heading? ==> r == Some(H(t.level))
  {
    if t.BlockQuote? then Some(Blockquote)
    else if t.OrderedList? then Some(Ol)
    else if t.UnorderedList? then Some(Ul)
    else if t.ListItem? then Some(Li)
    else if t.Heading? then Some(H(t.level))
    else if t.Paragraph? then Some(P)
    else None
  }

  /** The inline element a leaf type is wrapped in, if any: always one of
      the inline styles subject to run merging. */
  function LeafMarkup(t: MdType): (r: Option<Markup>)
    ensures r.Some? ==> !IsBlock(t) && IsInlineStyle(r.value)
    ensures r == Some(A) <==> t.LinkedText?
  {
    if t.EmphasizedText? then Some(Em)
    else if t.StrongText? then Some(Strong)
    else if t.StruckText? then Some(Del)
    else if t.LinkedText? then Some(A)
    else if t.CodeText? then Some(Code)
    else None
  }

  /** Leaf types handled on their own before the generic text path. */
  predicate IsSpecialLeaf(t: MdType)
  {
    t == Image || t == HardBreak || t == SoftBreak || t == MetadataText
  }

  /** What add_leaf needs of a leaf so as not to read a NULL text: text
      wherever the whitespace prefix is copied, and text for a link whose
      target is derived from it. */
  predicate LeafReady(leaf: MdNode)
  {
    && (leaf.whitespace && !IsSpecialLeaf(leaf.kind) ==> leaf.text.Some?)
    && (leaf.kind == LinkedText && leaf.url == Some("@") ==> leaf.text.Some?)
  }

  /** A subtree add_block can convert: every leaf it hands to add_leaf is ready.
      Code blocks and thematic breaks never pass their children on. */
  predicate BlockReady(b: MdNode)
    decreases b, 0
  {
    b.kind == CodeBlock || b.kind == ThematicBreak || ChildrenReady(b.children)
  }

  predicate ChildrenReady(cs: seq<MdNode>)
    decreases cs, 2
  {
    forall i :: 0 <= i < |cs| ==> NodeReady(cs[i])
  }

  predicate NodeReady(n: MdNode)
    decreases n, 1
  {
    if IsBlock(n.kind) then BlockReady(n) else LeafReady(n)
  }

  /** The text add_leaf writes for a leaf: a leaf preceded by whitespace gets
      one leading space and as much of its text as the buffer holds. */
  function LeafText(leaf: MdNode): (r: Option<CString>)
    requires leaf.whitespace ==> leaf.text.Some?
    ensures !leaf.whitespace ==> r == leaf.text
    ensures leaf.whitespace ==> r.Some? && 1 <= |r.value| <= LeafBufferRoom + 1
    ensures leaf.whitespace ==> r.value[0] == ' ' && r.value[1..] <= leaf.text.value
    ensures leaf.whitespace && |leaf.text.value| <= LeafBufferRoom ==> r.value[1..] == leaf.text.value
    ensures leaf.whitespace && |leaf.text.value| > LeafBufferRoom ==> |r.value| == LeafBufferRoom + 1
  {
    if leaf.whitespace then Some([' '] + Truncate(leaf.text.value, LeafBufferRoom))
    else leaf.text
  }

  /** The `href` of a newly created link: the anchor of its own text when the
      target is "@", the target itself otherwise, none without a target. */
  function LinkAttrs(leaf: MdNode): (r: map<CString, Option<CString>>)
    requires leaf.url == Some("@") ==> leaf.text.Some?
    ensures leaf.url.None? ==> r == map[]
    ensures leaf.url.Some? ==> r.Keys == {"href"}
    ensures leaf.url == Some("@") ==> r["href"] == Some(MakeAnchorText(leaf.text.value))
    ensures leaf.url.Some? && leaf.url != Some("@") ==> r["href"] == leaf.url
  {
    match leaf.url
    case None => map[]
    case Some(u) =>
      if u == "@" then map["href" := Some(MakeAnchorText(leaf.text.value))]
      else map["href" := Some(u)]
  }

  /** `img` with `src` from the URL and `alt` from the text when there is one. */
  function ImageNode(leaf: MdNode): Node
  {
    var src: map<CString, Option<CString>> := map["src" := leaf.url];
    Node(Img, None, if leaf.text.Some? then src["alt" := leaf.text] else src, [])
  }

  /** Appends a new node that does not continue the run before it. */
  function Append(kids: seq<Node>, n: Node): (r: seq<Node>)
    requires NodeOk(n)
    requires |kids| > 0 && IsInlineStyle(Last(kids).markup) ==> n.markup != Last(kids).markup
    ensures r == kids + [n]
    ensures Extends(kids, r)
    ensures ForestOk(kids) ==> ForestOk(r)
  {
    AppendExtends(kids, n);
    if ForestOk(kids) then AppendKeepsOk(kids, n); kids + [n] else kids + [n]
  }

  /** Appends a text run to the last node, an inline element: the run
      continues that element instead of opening a new one. */
  function ContinueRun(kids: seq<Node>, t: Option<CString>): (r: seq<Node>)
    requires |kids| > 0 && IsInlineStyle(Last(kids).markup)
    ensures |r| == |kids| && r[..|kids| - 1] == kids[..|kids| - 1]
    ensures GrowsFrom(Last(kids), Last(r))
    ensures Last(r).children == Last(kids).children + [TextNode(t)]
    ensures Extends(kids, r)
    ensures ForestOk(kids) ==> ForestOk(r)
  {
    var text := TextNode(t);
    var last := Last(kids);
    var merged := last.(children := last.children + [text]);
    var r := kids[..|kids| - 1] + [merged];
    assert ForestOk(kids) ==> ForestOk(r) by {
      if ForestOk(kids) {
        assert NodeOk(last);
        AppendTextKeepsOk(last, t);
        assert ForestOk(kids[..|kids| - 1]) by {
          var p := kids[..|kids| - 1];
          forall i | 0 <= i < |p| ensures NodeOk(p[i]) { assert p[i] == kids[i]; }
        }
        AppendKeepsOk(kids[..|kids| - 1], merged);
      }
    }
    r
  }

  /** Appends a new inline element holding one text run. */
  function OpenRun(kids: seq<Node>, tag: Markup, attrs: map<CString, Option<CString>>, t: Option<CString>)
    : (r: seq<Node>)
    requires IsInlineStyle(tag)
    requires |kids| > 0 ==> Last(kids).markup != tag
    ensures r == kids + [Node(tag, None, attrs, [TextNode(t)])]
    ensures Extends(kids, r)
    ensures ForestOk(kids) ==> ForestOk(r)
  {
    TextNodeOk(t);
    SingletonOk(TextNode(t));
    Append(kids, Node(tag, None, attrs, [TextNode(t)]))
  }

  /** The image case of add_leaf: an optional space, then one childless `img`. */
  function AddImage(kids: seq<Node>, leaf: MdNode): (r: seq<Node>)
    ensures Extends(kids, r)
    ensures ForestOk(kids) ==> ForestOk(r)
    ensures var n := |kids| + (if leaf.whitespace then 1 else 0);
      && |r| == n + 1
      && r[..|kids|] == kids
      && (leaf.whitespace ==> r[|kids|] == TextNode(Some(" ")))
      && r[n].markup == Img && r[n].children == []
      && "src" in r[n].attrs && r[n].attrs["src"] == leaf.url
      && ("alt" in r[n].attrs <==> leaf.text.Some?)
      && ("alt" in r[n].attrs ==> r[n].attrs["alt"] == leaf.text)
      && r[n].attrs.Keys <= {"src", "alt"}
  {
    TextNodeOk(Some(" "));
    var spaced := if leaf.whitespace then Append(kids, TextNode(Some(" "))) else kids;
    var r := Append(spaced, ImageNode(leaf));
    ExtendsTransitive(kids, spaced, r);
    r
  }

  /** The text path of add_leaf: a styled leaf continues the parent's last
      child when that child has its style and opens a new element otherwise;
      an unstyled leaf goes straight into the parent. */
  function AddInline(kids: seq<Node>, leaf: MdNode): (r: seq<Node>)
    requires leaf.whitespace ==> leaf.text.Some?
    requires leaf.kind == LinkedText && leaf.url == Some("@") ==> leaf.text.Some?
    ensures Extends(kids, r)
    ensures ForestOk(kids) ==> ForestOk(r)
    // Unstyled text is appended to the parent itself.
    ensures LeafMarkup(leaf.kind).None? ==> r == kids + [TextNode(LeafText(leaf))]
    // After an element of its own style: no new element, one more text run in that one.
    ensures LeafMarkup(leaf.kind).Some? && |kids| > 0 && Last(kids).markup == LeafMarkup(leaf.kind).value ==>
      && |r| == |kids|
      && r[..|kids| - 1] == kids[..|kids| - 1]
      && GrowsFrom(Last(kids), Last(r))
      && Last(r).children == Last(kids).children + [TextNode(LeafText(leaf))]
    // Otherwise exactly one new element of its style, holding the text run.
    ensures LeafMarkup(leaf.kind).Some? && (|kids| == 0 || Last(kids).markup != LeafMarkup(leaf.kind).value) ==>
      && |r| == |kids| + 1
      && r[..|kids|] == kids
      && Last(r).markup == LeafMarkup(leaf.kind).value
      && Last(r).data == None
      && Last(r).children == [TextNode(LeafText(leaf))]
      && Last(r).attrs == (if leaf.kind == LinkedText then LinkAttrs(leaf) else map[])
  {
    var text := TextNode(LeafText(leaf));
    TextNodeOk(text.data);
    match LeafMarkup(leaf.kind)
    case None => Append(kids, text)
    case Some(tag) =>
      if |kids| > 0 && Last(kids).markup == tag then
        ContinueRun(kids, text.data)
      else
        OpenRun(kids, tag, if tag == A then LinkAttrs(leaf) else map[], text.data)
  }

  /** add_leaf: append the HTML form of one inline node. */
  function AddLeaf(kids: seq<Node>, leaf: MdNode): (r: seq<Node>)
    requires LeafReady(leaf)
    ensures Extends(kids, r)
    ensures ForestOk(kids) ==> ForestOk(r)
    // Breaks: one childless `br` or `wbr`.
    ensures leaf.kind == HardBreak ==> r == kids + [Element(Br)]
    ensures leaf.kind == SoftBreak ==> r == kids + [Element(Wbr)]
    // Metadata text is not rendered.
    ensures leaf.kind == MetadataText ==> r == kids
    // Images and text leaves take their own paths.
    ensures leaf.kind == Image ==> r == AddImage(kids, leaf)
    ensures !IsSpecialLeaf(leaf.kind) ==> r == AddInline(kids, leaf)
  {
    if leaf.kind == Image then AddImage(kids, leaf)
    else if leaf.kind == HardBreak then Append(kids, Element(Br))
    else if leaf.kind == SoftBreak then Append(kids, Element(Wbr))
    else if leaf.kind == MetadataText then kids
    else AddInline(kids, leaf)
  }

  /** The `pre` of a code block: each child's raw text, in order, as text. */
  function CodeLines(cs: seq<MdNode>): (r: seq<Node>)
    ensures ForestOk(r)
  {
    var r := seq(|cs|, i requires 0 <= i < |cs| => TextNode(cs[i].text));
    forall i | 0 <= i < |r| ensures NodeOk(r[i]) { TextNodeOk(cs[i].text); }
    r
  }

  /** The code block case of add_block: one `pre` holding the raw text of
      each child, in order, and nothing else. */
  function AddCodeBlock(kids: seq<Node>, b: MdNode): (r: seq<Node>)
    ensures Extends(kids, r)
    ensures ForestOk(kids) ==> ForestOk(r)
    ensures |r| == |kids| + 1 && r[..|kids|] == kids
    ensures Last(r).markup == Pre && Last(r).data == None && Last(r).attrs == map[]
    ensures |Last(r).children| == |b.children|
    ensures forall i :: 0 <= i < |b.children| ==> Last(r).children[i] == TextNode(b.children[i].text)
  {
    Append(kids, Node(Pre, None, map[], CodeLines(b.children)))
  }

  /** Appends a new block element holding `inner`. */
  function Wrap(kids: seq<Node>, tag: Markup, inner: seq<Node>): (r: seq<Node>)
    requires !IsInlineStyle(tag) && tag != NoMarkup && !IsVoid(tag)
    requires ForestOk(inner)
    ensures r == kids + [Node(tag, None, map[], inner)]
    ensures Extends(kids, r)
    ensures ForestOk(kids) ==> ForestOk(r)
  {
    Append(kids, Node(tag, None, map[], inner))
  }

  /** The generic path of add_block for a block type with an element other
      than a heading: one new element of that tag holding the converted
      children. */
  function AddWrapped(kids: seq<Node>, b: MdNode, tag: Markup): (r: seq<Node>)
    requires BlockMarkup(b.kind) == Some(tag) && !b.kind.Heading?
    requires ChildrenReady(b.children)
    ensures Extends(kids, r)
    ensures ForestOk(kids) ==> ForestOk(r)
    ensures |r| == |kids| + 1 && r[..|kids|] == kids
    ensures Last(r).markup == tag && Last(r).data == None && Last(r).attrs == map[]
    ensures Last(r).children == AddChildren([], b.children)
    decreases b, 0
  {
    Wrap(kids, tag, AddChildren([], b.children))
  }

  /** The heading path of add_block: one `hN` element holding exactly one `a`
      whose `id` is the heading's anchor; the converted children go into the
      `a`. */
  function AddHeading(kids: seq<Node>, b: MdNode): (r: seq<Node>)
    requires b.kind.Heading?
    requires ChildrenReady(b.children)
    ensures Extends(kids, r)
    ensures ForestOk(kids) ==> ForestOk(r)
    ensures |r| == |kids| + 1 && r[..|kids|] == kids
    ensures Last(r).markup == H(b.kind.level) && Last(r).data == None && Last(r).attrs == map[]
    ensures |Last(r).children| == 1
    ensures Last(r).children[0].markup == A && Last(r).children[0].data == None
    ensures Last(r).children[0].attrs == map["id" := Some(MakeAnchorBlock(b))]
    ensures Last(r).children[0].children == AddChildren([], b.children)
    decreases b, 0
  {
    var anchor := Node(A, None, map["id" := Some(MakeAnchorBlock(b))], AddChildren([], b.children));
    SingletonOk(anchor);
    var r := Wrap(kids, H(b.kind.level), [anchor]);
    assert Last(r) == Node(H(b.kind.level), None, map[], [anchor]);
    r
  }

  /** add_block: append the HTML form of one block and, recursively, all of
      its descendants. */
  function AddBlock(kids: seq<Node>, b: MdNode): (r: seq<Node>)
    requires BlockReady(b)
    ensures Extends(kids, r)
    ensures ForestOk(kids) ==> ForestOk(r)
    // A thematic break becomes one childless `hr`.
    ensures b.kind == ThematicBreak ==> r == kids + [Element(Hr)]
    // A block type without an element adds no wrapper: its children are
    // converted straight into the parent.
    ensures b.kind != CodeBlock && b.kind != ThematicBreak && BlockMarkup(b.kind).None? ==>
      r == AddChildren(kids, b.children)
    // Code blocks, headings and the other tagged blocks take their own paths.
    ensures b.kind == CodeBlock ==> r == AddCodeBlock(kids, b)
    ensures b.kind.Heading? ==> r == AddHeading(kids, b)
    ensures b.kind != CodeBlock && b.kind != ThematicBreak && BlockMarkup(b.kind).Some? && !b.kind.Heading? ==>
      r == AddWrapped(kids, b, BlockMarkup(b.kind).value)
    decreases b, 1
  {
    if b.kind == CodeBlock then AddCodeBlock(kids, b)
    else if b.kind == ThematicBreak then Append(kids, Element(Hr))
    else
      match BlockMarkup(b.kind)
      case None => AddChildren(kids, b.children)
      case Some(tag) => if b.kind.Heading? then AddHeading(kids, b) else AddWrapped(kids, b, tag)
  }

  /** The child loop of add_block: convert each child in source order, blocks
      by add_block and everything else by add_leaf. */
  function AddChildren(kids: seq<Node>, cs: seq<MdNode>): (r: seq<Node>)
    requires ChildrenReady(cs)
    ensures Extends(kids, r)
    ensures ForestOk(kids) ==> ForestOk(r)
    // No children, no change; a single child is converted by add_block when
    // it is a block and by add_leaf otherwise.
    ensures |cs| == 0 ==> r == kids
    ensures |cs| == 1 ==>
      && NodeReady(cs[0])
      && r == (if IsBlock(cs[0].kind) then AddBlock(kids, cs[0]) else AddLeaf(kids, cs[0]))
    decreases cs
  {
    if |cs| == 0 then kids
    else
      assert NodeReady(cs[0]);
      var next := if IsBlock(cs[0].kind) then AddBlock(kids, cs[0]) else AddLeaf(kids, cs[0]);
      var r := AddChildren(next, cs[1..]);
      ExtendsTransitive(kids, next, r);
      r
  }
}
