/** The HTML document tree the converter builds: elements with attributes and
    ordered children, and plain text runs. */
module HtmlTree {
  import opened Wrappers
  import opened CText
  import opened Mmd

  /** Element tags used by the converter. `NoMarkup` marks a plain text run. */
  datatype Markup =
    | NoMarkup
    | Html | Head | Title | Meta | Body
    | Blockquote | Ol | Ul | Li | H(level: HeadingLevel) | P | Pre | Hr
    | Em | Strong | Del | A | Code
    | Img | Br | Wbr

  /** A tree node. Text runs carry their text in `data`; elements carry none.
      An attribute may be set without a value (a NULL value in the library). */
  datatype Node = Node(
    markup: Markup,
    data: Option<CString>,
    attrs: map<CString, Option<CString>>,
    children: seq<Node>)

  /** A new element with no attributes and no children. */
  function Element(m: Markup): Node
  {
    Node(m, None, map[], [])
  }

  /** A new plain text run. */
  function TextNode(t: Option<CString>): Node
  {
    Node(NoMarkup, t, map[], [])
  }

  function Last(kids: seq<Node>): Node
    requires |kids| > 0
  {
    kids[|kids| - 1]
  }

  /** Elements that never hold content. */
  predicate IsVoid(m: Markup)
  {
    m == Img || m == Br || m == Wbr || m == Hr || m == Meta
  }

  /** The inline styling elements subject to run merging. */
  predicate IsInlineStyle(m: Markup)
  {
    m == Em || m == Strong || m == Del || m == A || m == Code
  }

  /** No inline styling element is immediately followed by a sibling with the
      same tag. */
  predicate NoAdjacentRuns(kids: seq<Node>)
  {
    forall i :: 0 <= i < |kids| - 1 && IsInlineStyle(kids[i].markup) ==>
      kids[i + 1].markup != kids[i].markup
  }

  /** The shape every node of a converted tree has: text runs and void
      elements are childless, elements carry no text, and sibling runs of one
      inline style have been merged, at every depth. */
  predicate NodeOk(n: Node)
    decreases n
  {
    && (n.markup == NoMarkup || IsVoid(n.markup) ==> n.children == [])
    && (n.markup != NoMarkup ==> n.data.None?)
    && ForestOk(n.children)
  }

  predicate ForestOk(kids: seq<Node>)
    decreases kids
  {
    && NoAdjacentRuns(kids)
    && forall i :: 0 <= i < |kids| ==> NodeOk(kids[i])
  }

  /** `n'` is `n` after some children were appended to it. */
  predicate GrowsFrom(n: Node, n': Node)
  {
    && n'.markup == n.markup
    && n'.data == n.data
    && n'.attrs == n.attrs
    && n.children <= n'.children
  }

  /** `kids'` is `kids` after appending siblings and, possibly, appending
      children to the last existing node; nothing else changed. */
  predicate Extends(kids: seq<Node>, kids': seq<Node>)
  {
    && |kids| <= |kids'|
    && (forall i :: 0 <= i < |kids| - 1 ==> kids'[i] == kids[i])
    && (|kids| > 0 ==> GrowsFrom(kids[|kids| - 1], kids'[|kids| - 1]))
  }

  lemma {:induction false} ExtendsTransitive(a: seq<Node>, b: seq<Node>, c: seq<Node>)
    requires Extends(a, b) && Extends(b, c)
    ensures Extends(a, c)
  {
    if |a| > 0 {
      var k := |a| - 1;
      if k < |b| - 1 {
        assert c[k] == b[k];
      }
    }
  }

  /** Appending a sibling extends a child sequence. */
  lemma {:induction false} AppendExtends(kids: seq<Node>, n: Node)
    ensures Extends(kids, kids + [n])
  {
  }

  /** Appending a well-shaped sibling keeps a child sequence well-shaped, as
      long as it does not repeat the inline style of the node before it. */
  lemma {:induction false} AppendKeepsOk(kids: seq<Node>, n: Node)
    requires ForestOk(kids) && NodeOk(n)
    requires |kids| > 0 && IsInlineStyle(Last(kids).markup) ==> n.markup != Last(kids).markup
    ensures ForestOk(kids + [n])
  {
    var r := kids + [n];
    forall i | 0 <= i < |r|
      ensures NodeOk(r[i])
    {
      if i < |kids| {
        assert r[i] == kids[i];
      }
    }
  }

  lemma {:induction false} TextNodeOk(t: Option<CString>)
    ensures NodeOk(TextNode(t))
  {
    assert ForestOk(TextNode(t).children);
  }

  /** Appending a text run to an element keeps it well-shaped. */
  lemma {:induction false} AppendTextKeepsOk(n: Node, t: Option<CString>)
    requires NodeOk(n) && n.markup != NoMarkup && !IsVoid(n.markup)
    ensures NodeOk(n.(children := n.children + [TextNode(t)]))
  {
    TextNodeOk(t);
    AppendKeepsOk(n.children, TextNode(t));
  }

  lemma {:induction false} SingletonOk(n: Node)
    requires NodeOk(n)
    ensures ForestOk([n])
  {
  }

  /** An element that may have children is well-shaped when its children are. */
  lemma {:induction false} ElementOk(m: Markup, attrs: map<CString, Option<CString>>, kids: seq<Node>)
    requires m != NoMarkup && !IsVoid(m) && ForestOk(kids)
    ensures NodeOk(Node(m, None, attrs, kids))
  {
  }

  /** Two well-shaped siblings of different kinds form a well-shaped sequence. */
  lemma {:induction false} PairOk(a: Node, b: Node)
    requires NodeOk(a) && NodeOk(b) && a.markup != b.markup
    ensures ForestOk([a, b])
  {
    assert [a, b][0] == a && [a, b][1] == b;
  }

  /** Joining two well-shaped child sequences keeps them well-shaped when the
      join does not put two runs of one inline style side by side. */
  lemma {:induction false} AppendForestsOk(a: seq<Node>, b: seq<Node>)
    requires ForestOk(a) && ForestOk(b)
    requires |a| > 0 && |b| > 0 && IsInlineStyle(Last(a).markup) ==> b[0].markup != Last(a).markup
    ensures ForestOk(a + b)
  {
    var r := a + b;
    forall i | 0 <= i < |r|
      ensures NodeOk(r[i])
    {
      if i < |a| { assert r[i] == a[i]; } else { assert r[i] == b[i - |a|]; }
    }
    forall i | 0 <= i < |r| - 1 && IsInlineStyle(r[i].markup)
      ensures r[i + 1].markup != r[i].markup
    {
      if i + 1 < |a| {
        assert r[i] == a[i] && r[i + 1] == a[i + 1];
      } else if i >= |a| {
        assert r[i] == b[i - |a|] && r[i + 1] == b[i + 1 - |a|];
      }
    }
  }
}
