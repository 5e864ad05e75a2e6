/** mdReadFile: the `html` element of a converted document, with a `head`
    built from the metadata and a `body` holding the converted content. */
module Document {
  import opened Wrappers
  import opened CText
  import opened Mmd
  import opened HtmlTree
  import opened Markdown

  /** The metadata keys mdReadFile looks up, in the order their elements are
      added to `head`. */
  const HeadKeys: seq<CString> := ["title", "author", "copyright", "version"]

  /** Position of a key in HeadKeys (4 for any other key). */
  function Rank(key: CString): nat
  {
    if key == "title" then 0
    else if key == "author" then 1
    else if key == "copyright" then 2
    else if key == "version" then 3
    else 4
  }

  predicate RankedKeys(keys: seq<CString>)
  {
    forall i, j :: 0 <= i < j < |keys| ==> Rank(keys[i]) < Rank(keys[j])
  }

  /** The keys among `keys` that the metadata has, in the order of `keys`. */
  function PresentKeys(metadata: map<CString, CString>, keys: seq<CString>): seq<CString>
    decreases |keys|
  {
    if |keys| == 0 then []
    else (if keys[0] in metadata then [keys[0]] else []) + PresentKeys(metadata, keys[1..])
  }

  /** The `head` element for one metadata entry: a `title` holding the value as
      text, or a childless `meta` with `name` and `content`. */
  predicate RendersEntry(n: Node, key: CString, value: CString)
  {
    if key == "title" then n == Node(Title, None, map[], [TextNode(Some(value))])
    else n == Node(Meta, None, map["name" := Some(key), "content" := Some(value)], [])
  }

  /** `h` holds one element per present key, in order, each rendering its
      key and value. */
  predicate DescribesKeys(h: seq<Node>, metadata: map<CString, CString>, keys: seq<CString>)
  {
    var present := PresentKeys(metadata, keys);
    && |h| == |present|
    && forall i :: 0 <= i < |h| ==> present[i] in metadata && RendersEntry(h[i], present[i], metadata[present[i]])
  }

  predicate HeadDescribes(h: seq<Node>, metadata: map<CString, CString>)
  {
    DescribesKeys(h, metadata, HeadKeys)
  }

  /** The element one metadata lookup adds to `head`, if the key is present. */
  function HeadEntry(metadata: map<CString, CString>, key: CString): seq<Node>
  {
    if key !in metadata then []
    else if key == "title" then [Node(Title, None, map[], [TextNode(Some(metadata[key]))])]
    else [Node(Meta, None, map["name" := Some(key), "content" := Some(metadata[key])], [])]
  }

  /** One lookup followed by the rest describes all the keys. */
  lemma {:induction false} HeadEntryStep(metadata: map<CString, CString>, keys: seq<CString>, rest: seq<Node>)
    requires |keys| > 0 && DescribesKeys(rest, metadata, keys[1..])
    ensures DescribesKeys(HeadEntry(metadata, keys[0]) + rest, metadata, keys)
  {
    var e := HeadEntry(metadata, keys[0]);
    var h := e + rest;
    var tail := PresentKeys(metadata, keys[1..]);
    if keys[0] in metadata {
      var present := [keys[0]] + tail;
      assert PresentKeys(metadata, keys) == present;
      forall i | 0 <= i < |h|
        ensures present[i] in metadata && RendersEntry(h[i], present[i], metadata[present[i]])
      {
        if i > 0 {
          assert h[i] == rest[i - 1] && present[i] == tail[i - 1];
        }
      }
    } else {
      assert PresentKeys(metadata, keys) == [] + tail;
      assert h == rest;
    }
  }

  /** The lookups of mdReadFile, one after the other, over `keys`. */
  function HeadEntries(metadata: map<CString, CString>, keys: seq<CString>): (h: seq<Node>)
    ensures DescribesKeys(h, metadata, keys)
    ensures ForestOk(h)
    decreases |keys|
  {
    if |keys| == 0 then []
    else
      var e := HeadEntry(metadata, keys[0]);
      var rest := HeadEntries(metadata, keys[1..]);
      HeadEntryStep(metadata, keys, rest);
      if keys[0] in metadata then
        TextNodeOk(Some(metadata[keys[0]]));
        SingletonOk(e[0]);
        AppendForestsOk(e, rest);
        e + rest
      else
        assert e + rest == rest;
        rest
  }

  /** The present keys are exactly the listed keys the metadata has. */
  lemma {:induction false} PresentKeysExact(metadata: map<CString, CString>, keys: seq<CString>)
    ensures forall k :: k in PresentKeys(metadata, keys) <==> k in keys && k in metadata
    decreases |keys|
  {
    if |keys| > 0 {
      PresentKeysExact(metadata, keys[1..]);
      assert forall k :: k in keys <==> k == keys[0] || k in keys[1..];
    }
  }

  /** Filtering keeps the order of the keys. */
  lemma {:induction false} PresentKeysRanked(metadata: map<CString, CString>, keys: seq<CString>)
    requires RankedKeys(keys)
    ensures RankedKeys(PresentKeys(metadata, keys))
    decreases |keys|
  {
    if |keys| > 0 {
      var rest := keys[1..];
      assert RankedKeys(rest) by {
        forall i, j | 0 <= i < j < |rest| ensures Rank(rest[i]) < Rank(rest[j]) {
          assert rest[i] == keys[i + 1] && rest[j] == keys[j + 1];
        }
      }
      PresentKeysRanked(metadata, rest);
      PresentKeysExact(metadata, rest);
      var p := PresentKeys(metadata, keys);
      var q := PresentKeys(metadata, rest);
      if keys[0] in metadata {
        assert p == [keys[0]] + q;
        forall i, j | 0 <= i < j < |p| ensures Rank(p[i]) < Rank(p[j]) {
          if i == 0 {
            assert p[j] == q[j - 1] && p[j] in rest;
            var m :| 0 <= m < |rest| && rest[m] == p[j];
            assert keys[m + 1] == p[j];
          } else {
            assert p[i] == q[i - 1] && p[j] == q[j - 1];
          }
        }
      } else {
        assert p == q;
      }
    }
  }

  /** The four lookups of mdReadFile: `head` has an element for exactly the
      present keys among title, author, copyright and version, in that order. */
  lemma {:induction false} HeadKeysOrdered(metadata: map<CString, CString>)
    ensures forall k :: k in PresentKeys(metadata, HeadKeys) <==> k in HeadKeys && k in metadata
    ensures RankedKeys(PresentKeys(metadata, HeadKeys))
  {
    PresentKeysExact(metadata, HeadKeys);
    PresentKeysRanked(metadata, HeadKeys);
  }

  /** The `head` children mdReadFile creates from the document metadata. */
  function HeadChildren(metadata: map<CString, CString>): (h: seq<Node>)
    ensures HeadDescribes(h, metadata)
    ensures ForestOk(h)
  {
    HeadEntries(metadata, HeadKeys)
  }

  /** The `head` element: one child per present metadata key. */
  function HeadElement(metadata: map<CString, CString>): (n: Node)
    ensures n.markup == Head && n.data == None && n.attrs == map[]
    ensures HeadDescribes(n.children, metadata)
    ensures NodeOk(n)
  {
    var h := HeadChildren(metadata);
    ElementOk(Head, map[], h);
    Node(Head, None, map[], h)
  }

  /** The `body` element: the document converted as a block. */
  function BodyElement(doc: MdNode): (n: Node)
    requires BlockReady(doc)
    ensures n.markup == Body && n.data == None && n.attrs == map[]
    ensures n.children == AddBlock([], doc)
    ensures NodeOk(n)
  {
    var content := AddBlock([], doc);
    assert ForestOk(content) by { assert ForestOk([]); }
    ElementOk(Body, map[], content);
    Node(Body, None, map[], content)
  }

  /** `html` over a well-shaped `head` and `body` is well-shaped. */
  lemma {:induction false} HtmlOk(head: Node, body: Node)
    requires NodeOk(head) && NodeOk(body) && head.markup == Head && body.markup == Body
    ensures NodeOk(Node(Html, None, map[], [head, body]))
  {
    PairOk(head, body);
    ElementOk(Html, map[], [head, body]);
  }

  /** mdReadFile: the `html` element of a converted document: a `head` built
      from the metadata, then a `body` holding the converted document. */
  function MdReadFile(doc: MdNode, metadata: map<CString, CString>): (html: Node)
    requires BlockReady(doc)
    ensures html.markup == Html && html.data == None && html.attrs == map[]
    ensures |html.children| == 2
    ensures html.children[0].markup == Head && html.children[0].attrs == map[]
    ensures HeadDescribes(html.children[0].children, metadata)
    ensures html.children[1].markup == Body && html.children[1].attrs == map[]
    ensures html.children[1].children == AddBlock([], doc)
    ensures NodeOk(html)
  {
    var head := HeadElement(metadata);
    var body := BodyElement(doc);
    HtmlOk(head, body);
    Node(Html, None, map[], [head, body])
  }
}
