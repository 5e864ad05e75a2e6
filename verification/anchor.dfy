/** The two `make_anchor` overloads: anchor identifiers ("slugs") for
    headings and for self-anchoring links. */
module Anchor {
  import opened Wrappers
  import opened CText
  import opened Mmd

  /** Room in the 1024-byte anchor buffer; the last byte holds the NUL. */
  const Capacity: nat := 1023

  predicate IsAsciiAlnum(c: char)
  {
    ('0' <= c <= '9') || ('a' <= c <= 'z') || ('A' <= c <= 'Z')
  }

  /** The characters an anchor is made of. */
  predicate IsAnchorChar(c: char)
  {
    ('0' <= c <= '9') || ('a' <= c <= 'z') || c == '.' || c == '-'
  }

  predicate IsAnchor(s: CString)
  {
    forall i :: 0 <= i < |s| ==> IsAnchorChar(s[i])
  }

  /** ASCII `tolower`: only letters, digits, '.' and '-' ever reach it, and
      it leaves '.' and '-' unchanged. */
  function Lower(c: CChar): CChar
  {
    if 'A' <= c <= 'Z' then (c as int + 32) as char else c
  }

  /** What one input character contributes to an anchor: letters and digits
      lowercased, '.' and '-' kept, a space turned into '-', all else dropped. */
  function Translit(c: CChar): CString
  {
    if IsAsciiAlnum(c) || c == '.' || c == '-' then [Lower(c)]
    else if c == ' ' then ['-']
    else []
  }

  /** Reference definition: the transliteration of a whole string, with an
      unbounded buffer. */
  function Transliterate(s: CString): CString
    decreases |s|
  {
    if |s| == 0 then [] else Translit(s[0]) + Transliterate(s[1..])
  }

  /** What survives in the anchor buffer: writing stops once it is full. */
  function Cap(s: CString): CString
  {
    Truncate(s, Capacity)
  }

  /** Filling the buffer past its end changes nothing. */
  lemma {:induction false} CapAbsorbs(a: CString, b: CString)
    ensures Cap(Cap(a) + b) == Cap(a + b)
  {
    if |a| > Capacity {
      assert Cap(a) + b == a[..Capacity] + b;
      assert (a[..Capacity] + b)[..Capacity] == a[..Capacity];
      assert (a + b)[..Capacity] == a[..Capacity];
    }
  }

  /** The character loop of `make_anchor`: `out` is what the buffer holds so
      far; characters of `text` are consumed while the buffer has room. */
  function FillText(text: CString, out: CString): (r: CString)
    requires |out| <= Capacity
    ensures r == Cap(out + Transliterate(text))
    decreases |text|
  {
    if |text| == 0 then
      assert out + Transliterate(text) == out;
      out
    else if |out| == Capacity then
      assert (out + Transliterate(text))[..Capacity] == out;
      out
    else
      var r := FillText(text[1..], out + Translit(text[0]));
      assert out + Translit(text[0]) + Transliterate(text[1..]) == out + Transliterate(text);
      r
  }

  /** `make_anchor(text)`: the anchor for a link whose target is "@". */
  function MakeAnchorText(text: CString): (r: CString)
    ensures r == Cap(Transliterate(text))
    ensures |r| <= Capacity
    ensures |r| == if |Transliterate(text)| <= Capacity then |Transliterate(text)| else Capacity
  {
    assert [] + Transliterate(text) == Transliterate(text);
    FillText(text, [])
  }

  /** A child's text as the slug loop reads it: a NULL text contributes nothing. */
  function TextOf(n: MdNode): CString
  {
    match n.text
    case Some(t) => t
    case None => []
  }

  /** The '-' written before a child that was preceded by whitespace. */
  function Separator(n: MdNode): CString
  {
    if n.whitespace then ['-'] else []
  }

  /** Reference definition: what the block overload writes with an unbounded
      buffer, over the direct children in order. */
  function BlockStream(cs: seq<MdNode>): CString
    decreases |cs|
  {
    if |cs| == 0 then [] else Separator(cs[0]) + Transliterate(TextOf(cs[0])) + BlockStream(cs[1..])
  }

  /** One pass of the child loop of `make_anchor(block)`: the separator, then
      the child's text, each written only while the buffer has room. */
  function FillChild(node: MdNode, out: CString): (r: CString)
    requires |out| <= Capacity
    ensures r == Cap(out + Separator(node) + Transliterate(TextOf(node)))
  {
    var sep := if node.whitespace && |out| < Capacity then out + ['-'] else out;
    assert sep == Cap(out + Separator(node)) by {
      if node.whitespace && |out| == Capacity {
        assert (out + ['-'])[..Capacity] == out;
      }
    }
    CapAbsorbs(out + Separator(node), Transliterate(TextOf(node)));
    match node.text
    case Some(t) => FillText(t, sep)
    case None =>
      assert out + Separator(node) + Transliterate(TextOf(node)) == out + Separator(node);
      sep
  }

  /** Filling one child and then the rest is filling all of them. */
  lemma {:induction false} BlockStreamStep(cs: seq<MdNode>, out: CString)
    requires |cs| > 0
    ensures Cap(Cap(out + Separator(cs[0]) + Transliterate(TextOf(cs[0]))) + BlockStream(cs[1..]))
         == Cap(out + BlockStream(cs))
  {
    var head := out + Separator(cs[0]) + Transliterate(TextOf(cs[0]));
    var tail := BlockStream(cs[1..]);
    assert head + tail == out + BlockStream(cs) by {
      assert BlockStream(cs) == Separator(cs[0]) + Transliterate(TextOf(cs[0])) + tail;
    }
    CapAbsorbs(head, tail);
  }

  /** The child loop of `make_anchor(block)`, with the buffer contents `out`. */
  function FillBlock(cs: seq<MdNode>, out: CString): (r: CString)
    requires |out| <= Capacity
    ensures r == Cap(out + BlockStream(cs))
    decreases |cs|
  {
    if |cs| == 0 then
      assert out + BlockStream(cs) == out;
      out
    else
      BlockStreamStep(cs, out);
      FillBlock(cs[1..], FillChild(cs[0], out))
  }

  /** `make_anchor(block)`: the anchor for a heading, built from the direct
      children of the heading node. */
  function MakeAnchorBlock(block: MdNode): (r: CString)
    ensures r == Cap(BlockStream(block.children))
    ensures |r| <= Capacity
  {
    assert [] + BlockStream(block.children) == BlockStream(block.children);
    FillBlock(block.children, [])
  }

  // ----- Properties of the anchors -----

  lemma {:induction false} TranslitIsAnchor(c: CChar)
    ensures IsAnchor(Translit(c))
  {
  }

  lemma {:induction false} TransliterateIsAnchor(s: CString)
    ensures IsAnchor(Transliterate(s))
    decreases |s|
  {
    if |s| > 0 {
      TranslitIsAnchor(s[0]);
      TransliterateIsAnchor(s[1..]);
    }
  }

  /** Transliteration leaves anchor text unchanged. */
  lemma {:induction false} TransliterateFixesAnchors(s: CString)
    requires IsAnchor(s)
    ensures Transliterate(s) == s
    decreases |s|
  {
    if |s| > 0 {
      TransliterateFixesAnchors(s[1..]);
      assert s == [s[0]] + s[1..];
    }
  }

  /** Each input character contributes at most one output character. */
  lemma {:induction false} TransliterateNoLonger(s: CString)
    ensures |Transliterate(s)| <= |s|
    decreases |s|
  {
    if |s| > 0 {
      TransliterateNoLonger(s[1..]);
    }
  }

  /** Transliteration works character by character. */
  lemma {:induction false} TransliterateAppend(a: CString, b: CString)
    ensures Transliterate(a + b) == Transliterate(a) + Transliterate(b)
    decreases |a|
  {
    if |a| == 0 {
      assert a + b == b;
    } else {
      assert (a + b)[1..] == a[1..] + b;
      TransliterateAppend(a[1..], b);
    }
  }

  /** Every anchor character is in [0-9a-z.-] and the anchor fits the buffer. */
  lemma {:induction false} AnchorTextCharset(text: CString)
    ensures IsAnchor(MakeAnchorText(text))
    ensures |MakeAnchorText(text)| <= Capacity
  {
    TransliterateIsAnchor(text);
  }

  lemma {:induction false} AnchorBlockCharset(block: MdNode)
    ensures IsAnchor(MakeAnchorBlock(block))
  {
    BlockStreamIsAnchor(block.children);
  }

  lemma {:induction false} BlockStreamIsAnchor(cs: seq<MdNode>)
    ensures IsAnchor(BlockStream(cs))
    decreases |cs|
  {
    if |cs| > 0 {
      TransliterateIsAnchor(TextOf(cs[0]));
      BlockStreamIsAnchor(cs[1..]);
    }
  }

  /** Making an anchor of an anchor gives it back unchanged. */
  lemma {:induction false} AnchorIdempotent(text: CString)
    ensures MakeAnchorText(MakeAnchorText(text)) == MakeAnchorText(text)
  {
    var a := MakeAnchorText(text);
    AnchorTextCharset(text);
    TransliterateFixesAnchors(a);
  }

  /** Below the capacity, appending a character appends exactly what that
      character transliterates to. */
  lemma {:induction false} AnchorTextAppend(s: CString, c: CChar)
    requires |Transliterate(s + [c])| <= Capacity
    ensures MakeAnchorText(s + [c]) == MakeAnchorText(s) + Translit(c)
  {
    TransliterateAppend(s, [c]);
    assert Transliterate([c]) == Translit(c) + Transliterate([]);
  }

  /** Extending the input only extends the anchor. */
  lemma {:induction false} AnchorTextPrefix(s: CString, t: CString)
    ensures MakeAnchorText(s) <= MakeAnchorText(s + t)
  {
    TransliterateAppend(s, t);
  }

  /** The text a block reads as: each child's text, with a space before each
      child that whitespace preceded. */
  function SpacedText(cs: seq<MdNode>): CString
    decreases |cs|
  {
    if |cs| == 0 then []
    else (if cs[0].whitespace then [' '] else []) + TextOf(cs[0]) + SpacedText(cs[1..])
  }

  lemma {:induction false} BlockStreamIsTransliteration(cs: seq<MdNode>)
    ensures BlockStream(cs) == Transliterate(SpacedText(cs))
    decreases |cs|
  {
    if |cs| > 0 {
      var lead: CString := if cs[0].whitespace then [' '] else [];
      BlockStreamIsTransliteration(cs[1..]);
      TransliterateAppend(lead, TextOf(cs[0]));
      TransliterateAppend(lead + TextOf(cs[0]), SpacedText(cs[1..]));
      assert Transliterate(lead) == Separator(cs[0]) by {
        if cs[0].whitespace {
          assert Transliterate(lead) == Translit(' ') + Transliterate([]);
        }
      }
    }
  }

  /** The heading anchor is the link anchor of the heading's text, spaced as
      in the source. */
  lemma {:induction false} AnchorBlockIsAnchorText(block: MdNode)
    ensures MakeAnchorBlock(block) == MakeAnchorText(SpacedText(block.children))
  {
    BlockStreamIsTransliteration(block.children);
  }
}
