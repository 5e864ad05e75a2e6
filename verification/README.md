# HTMLDOC Markdown import, modelled in Dafny

HTMLDOC reads a Markdown file by handing it to a Markdown parser and then
converting the parsed node tree into its own HTML document tree
(`htmldoc/markdown.cxx`). This project models that conversion. It covers:

- `mdReadFile`: the `html`/`head`/`body` skeleton, plus the `title` and
  `meta` elements built from the document metadata;
- `add_block`: block nodes become `blockquote`, `ol`, `ul`, `li`, `h1`–`h6`,
  `p`, `pre` or `hr`, or are spliced into their parent;
- `add_leaf`: inline nodes become text runs, `em`, `strong`, `del`, `a`,
  `code`, `img`, `br` and `wbr`, and consecutive runs of one inline style are
  merged;
- the two `make_anchor` overloads: the `[0-9a-z.-]` identifiers ("anchors")
  given to headings and to links whose target is `@`.

Modules:

| file | module | contents |
|---|---|---|
| `wrappers.dfy` | `Wrappers` | `Option` |
| `ctext.dfy` | `CText` | C strings as byte sequences (`CChar` is a byte other than NUL) and `Truncate` |
| `mmd.dfy` | `Mmd` | the parsed Markdown tree: node types, text, URL, whitespace flag, children |
| `html_tree.dfy` | `HtmlTree` | the HTML tree: markup, text, attributes, children; the shape invariant `ForestOk` and the growth relation `Extends` |
| `anchor.dfy` | `Anchor` | both `make_anchor` loops and their reference definitions |
| `markdown.dfy` | `Markdown` | `add_block`, `add_leaf` and their helpers |
| `document.dfy` | `Document` | `mdReadFile` and the metadata lookups |
| `markdown_proofs.dfy` | `MarkdownProofs` | properties that relate several conversions, and general two-word examples |

The C code mutates a tree in place. The model instead threads, through pure
functions, the child sequence of the HTML parent being appended to.
`htmlAddTree(parent, …)` becomes "append a node to `kids`". Appending to
`parent->last_child` (run merging) becomes "replace the last element of `kids`
by a grown copy". Every converter (`AddLeaf`, `AddBlock`, `AddChildren` and
the per-case helpers) states two invariants:

- `Extends`: it only appends siblings and grows the last existing child;
- `ForestOk` preservation: text runs and void elements stay childless,
  elements carry no text, and no two adjacent siblings are runs of the same
  inline style.

The exact shape added is stated per case:

- `AddImage`, `AddInline`, `AddCodeBlock`, `AddHeading` and `AddWrapped`
  state the shape of their own case;
- `AddLeaf` and `AddBlock` state the shape of the simple cases themselves
  (breaks, metadata text, thematic breaks, spliced blocks), and state which
  helper handles every other case;
- `AddChildren` states that no children leave the parent unchanged, and
  that a single child is converted by `AddBlock` when it is a block and by
  `AddLeaf` otherwise. `MarkdownProofs.ChildrenInOrder` shows that
  converting `a + b` is converting `a` and then `b`, so the two together
  fix the conversion of any list of children.

The anchor loops are modelled as recursive functions over the buffer filled
so far (`FillText`, `FillChild`, `FillBlock`). Each one is proved equal to an
independent reference definition: transliterate everything (`Transliterate`,
`BlockStream`), then keep the first 1023 bytes (`Cap`).

## Model

| member | source | states |
|---|---|---|
| Anchor.FillText | htmldoc/markdown.cxx:317-323 | the character loop leaves the buffer equal to its old contents followed by the transliterated text, cut at 1023 bytes; writing stops once the buffer is full |
| Anchor.MakeAnchorText | htmldoc/markdown.cxx:310-328 | the text anchor is the transliteration of the whole text cut to 1023 bytes; its length is the smaller of the transliteration's length and 1023 |
| Anchor.AnchorTextCharset | htmldoc/markdown.cxx:317-325 | every byte of a text anchor is a digit, a lower-case letter, `.` or `-`, and the anchor holds at most 1023 bytes |
| Anchor.AnchorIdempotent | htmldoc/markdown.cxx:317-323 | making an anchor from an anchor returns it unchanged |
| Anchor.AnchorTextAppend | htmldoc/markdown.cxx:319-322 | below the cap, one more input character appends exactly its mapping: alphanumerics lowercased, `.`/`-` kept, space to `-`, anything else dropped |
| Anchor.AnchorTextPrefix | htmldoc/markdown.cxx:317-323 | extending the input only extends the anchor, at every length, including at the cap |
| Anchor.TransliterateNoLonger | htmldoc/markdown.cxx:319-322 | each input character writes at most one byte |
| Anchor.FillChild | htmldoc/markdown.cxx:289-297 | one pass of the child loop writes a `-` for a whitespace-preceded child when there is room, then the child's transliterated text; a NULL text adds nothing |
| Anchor.FillBlock | htmldoc/markdown.cxx:287-298 | the child loop leaves the buffer equal to its old contents followed by every child's separator and transliterated text, in order, cut at 1023 bytes |
| Anchor.MakeAnchorBlock | htmldoc/markdown.cxx:278-303 | the heading anchor is the separators and transliterated texts of the direct children, in order, cut to 1023 bytes |
| Anchor.AnchorBlockCharset | htmldoc/markdown.cxx:287-300 | every byte of a heading anchor is in `[0-9a-z.-]` |
| Anchor.AnchorBlockIsAnchorText | htmldoc/markdown.cxx:287-297 | the heading anchor equals the text anchor of the children's texts joined with one space before each whitespace-preceded child |
| Markdown.BlockMarkup | htmldoc/markdown.cxx:95-155 | the block table maps only block types, always to a plain container element, and gives exactly `hN` for a level-N heading and for nothing else |
| Markdown.LeafMarkup | htmldoc/markdown.cxx:200-246 | the leaf table maps only leaf types, always to a mergeable inline style, and gives `a` exactly for linked text |
| Markdown.LeafText | htmldoc/markdown.cxx:263-268 | a whitespace-preceded leaf's text is `" "` followed by a prefix of its text, at most 1023 bytes in all: the whole text when that has at most 1022 bytes, exactly its first 1022 bytes otherwise; without whitespace the text is unchanged |
| Markdown.LinkAttrs | htmldoc/markdown.cxx:254-260 | a new link gets exactly one attribute, `href`, when it has a URL: the anchor of its own text for `@`, the URL otherwise; without a URL it gets none |
| Markdown.AddImage | htmldoc/markdown.cxx:222-230 | an image adds an optional `" "` text run and then one childless `img` whose `src` is the URL and which has `alt` exactly when there is text, and no other attribute |
| Markdown.AddInline | htmldoc/markdown.cxx:243-270 | unstyled text goes into the parent; styled text after a sibling of its own style adds one run to that sibling and leaves its tag and attributes alone; otherwise it opens exactly one new element holding the run, with `href` only on a link |
| Markdown.AddLeaf | htmldoc/markdown.cxx:186-271 | an inline node only appends to the parent or grows its last child and keeps the tree well-shaped; a hard break adds one `br`, a soft break one `wbr`, and metadata text adds nothing; images go to `AddImage` and text leaves to `AddInline` |
| Markdown.AddCodeBlock | htmldoc/markdown.cxx:141-146 | a code block adds exactly one `pre` holding one raw text run per child, in order |
| Markdown.AddWrapped | htmldoc/markdown.cxx:157-178 | a block with a non-heading element adds exactly one element of that tag, holding the conversion of its children |
| Markdown.AddHeading | htmldoc/markdown.cxx:157-178 | a heading adds one `hN` holding exactly one `a`, whose only attribute `id` is the heading's anchor and which holds the converted children |
| Markdown.AddBlock | htmldoc/markdown.cxx:85-179 | a block only appends to the parent or grows its last child and keeps the tree well-shaped; a thematic break adds one `hr`; a type without an element splices its converted children into the parent; code blocks go to `AddCodeBlock`, headings to `AddHeading` and the other tagged blocks to `AddWrapped` |
| Markdown.AddChildren | htmldoc/markdown.cxx:172-178 | the child loop only appends to the parent or grows its last child, and keeps the tree well-shaped; no children change nothing, and a single child is converted by `AddBlock` if it is a block and by `AddLeaf` otherwise |
| Document.HeadEntries | htmldoc/markdown.cxx:47-70 | the lookups add one element per present key, in order: a `title` holding the value as text, or a childless `meta` with `name` set to the key and `content` set to the value |
| Document.PresentKeysExact | htmldoc/markdown.cxx:47-70 | a key gets a `head` element exactly when it is one of the looked-up keys and the metadata has it |
| Document.PresentKeysRanked | htmldoc/markdown.cxx:47-70 | the elements for the present keys keep the order in which the keys are looked up |
| Document.HeadKeysOrdered | htmldoc/markdown.cxx:48-70 | `head` has an element for a key exactly when it is one of title, author, copyright, version and the metadata has it, and the elements follow that order |
| Document.MdReadFile | htmldoc/markdown.cxx:32-78 | the result is an `html` with exactly two children: a `head` describing the metadata, then a `body` holding the converted document; the whole tree is well-shaped |
| MarkdownProofs.ChildrenInOrder | htmldoc/markdown.cxx:172-178 | converting children `a + b` is converting `a` and then `b` |
| MarkdownProofs.StyledLeavesMerge | htmldoc/markdown.cxx:248-270 | two consecutive leaves of one style become a single element holding both runs, and the second leaf adds no attribute |
| MarkdownProofs.AdjacentLinksKeepFirstTarget | htmldoc/markdown.cxx:250-261 | two adjacent links become one `a` that keeps the first link's target only |
| MarkdownProofs.RunsMergeOnlyWhenAdjacent | htmldoc/markdown.cxx:248-252 | a plain text run between two leaves of one style keeps them in two separate elements |
| MarkdownProofs.TwoWordAnchor | htmldoc/markdown.cxx:317-323 | the anchor of `w1 + " " + w2` is both words transliterated and joined by `-`, when it fits the buffer |
| MarkdownProofs.TwoWordHeadingExample | htmldoc/markdown.cxx:162-178 | a heading of two words (the second after whitespace) becomes `hN` › `a id="<w1>-<w2>"` › the runs `w1` and `" " + w2` |
| MarkdownProofs.SelfAnchorExample | htmldoc/markdown.cxx:254-257 | a link with target `@` and text `w1 + " " + w2` becomes one `a` whose `href` is both words transliterated and joined by `-` |

## Left out

- File input: `mmdLoadFile`, `mmdFree` and the `FILE *` are not modelled. The converter starts from the parsed tree and the metadata map. The `base` argument is unused by the source.
- `mmdLoadFile` can fail and return NULL. Then `mdReadFile` passes NULL to the metadata lookups and to `add_block`, and what happens depends on the parser (mmd.c), which is not part of this model. `Document.MdReadFile` takes a parsed document.
- The Markdown parser and its block/leaf classification (`mmdIsBlock`, in mmd.c) are not part of this model. `Mmd.IsBlock` takes the classification to be "every type other than the text types".
- `htmlAddTree` and `htmlSetVariable` internals are not modelled: node allocation, the parent/sibling links, and copying of strings. Linking the new `html` element under the caller's `parent` is left out; `Document.MdReadFile` returns the `html` element itself.
- The static 1024-byte buffers of both `make_anchor` overloads are modelled as fresh values on each call. Returning a pointer to a buffer that the next call overwrites is therefore not modelled. Whether that is safe depends on `htmlSetVariable` copying its value, and the HTML library is not part of this model.
- `tolower` depends on the C locale. The model lowercases ASCII only, which agrees with the source because only ASCII letters, digits, `.` and `-` reach `tolower`, and it leaves `.` and `-` unchanged.
- Markdown.AddLeaf: requires a text wherever the C code would read a NULL text. That is a whitespace-preceded text leaf, or a link whose target is `@`. The source dereferences NULL in these cases. For an `@` link that continues an existing `a`, the source never reads the text, so the precondition is stronger than the source there.
- Markdown.AddInline: has the same precondition as `Markdown.AddLeaf`, for the same reason.
- Markdown.LinkAttrs: requires a text for an `@` target, because `make_anchor(text)` reads it.
