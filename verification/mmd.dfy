/** The parsed Markdown document as the parser hands it over: a tree of typed
    nodes. The parser itself is not part of this model. */
module Mmd {
  import opened Wrappers
  import opened CText

  type HeadingLevel = n: nat | 1 <= n <= 6 witness 1

  /** The node types of the Markdown tree. */
  datatype MdType =
    | Document
    | BlockQuote
    | OrderedList
    | UnorderedList
    | ListItem
    | Heading(level: HeadingLevel)
    | Paragraph
    | CodeBlock
    | ThematicBreak
    | NormalText
    | EmphasizedText
    | StrongText
    | StruckText
    | LinkedText
    | CodeText
    | Image
    | HardBreak
    | SoftBreak
    | MetadataText

  /** The parser's block/leaf classification: every type listed before the
      text types is a block. */
  predicate IsBlock(t: MdType)
  {
    !(|| t.NormalText? || t.EmphasizedText? || t.StrongText? || t.StruckText?
      || t.LinkedText? || t.CodeText? || t.Image? || t.HardBreak? || t.SoftBreak?
      || t.MetadataText?)
  }

  /** A Markdown node: its type, optional text and URL, whether whitespace
      preceded it in the source, and its ordered children. */
  datatype MdNode = MdNode(
    kind: MdType,
    text: Option<CString>,
    url: Option<CString>,
    whitespace: bool,
    children: seq<MdNode>)
}
