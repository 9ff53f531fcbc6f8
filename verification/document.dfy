/** The slice of the host editor's document that the annotation code reads
    and writes: blocks holding inline items, and the requests the code makes
    of the editor. */
module Document {
  import opened Optional

  /** A style mark's value: boolean styles such as `bold` are flags; the
      `comment` style carries a string. */
  datatype StyleValue = Flag(on: bool) | Value(text: string)

  /** The props of a `mention` inline item (`Mention.tsx`: every prop is a
      string, and the timestamp is stamped at insertion). */
  datatype MentionProps = MentionProps(
    id: string,
    mentionType: string,
    mentionId: string,
    title: string,
    timestamp: string)

  /** An inline item: a styled text run, a link (whose inner runs the
      annotation code never reads), or a custom inline item identified by its
      `type` tag, whose `props` may be undefined. */
  datatype Inline =
    | StyledText(text: string, styles: map<string, StyleValue>)
    | Link(href: string, content: seq<Inline>)
    | Custom(kind: string, props: Option<MentionProps>)

  /** A block: `content` is undefined for blocks without inline content
      (some block kinds hold no inline content); `children` are nested blocks. */
  datatype Block = Block(
    id: string,
    kind: string,
    props: map<string, string>,
    content: Option<seq<Inline>>,
    children: seq<Block>)

  /** What a handler asks the editor to do with the `comment` style on the
      current selection. `AddCommentMark(v)` stands for `addStyles({comment: v})`
      together with the focus calls that follow it; `RemoveCommentMark(v)` for
      `removeStyles({comment: v})`. */
  datatype EditorCommand =
    | AddCommentMark(value: string)
    | RemoveCommentMark(value: string)
    | NoEditorCall
}
