/** The editor schema as far as annotations are concerned: the style and
    inline-content registries built in `App.tsx`, the `checkCommentInSchema`
    guard, and the `show` guard of the comment toolbar button. */
module Schema {
  import opened Document

  /** How a style stores its value: presence only, or a string. */
  datatype StylePropSchema = BooleanProp | StringProp

  /** A style spec's `config`: its `type` tag and value schema. */
  datatype StyleConfig = StyleConfig(kind: string, propSchema: StylePropSchema)

  /** `schema.styleSpecs`, keyed by style name. */
  type StyleSpecs = map<string, StyleConfig>

  /** An inline-content spec's config: its `type` tag, the default of every
      prop, and whether it holds editable content (`content: "none"` is false). */
  datatype InlineSpec = InlineSpec(kind: string, propDefaults: map<string, string>, hasContent: bool)

  /** `schema.inlineContentSpecs`, keyed by inline-content name. */
  type InlineSpecs = map<string, InlineSpec>

  /** The `comment` style registered by the app: a string-valued style whose
      `type` is `"comment"`. */
  const CommentStyle := StyleConfig("comment", StringProp)

  /** The `mention` inline content of `Mention.tsx`: five string props, each
      defaulting to `"Unknown"`, and no editable content. */
  const MentionSpec := InlineSpec(
    "mention",
    map["title" := "Unknown", "id" := "Unknown", "mentionType" := "Unknown",
        "mentionId" := "Unknown", "timestamp" := "Unknown"],
    false)

  /** `{...defaultStyleSpecs, comment: commentStyleSpec}`: every default
      style is kept, except that a default named `comment` would be
      overridden, and `comment` is added. */
  function CustomStyleSpecs(defaults: StyleSpecs): (r: StyleSpecs)
    ensures r.Keys == defaults.Keys + {"comment"}
    ensures r["comment"] == CommentStyle
    ensures forall k :: k in defaults && k != "comment" ==> r[k] == defaults[k]
  {
    defaults["comment" := CommentStyle]
  }

  /** `{...defaultInlineContentSpecs, mention: Mention}`. */
  function CustomInlineSpecs(defaults: InlineSpecs): (r: InlineSpecs)
    ensures r.Keys == defaults.Keys + {"mention"}
    ensures r["mention"] == MentionSpec
    ensures forall k :: k in defaults && k != "mention" ==> r[k] == defaults[k]
  {
    defaults["mention" := MentionSpec]
  }

  /** `checkCommentInSchema`: the schema has a `comment` style whose config
      `type` is `"comment"`. */
  predicate CommentInSchema(specs: StyleSpecs) {
    "comment" in specs && specs["comment"].kind == "comment"
  }

  /** The schema the app builds passes `checkCommentInSchema`, whatever the
      default styles are; a `comment` style whose config `type` is anything
      else fails it. */
  lemma CustomSchemaHasComment(defaults: StyleSpecs)
    ensures CommentInSchema(CustomStyleSpecs(defaults))
    ensures forall specs: StyleSpecs :: "comment" in specs && specs["comment"].kind != "comment" ==> !CommentInSchema(specs)
  {
  }

  /** Every block touched by the selection has defined inline content (an
      empty content sequence counts as defined). */
  predicate AllContentDefined(selected: seq<Block>) {
    forall i :: 0 <= i < |selected| ==> selected[i].content.Some?
  }

  /** The `show` memo: false when the schema check fails, false as soon as a
      selected block has undefined content, true otherwise. */
  method ComputeShow(specs: StyleSpecs, selected: seq<Block>) returns (show: bool)
    ensures show <==> CommentInSchema(specs) && AllContentDefined(selected)
    ensures !CommentInSchema(specs) ==> !show
    ensures (exists i :: 0 <= i < |selected| && selected[i].content.None?) ==> !show
  {
    if !CommentInSchema(specs) {
      return false;
    }
    for i := 0 to |selected|
      invariant forall k :: 0 <= k < i ==> selected[k].content.Some?
    {
      if selected[i].content.None? {
        return false;
      }
    }
    return true;
  }
}
