/** The view the toolbar button derives from the editor on every content or
    selection change: whether the `comment` style is active, the selected
    text, and the comment mark's value. The editor's answers are parameters. */
module Selection {
  import opened Optional
  import opened Schema

  /** `active`, `text` and `comment` of the button component. */
  datatype View = View(active: bool, text: string, markValue: string)

  /** The view on first render: `active` reads the active styles without
      consulting the schema, and a missing mark value reads as `""`. */
  function InitialView(activeStyles: set<string>, selectedText: string, markAttr: Option<string>): (r: View)
    ensures r.active <==> "comment" in activeStyles
    ensures r.text == selectedText
    ensures r.markValue == [] <==> markAttr.None? || markAttr == Some([])
    ensures markAttr.Some? ==> r.markValue == markAttr.value
  {
    View("comment" in activeStyles, selectedText, GetOr(markAttr, ""))
  }

  /** The two change subscriptions together. `active` is recomputed only when
      the schema has the comment style and is otherwise kept; the text and
      the mark value are read afresh, a missing mark value reading as `""`. */
  function OnChange(v: View, specs: StyleSpecs, activeStyles: set<string>, selectedText: string, markAttr: Option<string>): (r: View)
    ensures CommentInSchema(specs) ==> (r.active <==> "comment" in activeStyles)
    ensures !CommentInSchema(specs) ==> r.active == v.active
    ensures r.text == selectedText
    ensures r.markValue == [] <==> markAttr.None? || markAttr == Some([])
    ensures markAttr.Some? ==> r.markValue == markAttr.value
  {
    View(if CommentInSchema(specs) then "comment" in activeStyles else v.active,
         selectedText,
         GetOr(markAttr, ""))
  }

  /** With the comment style in the schema the view is a snapshot: it
      depends only on the editor's current answers, never on the previous view. */
  lemma OnChangeIsSnapshot(v1: View, v2: View, specs: StyleSpecs, activeStyles: set<string>, selectedText: string, markAttr: Option<string>)
    requires CommentInSchema(specs)
    ensures OnChange(v1, specs, activeStyles, selectedText, markAttr)
         == OnChange(v2, specs, activeStyles, selectedText, markAttr)
  {
  }

  /** Without the comment style, `active` keeps its first-render value through
      any sequence of changes. */
  function Replay(v: View, specs: StyleSpecs, events: seq<(set<string>, string, Option<string>)>): View
    decreases |events|
  {
    if |events| == 0 then v
    else Replay(OnChange(v, specs, events[0].0, events[0].1, events[0].2), specs, events[1..])
  }

  lemma {:induction false} ActiveFrozenWithoutSchema(v: View, specs: StyleSpecs, events: seq<(set<string>, string, Option<string>)>)
    requires !CommentInSchema(specs)
    ensures Replay(v, specs, events).active == v.active
    decreases |events|
  {
    if |events| > 0 {
      ActiveFrozenWithoutSchema(OnChange(v, specs, events[0].0, events[0].1, events[0].2), specs, events[1..]);
    }
  }
}
