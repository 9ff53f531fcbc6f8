/** The toolbar button of `CreateCommentButton.tsx`: a seeded comment list
    in which clicking an entry moves it to the end, an add-comment input,
    and the two mark callbacks `update` and `onDelete`. The component defines
    those callbacks but nothing in it calls them, so this button never makes
    an editor request; they are modelled as the functions they are. */
module Toolbar {
  import opened Optional
  import opened Document
  import JsString
  import Seqs
  import Thread

  /** The extra fields the entries added by this button carry. */
  datatype Provenance = Provenance(resourceType: string, resourceId: string, createdById: string)

  /** A list entry: the seeded entries have only `id` and `content`. */
  datatype Entry = Entry(id: string, content: string, provenance: Option<Provenance>)

  datatype ToolbarState = ToolbarState(comments: seq<Entry>, newComment: string)

  /** The seed list. All three entries share the id `"commentId1"`, so every
      operation here goes by index. */
  const Seed: seq<Entry> := [
    Entry("commentId1", "Here's a first comment", None),
    Entry("commentId1", "Here's another comment", None),
    Entry("commentId1", "And one more for good measure", None)
  ]

  const Initial := ToolbarState(Seed, "")

  /** The fields every entry added by `handleSubmit` carries. */
  const Added := Provenance("page", "pass-in-resourceid", "createdByJohn")

  lemma SeedIdsAreNotUnique()
    ensures |Initial.comments| == 3 && Initial.newComment == []
    ensures forall i, j :: 0 <= i < j < |Initial.comments| ==>
      Initial.comments[i].id == Initial.comments[j].id && Initial.comments[i] != Initial.comments[j]
  {
  }

  /** `handleCommentClick`: the clicked entry moves to the end and the rest
      keep their order, so the list is a permutation of what it was. The
      index must name an entry: out of range, `splice` removes nothing and
      `undefined` is appended. */
  function CommentClick(st: ToolbarState, index: nat): (r: ToolbarState)
    requires index < |st.comments|
    ensures |r.comments| == |st.comments|
    ensures multiset(r.comments) == multiset(st.comments)
    ensures r.comments == st.comments[..index] + st.comments[index + 1..] + [st.comments[index]]
    ensures r.newComment == st.newComment
  {
    var moved := Seqs.MoveToEnd(st.comments, index);
    assert moved == st.comments[..index] + st.comments[index + 1..] + [st.comments[index]];
    st.(comments := moved)
  }

  /** Clicking the last entry leaves the list as it is. (Repeated clicks on
      the first entry are `Seqs.MoveFirstRepeatedlyRotates`.) */
  lemma ClickLastIsIdentity(st: ToolbarState)
    requires |st.comments| > 0
    ensures CommentClick(st, |st.comments| - 1) == st
  {
    Seqs.MoveLastIsIdentity(st.comments);
  }

  /** `handleSubmit`: an empty input changes nothing; otherwise one entry
      with id `"newcomment"`, the trimmed input and the fixed provenance is
      appended and the input is cleared. No mark is applied here. */
  function Submit(st: ToolbarState): (r: ToolbarState)
    ensures st.newComment == [] ==> r == st
    ensures st.newComment != [] ==>
      && |r.comments| == |st.comments| + 1
      && r.comments[..|st.comments|] == st.comments
      && r.comments[|st.comments|] == Entry("newcomment", JsString.Trim(st.newComment), Some(Added))
      && r.newComment == []
  {
    if st.newComment != [] then
      ToolbarState(st.comments + [Entry("newcomment", JsString.Trim(st.newComment), Some(Added))], "")
    else
      st
  }

  /** Both buttons treat the add-comment input alike: the same guard on the
      raw input, the same trimmed content appended, the input cleared. Only
      the appended record's id and extra fields differ. */
  lemma SubmitAgreesWithThread(st: ToolbarState, thread: Thread.ThreadState, now: string)
    requires thread.newComment == st.newComment
    ensures var r := Submit(st);
      var t := Thread.Submit(thread, now).state;
      && (r == st <==> t == thread)
      && |r.comments| - |st.comments| == |t.comments| - |thread.comments|
      && (st.newComment != [] ==>
            && r.comments[|st.comments|].content == t.comments[|thread.comments|].content
            && r.newComment == t.newComment == [])
  {
  }

  /** `update(comment)`, defined but never called: it would apply the
      comment mark with exactly `comment`. */
  function Update(comment: string): EditorCommand {
    AddCommentMark(comment)
  }

  /** `onDelete`, defined but never called: it would remove the comment
      mark, passing the `""` sentinel. */
  function OnDelete(): EditorCommand {
    RemoveCommentMark("")
  }

  /** The thread's submit issues the request `update(newComment)` would
      issue, and the thread's delete the one `onDelete` would. The mark value
      the submit applies is never the empty sentinel. */
  lemma MarkCommandsAgree(st: Thread.ThreadState, now: string, index: int)
    ensures st.newComment != [] ==> Thread.Submit(st, now).call == Update(st.newComment)
    ensures Thread.Delete(st, index).call == OnDelete()
    ensures Thread.Submit(st, now).call.AddCommentMark? ==> Thread.Submit(st, now).call.value != []
  {
  }
}
