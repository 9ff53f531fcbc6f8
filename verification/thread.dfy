/** The comment thread kept by the toolbar button of
    `comments/CreateCommentButton.tsx`: the `Comment[]` list and its input
    buffers, with each handler as a pure transition. Calls into the editor
    come back as an `EditorCommand` instead of being made. */
module Thread {
  import opened Optional
  import opened Document
  import JsString
  import Seqs

  /** The `Comment` record: `parentId` and `attachmentIds` are optional. */
  datatype Comment = Comment(
    id: string,
    content: string,
    parentId: Option<string>,
    attachmentIds: Option<seq<string>>)

  /** The component's state: the thread, the add-comment input
      (`newComment`), the index being edited (`editCommentIndex`, `null` as
      `None`) and the edit input (`editContent`). */
  datatype ThreadState = ThreadState(
    comments: seq<Comment>,
    newComment: string,
    editIndex: Option<nat>,
    editContent: string)

  /** A handler's outcome: the next state and the editor request it makes. */
  datatype Step = Step(state: ThreadState, call: EditorCommand)

  /** The id stamped on a new comment, from the clock reading `now`
      (`Date.now()`), which is a parameter of the model. */
  function NewCommentId(now: string): string {
    "comment-" + now
  }

  /** `handleSubmit`. The guard tests the raw input: an empty input changes
      nothing and calls nothing. Otherwise the comment mark is applied with the
      untrimmed input, one comment holding the trimmed input is appended, and
      the input is cleared. */
  function Submit(st: ThreadState, now: string): (r: Step)
    ensures st.newComment == [] ==> r.state == st && r.call == NoEditorCall
    ensures st.newComment != [] ==>
      && |r.state.comments| == |st.comments| + 1
      && r.state.comments[..|st.comments|] == st.comments
      && r.state.comments[|st.comments|].content == JsString.Trim(st.newComment)
      && r.state.comments[|st.comments|].id == NewCommentId(now)
      && r.state.comments[|st.comments|].parentId.None?
      && r.state.comments[|st.comments|].attachmentIds.None?
      && r.call == AddCommentMark(st.newComment)
      && r.state.newComment == []
      && r.state.editIndex == st.editIndex
      && r.state.editContent == st.editContent
  {
    if st.newComment != [] then
      var added := Comment(NewCommentId(now), JsString.Trim(st.newComment), None, None);
      Step(st.(comments := st.comments + [added], newComment := ""), AddCommentMark(st.newComment))
    else
      Step(st, NoEditorCall)
  }

  /** `handleDelete`: drops the entry at `index` (no change when `index`
      names no entry) and always asks the editor to remove the comment mark
      with the `""` sentinel. The inputs, including a pending edit index, are
      left as they are. */
  function Delete(st: ThreadState, index: int): (r: Step)
    ensures 0 <= index < |st.comments| ==>
      r.state.comments == st.comments[..index] + st.comments[index + 1..]
    ensures !(0 <= index < |st.comments|) ==> r.state.comments == st.comments
    ensures r.call == RemoveCommentMark("")
    ensures r.state.newComment == st.newComment
    ensures r.state.editIndex == st.editIndex && r.state.editContent == st.editContent
  {
    Step(st.(comments := Seqs.RemoveIndex(st.comments, index)), RemoveCommentMark(""))
  }

  /** `handleEditClick`: starts editing entry `index`, seeding the edit input
      with its current content. The entry must exist: reading the content of
      a missing entry throws. */
  function EditClick(st: ThreadState, index: nat): (r: ThreadState)
    requires index < |st.comments|
    ensures r.editIndex == Some(index)
    ensures r.editContent == st.comments[index].content
    ensures r.comments == st.comments && r.newComment == st.newComment
  {
    st.(editIndex := Some(index), editContent := st.comments[index].content)
  }

  /** The `map` inside `handleEditSubmit`: entry `index`, if there is one,
      gets `content`; every other field of it and every other entry is kept. */
  function ReplaceContent(cs: seq<Comment>, index: nat, content: string): (r: seq<Comment>)
    ensures |r| == |cs|
    ensures forall j :: 0 <= j < |cs| && j != index ==> r[j] == cs[j]
    ensures index < |cs| ==> r[index] == cs[index].(content := content)
  {
    seq(|cs|, j requires 0 <= j < |cs| => if j == index then cs[j].(content := content) else cs[j])
  }

  /** `handleEditSubmit`: with an edit pending, writes the edit input into
      the edited entry and clears both edit buffers; with none, changes
      nothing. It never calls the editor. */
  function EditSubmit(st: ThreadState): (r: ThreadState)
    ensures st.editIndex.None? ==> r == st
    ensures st.editIndex.Some? ==>
      && r.comments == ReplaceContent(st.comments, st.editIndex.value, st.editContent)
      && r.editIndex.None? && r.editContent == []
      && r.newComment == st.newComment
  {
    match st.editIndex
    case None => st
    case Some(i) =>
      st.(comments := ReplaceContent(st.comments, i, st.editContent), editIndex := None, editContent := "")
  }

  /** A submitted input that is only white space still appends a comment,
      whose content is empty, and still applies the mark with the white space
      as its value. */
  lemma WhiteSpaceSubmitStoresEmptyContent(st: ThreadState, now: string)
    requires st.newComment != [] && JsString.AllWhiteSpace(st.newComment)
    ensures var r := Submit(st, now);
      && |r.state.comments| == |st.comments| + 1
      && r.state.comments[|st.comments|].content == []
      && r.call == AddCommentMark(st.newComment)
  {
    JsString.TrimEmptyIffAllWhiteSpace(st.newComment);
  }

  /** A submitted comment's content never starts or ends with white space,
      and is empty only when the input was all white space. */
  lemma SubmittedContentIsTrimmed(st: ThreadState, now: string)
    requires st.newComment != []
    ensures var c := Submit(st, now).state.comments[|st.comments|].content;
      && (c == [] <==> JsString.AllWhiteSpace(st.newComment))
      && (c != [] ==> !JsString.IsWhiteSpace(c[0]) && !JsString.IsWhiteSpace(c[|c| - 1]))
  {
    JsString.TrimEmptyIffAllWhiteSpace(st.newComment);
  }

  /** Deleting the entry a submit has just appended restores the thread. */
  lemma SubmitThenDeleteRestoresThread(st: ThreadState, now: string)
    requires st.newComment != []
    ensures Delete(Submit(st, now).state, |st.comments|).state.comments == st.comments
  {
  }

  /** Starting an edit and submitting it untouched leaves the thread as it was. */
  lemma EditClickThenSubmitChangesNothing(st: ThreadState, index: nat)
    requires index < |st.comments|
    ensures EditSubmit(EditClick(st, index)).comments == st.comments
  {
    var r := EditSubmit(EditClick(st, index)).comments;
    assert forall j :: 0 <= j < |r| ==> r[j] == st.comments[j];
  }

  /** What an edit writes is what the next edit of the same entry reads back,
      and the entry's id, parent and attachments survive the edit. */
  lemma EditReadsBack(st: ThreadState, index: nat, content: string)
    requires index < |st.comments|
    ensures var edited := EditSubmit(EditClick(st, index).(editContent := content));
      && EditClick(edited, index).editContent == content
      && edited.comments[index].id == st.comments[index].id
      && edited.comments[index].parentId == st.comments[index].parentId
      && edited.comments[index].attachmentIds == st.comments[index].attachmentIds
  {
  }

  /** The pending edit index is not adjusted by a delete: deleting an earlier
      entry while entry `k` is being edited makes the submitted edit land on
      the entry that followed it. */
  lemma DeleteDuringEditShiftsTarget(st: ThreadState, j: nat, k: nat, content: string)
    requires j < k < |st.comments| - 1
    ensures var editing := EditClick(st, k).(editContent := content);
      var after := EditSubmit(Delete(editing, j).state);
      && after.comments[k] == st.comments[k + 1].(content := content)
      && after.comments[k - 1] == st.comments[k]
  {
  }

  /** When the entry being edited is the last one, deleting an earlier entry
      makes the pending index name no entry: the submitted edit is dropped,
      the list keeps only the delete, and the edit buffers are cleared. */
  lemma DeleteDuringEditOfLastDropsEdit(st: ThreadState, j: nat, content: string)
    requires j < |st.comments| - 1
    ensures var k := |st.comments| - 1;
      var editing := EditClick(st, k).(editContent := content);
      var after := EditSubmit(Delete(editing, j).state);
      && after.comments == st.comments[..j] + st.comments[j + 1..]
      && after.editIndex.None? && after.editContent == []
  {
  }
}
