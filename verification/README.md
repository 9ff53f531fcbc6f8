# Mentions and comment threads over a BlockNote editor, in Dafny

This project models the annotation logic of a small BlockNote demo: the
`comment` style mark with its in-memory comment thread, and `mention` inline
items with the menu that inserts them and the fold that extracts them again.
The React state setters are replaced by pure transitions over immutable
records, and each call into the editor (`addStyles`, `removeStyles`) is
returned as an `EditorCommand` value instead of being made.

Modules (one file each):

- `Optional` (`optional.dfy`): `Option`, for JavaScript's `undefined`.
- `JsString` (`js_string.dfy`): ECMAScript `String.prototype.trim`, with the white-space set of the ECMAScript standard.
- `Seqs` (`seqs.dfy`): `filter` by index (delete) and `splice` plus append (move to end).
- `Document` (`document.dfy`): blocks, inline items, mention props, editor commands.
- `Schema` (`schema.dfy`): the style and inline-content registries built by `App.tsx`, `checkCommentInSchema`, and the `show` guard that both toolbar buttons share.
- `Thread` (`thread.dfy`): the comment thread of `comments/CreateCommentButton.tsx`. It covers add, delete, edit-click and edit-submit.
- `Selection` (`selection.dfy`): the derived `active`/`text`/`comment` view that both buttons recompute on every change.
- `Toolbar` (`toolbar.dfy`): the button of `CreateCommentButton.tsx`. It covers the seed list, click-to-move-to-end, submit, and the `update`/`onDelete` mark callbacks.
- `App` (`app.dfy`): the mention menu, the two-item insertion, and the `editorChanged` extraction.

Behaviour of the code that the model keeps:

- Extraction reads only the top-level blocks' own content and never visits nested `children` (App.tsx:125-136).
- Deleting a comment calls `removeStyles` with the empty string `""` as the comment value (comments/CreateCommentButton.tsx:105). The unused `onDelete` of CreateCommentButton.tsx:117-120 would pass the same value.
- `update` and `onDelete` (CreateCommentButton.tsx:107-120) are defined but never called in that component, so that button never makes an editor request. They are modelled only as the functions they are.
- Comments are deleted, edited and moved by their list index, never by id (comments/CreateCommentButton.tsx:104, 116-121; CreateCommentButton.tsx:84-86).
- The add-comment handler checks only that the raw input is non-empty. It does not check the selected text (comments/CreateCommentButton.tsx:88, CreateCommentButton.tsx:92). The form itself is rendered only while `show` holds (comments/CreateCommentButton.tsx:142-144).
- Extraction skips an inline item only when its type is not `mention` or its `props` is undefined; the fields inside `props` are not checked (App.tsx:130).
- An edit stores its input as typed, with no trim and no emptiness guard (comments/CreateCommentButton.tsx:115-119); `Thread.EditReadsBack` states this. Only comments added by a submit are trimmed.

## Model

| member | source | states |
|---|---|---|
| JsString.TrimStart | comments/CreateCommentButton.tsx:96 | the result is a suffix of the input; everything dropped is white space; the result does not start with white space |
| JsString.TrimEnd | comments/CreateCommentButton.tsx:96 | the result is a prefix of the input; everything dropped is white space; the result does not end with white space |
| JsString.Trim | comments/CreateCommentButton.tsx:96 | `trim` yields an infix of the input; only white space is cut from the two ends; the result neither starts nor ends with white space |
| JsString.TrimEmptyIffAllWhiteSpace | comments/CreateCommentButton.tsx:96 | trimming yields `""` exactly when the input is all white space |
| JsString.TrimIdempotent | CreateCommentButton.tsx:99 | trimming an already trimmed string changes nothing |
| Seqs.RemoveIndex | comments/CreateCommentButton.tsx:104 | filtering out index `i` gives `s[..i] + s[i+1..]` when `i` is in range, and `s` unchanged otherwise (negative or too large) |
| Seqs.MoveToEnd | CreateCommentButton.tsx:84-86 | after splice-and-append, the length is unchanged and the result is a permutation (same multiset). The moved element is last. Elements before it stay in place, and elements after it shift down by one |
| Seqs.MoveToEndIsRemoveThenAppend | CreateCommentButton.tsx:84-86 | moving to the end equals deleting by index (the delete handler's filter) and re-appending the element |
| Seqs.MoveLastIsIdentity | CreateCommentButton.tsx:84-86 | moving the last element changes nothing |
| Seqs.MoveFirstRepeatedlyRotates | CreateCommentButton.tsx:82-88 | moving the first entry to the end `k` times (what `k` clicks on the first rendered entry do to the list) rotates it left by `k` |
| Seqs.MoveFirstFullCycleIsIdentity | CreateCommentButton.tsx:82-88 | clicking the first entry once per entry restores the original order |
| Schema.CustomStyleSpecs | App.tsx:21-24 | the merged styles have exactly the default keys plus `comment`; `comment` maps to the string-valued comment style; every other default is kept unchanged |
| Schema.CustomInlineSpecs | App.tsx:62-66 | the merged inline content has exactly the default keys plus `mention`; every other default is kept unchanged |
| Schema.CommentInSchema | comments/CreateCommentButton.tsx:41-44 | `checkCommentInSchema` (also at CreateCommentButton.tsx:36-39): the style registry has a `comment` key whose config `type` is `"comment"`. It is used by the contracts of `ComputeShow`, `OnChange` and `CustomSchemaHasComment` |
| Schema.CustomSchemaHasComment | comments/CreateCommentButton.tsx:41-44 | the app's merged schema passes `checkCommentInSchema` for any defaults; a schema whose `comment` entry has a config `type` other than `"comment"` never passes |
| Schema.ComputeShow | comments/CreateCommentButton.tsx:128-140 | `show` holds iff the schema check holds and every selected block has defined content. An empty content sequence counts as defined. It is false whenever the schema check fails or some block has undefined content. The same guard appears at CreateCommentButton.tsx:122-134 |
| Thread.Submit | comments/CreateCommentButton.tsx:86-101 | empty raw input: nothing changes and no editor call. Otherwise exactly one comment is appended and earlier entries are unchanged. Its content is the trimmed input, its id is `comment-<now>`, and it has no parent or attachments. The mark is applied with the untrimmed input, the input is cleared, and the edit buffers are untouched |
| Thread.Delete | comments/CreateCommentButton.tsx:103-106 | an in-range index removes exactly that entry and the others keep their order. An out-of-range index leaves the list unchanged. Either way the mark is removed with the `""` sentinel and the buffers are untouched |
| Thread.EditClick | comments/CreateCommentButton.tsx:108-111 | editing starts on entry `i`, and the edit input holds that entry's current content |
| Thread.ReplaceContent | comments/CreateCommentButton.tsx:116-122 | the length is kept. Only entry `i`'s content changes. Its id, parent and attachments are kept, and every other entry is unchanged |
| Thread.EditSubmit | comments/CreateCommentButton.tsx:113-126 | with an edit pending, the edit input is written into the edited entry and both edit buffers are cleared. With none pending, the state is unchanged |
| Thread.WhiteSpaceSubmitStoresEmptyContent | comments/CreateCommentButton.tsx:88-98 | a whitespace-only input passes the raw guard. It appends a comment with content `""` and applies the mark with the whitespace as its value |
| Thread.SubmittedContentIsTrimmed | comments/CreateCommentButton.tsx:96 | the comment a submit appends never starts or ends with white space. It is empty iff the input was all white space |
| Thread.SubmitThenDeleteRestoresThread | comments/CreateCommentButton.tsx:92-104 | deleting the entry that a submit just appended restores the thread |
| Thread.EditClickThenSubmitChangesNothing | comments/CreateCommentButton.tsx:108-124 | starting an edit and submitting it untouched leaves the thread unchanged |
| Thread.EditReadsBack | comments/CreateCommentButton.tsx:108-124 | content written by an edit is what the next edit of that entry reads back. Id, parent and attachments survive |
| Thread.DeleteDuringEditShiftsTarget | comments/CreateCommentButton.tsx:103-124 | the pending edit index is not adjusted by a delete. Deleting an earlier entry during an edit of a non-last entry makes the edit land on the entry that followed the intended one |
| Thread.DeleteDuringEditOfLastDropsEdit | comments/CreateCommentButton.tsx:103-124 | when the entry being edited is the last one, deleting an earlier entry leaves the pending index past the end: the submitted edit is silently dropped, the list holds only the delete, and the edit buffers are cleared |
| Selection.InitialView | comments/CreateCommentButton.tsx:55-78 | on first render, `active` iff `comment` is among the active styles (with no schema check). The text is the selected text as read. The mark value is `""` iff the attribute is missing or empty, and otherwise equals the attribute |
| Selection.OnChange | comments/CreateCommentButton.tsx:63-84 | with the comment style in the schema, `active` iff `comment` is active; without it, `active` keeps its value. The text and mark value are read afresh, and a missing mark value reads as `""`. The same two subscriptions appear at CreateCommentButton.tsx:60-80 |
| Selection.OnChangeIsSnapshot | comments/CreateCommentButton.tsx:80-84 | with the comment style in the schema, the recomputed view does not depend on the previous view |
| Selection.ActiveFrozenWithoutSchema | comments/CreateCommentButton.tsx:63-67 | without the comment style, `active` keeps its first-render value through any sequence of changes |
| Toolbar.SeedIdsAreNotUnique | CreateCommentButton.tsx:53-57 | the button's initial state (`Initial`) has an empty input and three distinct entries that all share the id `commentId1` |
| Toolbar.CommentClick | CreateCommentButton.tsx:82-88 | the clicked entry becomes last and the others keep their relative order. The length and multiset are unchanged, and the input is untouched |
| Toolbar.ClickLastIsIdentity | CreateCommentButton.tsx:84-86 | clicking the last entry changes nothing. Repeated clicks on the first entry are covered by `Seqs.MoveFirstRepeatedlyRotates` and `Seqs.MoveFirstFullCycleIsIdentity` |
| Toolbar.Submit | CreateCommentButton.tsx:90-105 | empty input changes nothing. Otherwise one entry is appended with id `newcomment`, the trimmed content and the fixed resource/creator fields; earlier entries are unchanged and the input is cleared |
| Toolbar.SubmitAgreesWithThread | CreateCommentButton.tsx:90-105 | for the same input, this button's submit and the thread's submit (comments/CreateCommentButton.tsx:86-101) both change nothing, or both append one entry with the same trimmed content and clear the input |
| Toolbar.Update | CreateCommentButton.tsx:107-115 | `update(comment)`, defined but never called, would ask the editor to apply the comment mark with exactly `comment`; the focus calls are folded in |
| Toolbar.OnDelete | CreateCommentButton.tsx:117-120 | `onDelete`, defined but never called, would ask the editor to remove the comment mark, passing the `""` sentinel |
| Toolbar.MarkCommandsAgree | CreateCommentButton.tsx:107-120 | the thread's submit issues the request `update(newComment)` would issue, with a value that is never `""`. The thread's delete issues the one `onDelete` would |
| App.Label | App.tsx:45 | the menu label is the mention type, a `/`, then the title. It is used by `MenuItems` and `LabelDeterminesTypeAndTitle` |
| App.MenuItems | App.tsx:44-45 | one item per registry entry, in registry order, each titled `mentionType/title` and carrying its entry |
| App.OnItemClick | App.tsx:46-57 | a click inserts exactly two items: a `mention` whose props are the entry's fields plus the given timestamp, then the unstyled text `" "` |
| App.InsertedPropsCoverMentionSchema | Mention.tsx:7-23 | an inserted mention sets exactly the five props the `mention` schema declares. Each is set to the registry entry's own field or the click's timestamp, so none falls back to `"Unknown"` |
| App.LabelDeterminesTypeAndTitle | App.tsx:45 | when types contain no `/`, equal labels imply equal type and title |
| App.RegistryMenu | App.tsx:28-45 | the app's menu is `task/Hello Task`, `user/John`, `user/Mary`, in that order |
| App.EditorChanged | App.tsx:123-136 | the `reduce` yields the blocks' contributions concatenated in document order |
| App.IsMention | App.tsx:130 | the filter keeps an item iff its type is `mention` and its props are defined; text runs and links never qualify |
| App.BlockMentions | App.tsx:126-133 | a block adds nothing when its content is undefined, and otherwise adds the filter-map of its own items; its children are not read |
| App.Mentions | App.tsx:125-136 | the reference list is the blocks' contributions concatenated in document order; `EditorChanged` is proved equal to it |
| App.MentionsIn | App.tsx:128-132 | the filter-map over one block's items never yields more props than there are items |
| App.MentionsInAppend | App.tsx:128-132 | the per-block filter-map distributes over concatenation |
| App.MentionsAppend | App.tsx:125-136 | extraction distributes over concatenating documents |
| App.MentionsInMembership | App.tsx:128-132 | a props value is extracted from a block iff some item in it is a `mention` with exactly those props |
| App.TextOnlyYieldsNothing | App.tsx:130 | content made only of text runs yields nothing, whatever the styles (including a `comment` mark) |
| App.ChildrenAreNotVisited | App.tsx:125-136 | documents whose top-level blocks agree on content yield the same list, whatever their children, ids and props |
| App.UndefinedContentContributesNothing | App.tsx:126 | a block with undefined content contributes nothing wherever it sits |
| App.InsertionAddsOneMention | App.tsx:47-56 | inserting a click's two items at any position adds exactly that mention's props at the matching place in the list |
| App.InsertThenExtract | App.tsx:46-57 | a block holding just one insertion yields exactly that mention, and the registry entry is recovered from it |

## Left out

- Rendering: JSX, popovers, buttons, inputs and CSS are not modelled. Neither are the render functions of `Mention.tsx` and `comments/Comment.tsx`, because they produce markup only.
- Input `onChange` handlers: these assign the input field directly, so the model writes the record field instead (`st.(editContent := c)`).
- Editor internals are not modelled, because the editor engine is opaque: `addStyles`, `removeStyles`, `getActiveStyles`, `getAttributes`, `getSelectedText`, `insertInlineContent` and `focus`.
  - Commands are returned, and answers are parameters.
  - What a command does to the document is not modelled, so there is no mark round trip.
- Insertion is modelled as splicing the two items in at an item boundary with a collapsed cursor. That is the assumption behind `App.InsertionAddsOneMention` and `App.InsertThenExtract`. Three host behaviours are not modelled, because they belong to the editor engine: removing the typed `@query` text, replacing a non-empty selection, and splitting or merging text runs.
  - The focus calls after `addStyles` are folded into `AddCommentMark`.
- `filterSuggestionItems` and the async `getItems` are not modelled, because the filter's source is not part of this model. No filter semantics are claimed.
- Clock readings are parameters, because wall-clock time is outside a pure model: `Date.now()` becomes `now` and `new Date().toISOString()` becomes `timestamp`.
- `console.log` calls and React subscription timing (`useMemo`, `useEditorContentOrSelectionChange`, `useSelectedBlocks`) are not modelled, because they are framework plumbing.
- `commentStyleSpec` comes from an external package. It is taken to be a string-valued style whose `type` is `"comment"`, as `checkCommentInSchema` expects and `comments/Comment.tsx` declares. The default style and inline-content specs are parameters.
- Toolbar.CommentClick: requires the index to name an entry. Out of range, `splice` removes nothing and the source appends `undefined`; that case is not modelled because the UI only passes rendered indices.
- Thread.EditClick: requires the index to name an entry, because reading the content of a missing entry throws in the source.
- Block-level `props` and link internals are kept opaque, because extraction never reads them.
- Block content other than undefined or a list of inline items is not represented, such as the content object of the editor library's table blocks. `show` would count such content as defined, and the extraction's `filter` would throw on it.
- Strings are sequences of Unicode scalar values, while JavaScript strings are UTF-16 code units. No modelled operation depends on the difference: `trim`, the emptiness test and concatenation agree on well-formed strings.
