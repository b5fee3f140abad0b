# Line comments of the code-review viewer, in Dafny

A shared snippet is shown as a line-number gutter beside a highlighted code pane.
Reviewers click a line number to select it and comment on that line. This project
models the in-memory side of that view:

- the record from line number to the comments on that line. The viewer builds it
  by grouping the loaded comments. The comment panel then appends, edits and
  deletes in it;
- the "All Comments" list (newest first) and the "Comments by Line" panel
  (ascending line);
- the line-selection toggle, the Hide/Show Comments switch, the gutter rows, and
  the scroll synchronisation between the two panes;
- the two composers (the panel's and the inline block's). Each is modelled with
  its draft, author and submitting flag around the network call;
- the CRLF normalisation applied before highlighting, and the language list.

Modules, one per source file, plus shared helpers:

| module | file | models |
|---|---|---|
| `Wrappers` | wrappers.dfy | `Option` for `T \| null` values |
| `Text` | text.dfy | JavaScript `trim`, `trim() \|\| "Anonymous"`, `split("\n")` and its inverse `join` |
| `Comments` | comments.dfy | the comment record |
| `CommentIndex` | comment_index.dfy | the line index and its operations (components/code-viewer.tsx, components/comment-thread.tsx) |
| `CommentOrder` | comment_order.dfy | the "All Comments" list (components/comment-thread.tsx) |
| `SyntaxHighlight` | syntax_highlight.dfy | lib/syntax-highlight.ts |
| `CodeViewerComponent` | code_viewer.dfy | components/code-viewer.tsx |
| `CommentThreadComponent` | comment_thread.dfy | components/comment-thread.tsx |
| `InlineCommentComponent` | inline_comment.dfy | components/inline-comment.tsx |

Component state that handlers update in place becomes a class with `modifies`
clauses. These are `CodeViewer`, `ScrollSync`, `CommentThread` and `InlineComment`.
Pure expressions become functions, with lemmas about them.

The network is a parameter. An insert completes with the record the store
returned, or with nothing (failure). An update or a delete completes with a
success flag. A submit handler awaits its call, so it is split in two:
`BeginSubmit` runs up to the call, and `FinishSubmit` runs when the call settles.
This makes the `isSubmitting` flag observable in between. Edit and delete do no
state change before their call, so each is one atomic step.

Behaviour of the code that the model keeps:

- The gutter's `hasComments` flags come from the viewer's own grouping of the loaded
  comments. The panel keeps its own copy of the index, initialised from that
  grouping each time the panel is mounted. Additions, edits and deletions in the
  panel do not reach the gutter (`CodeViewer.RenderGutter` reads only the constant
  `comments`).
- A successful submit does not clear the selected line.
- Delete sends its request before looking the line up. For a line key that is
  absent, the source's `filter` throws inside the `try` and the index is left as
  it was (`RemoveFromLine`).
- Delete removes every comment with the given id from that line. Edit rewrites
  `comment_text` of every comment with that id on every line, and leaves
  `updated_at` alone.
- The handlers themselves check no ownership. Only the offered controls depend on
  it.
- Hiding the comment panel unmounts it; showing it mounts a new one
  (`CodeViewer.ToggleComments`). The new panel's index is again the grouping of the
  originally loaded comments. Every comment added, edited or deleted in the old
  panel drops out of it, its drafts are empty, and its identity is null until the
  session lookup completes again. The selected line is kept, so the composer
  reopens on the same line.
- The gutter has exactly one row per line of `code.split("\n")`, numbered from 1.

## Model

| member | source | states |
|---|---|---|
| `Text.TrimStart` | components/comment-thread.tsx:73 | the result is a suffix of the input, everything removed is whitespace, and it does not start with whitespace |
| `Text.TrimEnd` | components/comment-thread.tsx:73 | the result is a prefix of the input, everything removed is whitespace, and it does not end with whitespace |
| `Text.Trim` | components/comment-thread.tsx:64 | `trim()` is "" exactly when the input is all whitespace (the emptiness guard); otherwise it starts and ends with non-whitespace |
| `Text.TrimIsSlice` | components/comment-thread.tsx:73 | the trimmed text is the contiguous slice between leading and trailing whitespace |
| `Text.TrimIdempotent` | components/inline-comment.tsx:83 | trimming an already trimmed text changes nothing |
| `Text.OrAnonymous` | components/comment-thread.tsx:74 | the author is never empty: "Anonymous" for a blank name, else the trimmed name |
| `Text.SplitLines` | components/code-viewer.tsx:49 | `split("\n")` gives one piece per line feed plus one, and no piece contains a line feed |
| `Text.JoinSplitLines` | components/code-viewer.tsx:49 | joining the pieces with "\n" gives back the code, so splitting loses nothing |
| `SyntaxHighlight.NormalizeLineBreaks` | lib/syntax-highlight.ts:56 | the normalised code is never longer than the raw code |
| `SyntaxHighlight.NormalizeDropsCrBeforeLf` | lib/syntax-highlight.ts:56 | the `replace` scan equals the position-wise reference: delete each CR that an LF immediately follows, and keep all else in order |
| `SyntaxHighlight.NormalizeLength` | lib/syntax-highlight.ts:56 | the output is shorter by exactly the number of CR-LF pairs, so never longer |
| `SyntaxHighlight.NormalizeWithoutPairs` | lib/syntax-highlight.ts:56 | text without a CR-LF pair comes back unchanged |
| `SyntaxHighlight.NormalizeKeepsLineFeeds` | lib/syntax-highlight.ts:56 | the number of line feeds is unchanged |
| `SyntaxHighlight.SameLineCountAsRaw` | lib/syntax-highlight.ts:56 | the normalised code splits into as many lines as the raw code the gutter counts |
| `SyntaxHighlight.NormalizeNotIdempotent` | lib/syntax-highlight.ts:56 | "\r\r\n" becomes "\r\n" and then "\n", so normalising twice differs from once |
| `SyntaxHighlight.SupportedLanguages` | lib/syntax-highlight.ts:80-106 | the advertised list equals the 24 languages loaded at lines 10-35, in the same order, with no duplicates |
| `CommentIndex.Group` | components/code-viewer.tsx:66-75 | every grouped comment is a loaded comment and sits under its own line number |
| `CommentIndex.Append` | components/comment-thread.tsx:83-88 | the appended comment ends its line, and every other line is unchanged |
| `CommentIndex.GroupSnoc` | components/code-viewer.tsx:66-75 | grouping a list extended by one comment appends that comment to its line, so each line's list keeps input order |
| `CommentIndex.GroupIsIndex` | components/code-viewer.tsx:66-75 | after grouping, every comment sits under the key equal to its line number, and no key maps to an empty list |
| `CommentIndex.GroupConserves` | components/code-viewer.tsx:66-75 | the grouped comments are a permutation of the input, and the total equals `comments.length` |
| `CommentIndex.AppendPlacesLast` | components/comment-thread.tsx:83-88 | the appended comment is last on its line, earlier ones are kept, the entry is created if absent, and other lines are unchanged |
| `CommentIndex.AppendKeepsIndex` | components/comment-thread.tsx:83-88 | appending a comment under its own line keeps keys matching line numbers and keeps lists non-empty |
| `CommentIndex.AppendConserves` | components/comment-thread.tsx:83-88 | appending adds exactly the new comment to the index, losing and duplicating nothing |
| `CommentIndex.AppendCommutes` | components/comment-thread.tsx:83-88 | appends to different lines give the same index in either completion order |
| `CommentIndex.EditOnlyText` | components/comment-thread.tsx:114-121 | an edit keeps keys, lengths and order. Only comments with the id get the new text, and every other field (including `updated_at`) is kept |
| `CommentIndex.EditText` | components/comment-thread.tsx:114-121 | an edit keeps the set of lines and the length of every line |
| `CommentIndex.EditAbsentId` | components/comment-thread.tsx:114-121 | editing an id that no comment carries leaves the index unchanged |
| `CommentIndex.RemoveKeepsIndex` | components/comment-thread.tsx:142-148 | a delete keeps the index well formed, drops the key of an emptied line, leaves other lines alone, and leaves no comment with that id on the line |
| `CommentIndex.RemoveFromLine` | components/comment-thread.tsx:142-148 | a delete keeps no key that was not there and leaves every other line as it was; what stays on the line comes from it and carries another id |
| `CommentIndex.WithoutIdConcat` | components/comment-thread.tsx:143-145 | the `filter` distributes over concatenation, so the kept comments stay in their order |
| `CommentIndex.RemoveUniqueKeepsOrder` | components/comment-thread.tsx:143-145 | removing a comment whose id is unique on its list gives exactly the list without it, the others in their order |
| `CommentIndex.DeleteKeepsLineOrder` | components/comment-thread.tsx:142-148 | deleting a comment from its line leaves the rest of the line in order, and drops the line if it held only that comment |
| `CommentIndex.RemoveConserves` | components/comment-thread.tsx:142-148 | a delete takes out exactly the comments of that line carrying the id, and nothing else |
| `CommentIndex.AppendThenRemove` | components/comment-thread.tsx:142-148 | adding a fresh comment and deleting it again restores the index |
| `CommentIndex.LineSections` | components/comment-thread.tsx:357-358 | the by-line panel has one section per key with that key's list, in strictly ascending line order |
| `CommentIndex.SortedKeys` | components/comment-thread.tsx:357-358 | the keys in strictly ascending order, each exactly once |
| `CommentOrder.TagKeysIndex` | components/comment-thread.tsx:161-165 | tagging each entry with its key makes the index well keyed, and it changes nothing in an index that already is |
| `CommentOrder.SortNewestFirst` | components/comment-thread.tsx:167 | the sorted list is a permutation of its input |
| `CommentOrder.SortSpec` | components/comment-thread.tsx:167 | the sort orders by `created_at` descending and is stable: comments created at the same instant keep their order |
| `CommentOrder.AllCommentsMembers` | components/comment-thread.tsx:160-166 | every "All Comments" entry is a stored comment carrying its map key as `line_number` |
| `CommentOrder.AllComments` | components/comment-thread.tsx:160-167 | "All Comments" holds the tagged comments of the index, each as often as stored |
| `CommentOrder.AllCommentsSpec` | components/comment-thread.tsx:160-167 | "All Comments" has the sum of the per-line lengths as its length, is newest first and is stable; for a well-keyed index it is a permutation of the stored comments |
| `CodeViewerComponent.GroupByLine` | components/code-viewer.tsx:66-75 | the `reduce` loop builds exactly the grouping of the comment list |
| `CodeViewerComponent.GutterRows` | components/code-viewer.tsx:171-174 | the gutter has one row per line feed of the code plus one |
| `CodeViewerComponent.GutterSpec` | components/code-viewer.tsx:171-188 | rows are numbered 1..n with one per raw line, as many as the normalised body has. A row has comments iff a loaded comment is on that line, and is selected iff its line is the selected line |
| `CodeViewerComponent.Push` | components/code-viewer.tsx:68-71 | one reducer step appends the comment to its line, creating the line when absent |
| `CodeViewerComponent.Clicked` | components/code-viewer.tsx:101 | the click yields no selection exactly when the clicked line was selected, and otherwise that line |
| `CodeViewerComponent.ClickToggles` | components/code-viewer.tsx:100-102 | clicking the selected line clears the selection, and clicking another line selects exactly that line |
| `CodeViewerComponent.CodeViewer.FreshPanel` | components/code-viewer.tsx:209-218 | a freshly mounted panel holds the grouping of the loaded comments |
| `CodeViewerComponent.CodeViewer.constructor` | components/code-viewer.tsx:42-43 | the viewer starts with no line selected and the comment panel shown, with a freshly mounted panel holding the grouping of the loaded comments and no identity |
| `CodeViewerComponent.CodeViewer.HandleLineClick` | components/code-viewer.tsx:100-102 | the selection becomes the toggle of the old selection and the clicked line, and nothing else changes |
| `CodeViewerComponent.CodeViewer.SelectLine` | components/code-viewer.tsx:215 | the panel's `onLineSelect` sets the selection directly (null on Cancel), and nothing else changes |
| `CodeViewerComponent.CodeViewer.ToggleComments` | components/code-viewer.tsx:135 | the switch flips `showComments` and keeps the selection. Hiding unmounts the panel; showing mounts a new one back at the grouping of the loaded comments, with empty fields and a null identity |
| `CodeViewerComponent.CodeViewer.RenderGutter` | components/code-viewer.tsx:171-188 | the rendered gutter is built from the grouping of the loaded comments and the current selection |
| `CodeViewerComponent.ScrollSync.constructor` | components/code-viewer.tsx:45-46 | both panes start at offset 0, each with or without an attached ref |
| `CodeViewerComponent.ScrollSync.UserScroll` | components/code-viewer.tsx:166-169 | a user scroll moves only the scrolled pane |
| `CodeViewerComponent.ScrollSync.HandleScroll` | components/code-viewer.tsx:105-114 | with both refs attached, the other pane takes the source pane's offset and the source is untouched; with either missing, nothing changes |
| `CodeViewerComponent.ScrollSync.ScrollAndEcho` | components/code-viewer.tsx:105-114 | after a user scroll and the echoed event from the other pane, both panes are at the user's offset (no oscillation) |
| `CommentThreadComponent.NullViewerOwnsNullComments` | components/comment-thread.tsx:287 | as written, a viewer with a null identity matches a comment stored with a null owner; the intended check refuses this |
| `CommentThreadComponent.NoLine` | components/comment-thread.tsx:64 | when `!selectedLine` is false, a line is selected and it is not 0 |
| `CommentThreadComponent.OwnerMatchesAsWritten` | components/comment-thread.tsx:287 | `===` as written: a missing field never matches, and for a viewer with a token it matches exactly the comments stored with that token |
| `CommentThreadComponent.CanModify` | components/comment-thread.tsx:287 | the corrected check grants only a viewer holding a token, on comments stored with that token |
| `CommentThreadComponent.CanModifyRefinesAsWritten` | components/comment-thread.tsx:287 | the intended check grants controls only to a viewer holding a token, and agrees with the written check whenever the viewer has one |
| `CommentThreadComponent.CommentThread.constructor` | components/comment-thread.tsx:45-52 | the panel starts from the viewer's index, with empty fields, not submitting, not editing, and no identity yet |
| `CommentThreadComponent.CommentThread.SessionLoaded` | components/comment-thread.tsx:55-61 | the identity becomes the session lookup's result (null on failure) |
| `CommentThreadComponent.CommentThread.SetNewComment` | components/comment-thread.tsx:197 | typing replaces the draft |
| `CommentThreadComponent.CommentThread.SetAuthorName` | components/comment-thread.tsx:190 | typing replaces the author field |
| `CommentThreadComponent.CommentThread.BeginSubmit` | components/comment-thread.tsx:63-78 | with a blank draft or no line selected, nothing is sent and nothing changes. Otherwise the panel is submitting and the insert has the trimmed text, the selected line, the trimmed author or "Anonymous", and the identity |
| `CommentThreadComponent.CommentThread.FinishSubmit` | components/comment-thread.tsx:79-97 | on success the returned record becomes the last comment of the request's line and both fields are cleared. If the record carries that line, the index stays well formed and gains exactly that record. On failure the index and fields are unchanged. The flag is false afterwards in both cases |
| `CommentThreadComponent.CommentThread.SubmitEnabled` | components/comment-thread.tsx:202 | the enabled button means a draft that is non-empty after trimming and no submit in flight |
| `CommentThreadComponent.CommentThread.PressSubmit` | components/comment-thread.tsx:180-205 | the button exists only while a line is selected. Pressing it when enabled always sends an insert for that line with non-empty text, and disables the button until the insert settles |
| `CommentThreadComponent.CommentThread.ControlsOffered` | components/comment-thread.tsx:287-329 | Edit and Delete are offered only to a viewer with a token, on comments stored with it; for such a viewer this agrees with the check as written |
| `CommentThreadComponent.CommentThread.StartEditing` | components/comment-thread.tsx:155-158 | the edit form opens on the comment, pre-filled with its text |
| `CommentThreadComponent.CommentThread.SetEditedContent` | components/comment-thread.tsx:244 | typing replaces the edited content |
| `CommentThreadComponent.CommentThread.CancelEditing` | components/comment-thread.tsx:260-263 | the edit form closes and its content is cleared |
| `CommentThreadComponent.CommentThread.EditComment` | components/comment-thread.tsx:100-130 | blank content sends nothing and changes nothing. Otherwise the trimmed content is sent. On success every comment with the id gets it and the form closes; on failure nothing changes |
| `CommentThreadComponent.CommentThread.DeleteComment` | components/comment-thread.tsx:132-153 | on success the index becomes the delete of that id from that line; on failure it is unchanged |
| `InlineCommentComponent.InlineComment.constructor` | components/inline-comment.tsx:31-40 | the block starts with empty fields and not submitting, and shows the form only when `isNew` |
| `InlineCommentComponent.InlineComment.SetNewComment` | components/inline-comment.tsx:128 | typing replaces the draft |
| `InlineCommentComponent.InlineComment.SetAuthorName` | components/inline-comment.tsx:122 | typing replaces the author field |
| `InlineCommentComponent.InlineComment.BeginSubmit` | components/inline-comment.tsx:78-83 | a blank draft does nothing. Otherwise the block is submitting and `onAddComment` gets the trimmed text and the trimmed author, or "Anonymous" |
| `InlineCommentComponent.InlineComment.FinishSubmit` | components/inline-comment.tsx:84-90 | on success both fields are cleared, on failure both are kept, and the flag is false afterwards in both cases |
| `InlineCommentComponent.InlineComment.SubmitEnabled` | components/inline-comment.tsx:135 | the enabled button means a draft that is non-empty after trimming and no submit in flight |
| `InlineCommentComponent.InlineComment.PressAdd` | components/inline-comment.tsx:117-135 | the button exists only in a new comment's block. Pressing it when enabled issues the call with non-empty text and author, and disables the button until it settles |
| `InlineCommentComponent.AddCallWellFormed` | components/inline-comment.tsx:83 | the text passed on is non-empty and already trimmed, and the author is non-empty |

## Findings

| source | as written | input that shows it | evidently intended | confidence | as-written member | corrected member |
|---|---|---|---|---|---|---|
| components/comment-thread.tsx:287 | `comment.anonymous_user_id === anonymousUserId` is true when both are null | a viewer whose session lookup failed, or has not finished, has identity null. Any comment stored with `anonymous_user_id` null then shows Edit and Delete to that viewer | controls only for a viewer holding a token equal to the comment's stored token | medium, not executed | `CommentThreadComponent.NullViewerOwnsNullComments` | `CommentThreadComponent.CanModifyRefinesAsWritten` |

The panel's `ControlsOffered` uses the corrected check, `CanModify`.
`OwnerMatchesAsWritten` keeps the check as the code writes it.

## Left out

- CommentThreadComponent.CommentThread.ControlsOffered: uses the corrected check
  `CanModify`, not the `===` of components/comment-thread.tsx:287. The two differ
  only for a viewer with a null identity, on comments stored with a null owner
  (see "## Findings"). `OwnerMatchesAsWritten` keeps the check as written.

- Network I/O: the store's insert, update and delete, the snippet and comment
  fetches, and lib/session.ts. Each call is a parameter: the returned record, or a
  success flag. The identity is an optional opaque string. lib/session.ts is not
  part of this model.
- Interleaving of asynchronous completions. Each completion applies to the current
  index. The source's handlers close over the render-time `comments`, so an update
  that overlaps another can overwrite it. The model does not capture that lost
  update.
- Aliasing: `{ ...comments }` is a shallow copy, so the source's `push` also
  mutates the previous state's array. The model treats the index as a value.
- DOM height measurement, `ResizeObserver`, `setTimeout` and `onHeightChange` in
  components/inline-comment.tsx. Nothing in the code consumes the heights.
- The browser clamping `scrollTop` to a pane's scrollable range. Offsets are
  unbounded integers.
- Shiki's `codeToHtml`, Markdown rendering, `formatDistanceToNow`, clipboard,
  toasts and routing (app/page.tsx, app/layout.tsx, app/not-found.tsx,
  app/code/[id]/page.tsx). components/code-editor.tsx is not part of this model.
- Date parsing: `created_at` is an integer instant. An unparsable date, whose
  comparator result is `NaN`, is not modelled.
- Line keys are integers. For keys that are not array indices (negative line
  numbers), `Object.entries` lists them in insertion order. That order shows only
  in how "All Comments" breaks ties between equal `created_at`. The model takes
  the ascending order for every key.
- `CommentIndex.Flatten`, `CommentIndex.LineSections` and
  `CommentOrder.AllComments` are ghost functions, because ordering map keys uses a
  choice of the least key. They specify the rendered lists rather than compute
  them.
