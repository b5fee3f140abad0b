/** The comment panel: the composer for the selected line, editing and deleting
    one's own comments, and the state it keeps between events. Network writes are
    parameters: the record the store returned, or a failure. */
module CommentThreadComponent {
  import opened Wrappers
  import opened Text
  import opened Comments
  import opened CommentIndex

  /** The insert sent to the store for a new comment. */
  datatype InsertRequest = InsertRequest(
    snippetId: string, lineNumber: int, text: string, authorName: string, owner: Option<string>)

  /** `!selectedLine`: null and line 0 are falsy. When it does not hold, the
      composer is rendered for a selected, non-zero line. */
  predicate NoLine(selected: Option<int>)
    ensures !NoLine(selected) ==> selected.Some? && selected.value != 0
  {
    selected == None || selected.value == 0
  }

  /** `comment.anonymous_user_id === anonymousUserId` as written: a missing field
      never matches, null matches a viewer whose identity is null, a token matches the
      same token. */
  function OwnerMatchesAsWritten(owner: OwnerField, viewer: Option<string>): (r: bool)
    ensures owner == Missing ==> !r
    ensures viewer.Some? ==> (r <==> owner == Token(viewer.value))
  {
    match owner
    case Missing => false
    case Null => viewer == None
    case Token(t) => viewer == Some(t)
  }

  /** As written, a viewer without an identity is offered the controls of every
      comment stored without an owner; the intended check refuses them. */
  lemma NullViewerOwnsNullComments()
    ensures OwnerMatchesAsWritten(Null, None)
    ensures !CanModify(Null, None)
  {
  }

  /** The ownership check as intended: only a viewer holding an identity token, and
      only on comments stored with that token. */
  function CanModify(owner: OwnerField, viewer: Option<string>): (r: bool)
    ensures r ==> viewer.Some? && owner.Token? && owner.id == viewer.value
  {
    viewer.Some? && owner == Token(viewer.value)
  }

  /** The intended check agrees with the written one whenever the viewer has an
      identity, and never grants anything to a viewer without one. */
  lemma CanModifyRefinesAsWritten(owner: OwnerField, viewer: Option<string>)
    ensures CanModify(owner, viewer) <==> OwnerMatchesAsWritten(owner, viewer) && viewer.Some?
    ensures viewer == None ==> !CanModify(owner, viewer)
  {
  }

  /** The state of one mounted comment panel. */
  class CommentThread {
    const snippetId: string
    var viewer: Option<string>
    var comments: ByLine
    var newComment: string
    var authorName: string
    var isSubmitting: bool
    var editingComment: Option<string>
    var editedContent: string

    /** Mounting: the index comes from the viewer's grouping; the identity is not
        known until the session lookup completes. */
    constructor (snippetId: string, initial: ByLine)
      ensures this.snippetId == snippetId && comments == initial && viewer == None
      ensures newComment == [] && authorName == [] && !isSubmitting
      ensures editingComment == None && editedContent == []
    {
      this.snippetId := snippetId;
      viewer := None;
      comments := initial;
      newComment, authorName, isSubmitting := [], [], false;
      editingComment, editedContent := None, [];
    }

    /** The session lookup completes with an identity, or null when it failed. */
    method SessionLoaded(id: Option<string>)
      modifies this`viewer
      ensures viewer == id
    {
      viewer := id;
    }

    /** Typing into the comment field. */
    method SetNewComment(s: string)
      modifies this`newComment
      ensures newComment == s
    {
      newComment := s;
    }

    /** Typing into the name field. */
    method SetAuthorName(s: string)
      modifies this`authorName
      ensures authorName == s
    {
      authorName := s;
    }

    /** The "Add Comment" button is enabled: a draft with something left after
        trimming, and no submit in flight. */
    predicate SubmitEnabled()
      reads this
      ensures SubmitEnabled() ==> Trim(newComment) != [] && !isSubmitting
    {
      !IsBlank(newComment) && !isSubmitting
    }

    /** First half of `handleSubmitComment`, up to the insert: nothing happens when
        the draft is blank or no line is selected; otherwise the panel is marked as
        submitting and the insert carries the trimmed text, the selected line, the
        trimmed author or "Anonymous", and the viewer's identity. */
    method BeginSubmit(selected: Option<int>) returns (request: Option<InsertRequest>)
      modifies this`isSubmitting
      ensures request.None? <==> IsBlank(newComment) || NoLine(selected)
      ensures request.None? ==> isSubmitting == old(isSubmitting)
      ensures request.Some? ==> isSubmitting
      ensures request.Some? ==>
        request.value == InsertRequest(snippetId, selected.value, Trim(newComment), OrAnonymous(authorName), viewer)
    {
      if IsBlank(newComment) || NoLine(selected) {
        return None;
      }
      isSubmitting := true;
      request := Some(InsertRequest(snippetId, selected.value, Trim(newComment), OrAnonymous(authorName), viewer));
    }

    /** Second half, when the insert completes: on success the returned record is
        appended to the line of the request (the entry created if absent) and both
        fields are cleared; on failure nothing but the flag changes. */
    method FinishSubmit(request: InsertRequest, inserted: Option<Comment>)
      modifies this`comments, this`newComment, this`authorName, this`isSubmitting
      ensures !isSubmitting
      ensures inserted.Some? ==>
        && comments == Append(old(comments), request.lineNumber, inserted.value)
        && newComment == [] && authorName == []
      ensures inserted.None? ==>
        comments == old(comments) && newComment == old(newComment) && authorName == old(authorName)
      ensures (inserted.Some? && inserted.value.lineNumber == request.lineNumber
               && old(WellKeyed(comments) && NoEmptyLines(comments))) ==>
        && WellKeyed(comments) && NoEmptyLines(comments)
        && multiset(Flatten(comments)) == multiset(Flatten(old(comments))) + multiset{inserted.value}
    {
      if inserted.Some? {
        var updated := comments;
        ghost var prior := if request.lineNumber in comments then comments[request.lineNumber] else [];
        if request.lineNumber !in updated {
          updated := updated[request.lineNumber := []];
        }
        assert updated[request.lineNumber] == prior;
        updated := updated[request.lineNumber := updated[request.lineNumber] + [inserted.value]];
        assert updated == comments[request.lineNumber := prior + [inserted.value]];
        if inserted.value.lineNumber == request.lineNumber && WellKeyed(comments) && NoEmptyLines(comments) {
          AppendKeepsIndex(comments, request.lineNumber, inserted.value);
        }
        AppendConserves(comments, request.lineNumber, inserted.value);
        assert updated == Append(comments, request.lineNumber, inserted.value);
        comments := updated;
        newComment := [];
        authorName := [];
      }
      isSubmitting := false;
    }

    /** Pressing the enabled "Add Comment" button. The composer is rendered only
        while a line is selected, so the press always sends an insert for that line
        with non-empty text, and the button is disabled until the insert settles. */
    method PressSubmit(selected: Option<int>) returns (request: Option<InsertRequest>)
      requires SubmitEnabled() && !NoLine(selected)
      modifies this`isSubmitting
      ensures request.Some? && isSubmitting && !SubmitEnabled()
      ensures request.value.lineNumber == selected.value && request.value.text != []
    {
      request := BeginSubmit(selected);
    }

    /** `startEditing`. */
    method StartEditing(c: Comment)
      modifies this`editingComment, this`editedContent
      ensures editingComment == Some(c.id) && editedContent == c.text
    {
      editingComment := Some(c.id);
      editedContent := c.text;
    }

    /** Typing into the edit field. */
    method SetEditedContent(s: string)
      modifies this`editedContent
      ensures editedContent == s
    {
      editedContent := s;
    }

    /** The Cancel button of the edit form. */
    method CancelEditing()
      modifies this`editingComment, this`editedContent
      ensures editingComment == None && editedContent == []
    {
      editingComment := None;
      editedContent := [];
    }

    /** `handleEditComment`: blank content sends nothing and changes nothing;
        otherwise the update carries the trimmed content, and on success every
        comment with that id gets it as its text and the edit form closes. */
    method EditComment(commentId: string, succeeded: bool) returns (update: Option<string>)
      modifies this`comments, this`editingComment, this`editedContent
      ensures update.None? <==> IsBlank(old(editedContent))
      ensures update.Some? ==> update.value == Trim(old(editedContent))
      ensures update.Some? && succeeded ==>
        && comments == EditText(old(comments), commentId, update.value)
        && editingComment == None && editedContent == []
      ensures update.None? || !succeeded ==>
        && comments == old(comments)
        && editingComment == old(editingComment) && editedContent == old(editedContent)
    {
      if IsBlank(editedContent) {
        return None;
      }
      var text := Trim(editedContent);
      update := Some(text);
      if succeeded {
        comments := map k | k in comments :: EditLine(comments[k], commentId, text);
        editingComment := None;
        editedContent := [];
      }
    }

    /** `handleDeleteComment`: the delete is always sent; on success the comment
        leaves its line and the line's key goes when nothing is left on it. */
    method DeleteComment(commentId: string, lineNumber: int, succeeded: bool)
      modifies this`comments
      ensures comments == if succeeded then RemoveFromLine(old(comments), lineNumber, commentId)
                          else old(comments)
    {
      if succeeded && lineNumber in comments {
        var kept := WithoutId(comments[lineNumber], commentId);
        if kept == [] {
          comments := comments - {lineNumber};
        } else {
          comments := comments[lineNumber := kept];
        }
      }
    }

    /** The Edit and Delete controls are offered on `c`: only to a viewer with an
        identity, on the comments stored with it. This uses the corrected ownership
        check; `OwnerMatchesAsWritten` is the check as the source writes it. */
    predicate ControlsOffered(c: Comment)
      reads this
      ensures ControlsOffered(c) ==> viewer.Some? && c.owner == Token(viewer.value)
      ensures viewer.Some? ==> (ControlsOffered(c) <==> OwnerMatchesAsWritten(c.owner, viewer))
    {
      CanModify(c.owner, viewer)
    }
  }
}
