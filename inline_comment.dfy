/** The inline comment block: the comments of one line and, when it is the block of
    a new comment, the composer with its own draft, author and submitting flag. The
    parent's `onAddComment` is the network call: it resolves or rejects. */
module InlineCommentComponent {
  import opened Wrappers
  import opened Text

  /** The arguments `onAddComment` is called with. */
  datatype AddCall = AddCall(text: string, authorName: string)

  class InlineComment {
    const isNew: bool
    var newComment: string
    var authorName: string
    var isSubmitting: bool

    constructor (isNew: bool)
      ensures this.isNew == isNew
      ensures newComment == [] && authorName == [] && !isSubmitting
    {
      this.isNew := isNew;
      newComment, authorName, isSubmitting := [], [], false;
    }

    /** The composer form is rendered only in the block of a new comment. */
    predicate FormShown()
      reads this
    {
      isNew
    }

    /** Typing into the comment field. */
    method SetNewComment(s: string)
      modifies this`newComment
      ensures newComment == s
    {
      newComment := s;
    }

    /** Typing into the name field. */
    method SetAuthorName(s: string)
      modifies this`authorName
      ensures authorName == s
    {
      authorName := s;
    }

    /** The "Add Comment" button is enabled: a non-blank draft and no submit in
        flight. */
    predicate SubmitEnabled()
      reads this
      ensures SubmitEnabled() ==> Trim(newComment) != [] && !isSubmitting
    {
      !IsBlank(newComment) && !isSubmitting
    }

    /** First half of `handleSubmit`, up to the awaited call: a blank draft does
        nothing; otherwise the block is marked as submitting and `onAddComment` gets
        the trimmed text and the trimmed author, or "Anonymous" for a blank one. */
    method BeginSubmit() returns (call: Option<AddCall>)
      modifies this`isSubmitting
      ensures call.None? <==> IsBlank(newComment)
      ensures call.None? ==> isSubmitting == old(isSubmitting)
      ensures call.Some? ==> isSubmitting
      ensures call.Some? ==> call.value == AddCall(Trim(newComment), OrAnonymous(authorName))
    {
      if IsBlank(newComment) {
        return None;
      }
      isSubmitting := true;
      call := Some(AddCall(Trim(newComment), OrAnonymous(authorName)));
    }

    /** Second half, when the call settles: on success both fields are cleared, on
        failure they are kept; the flag is cleared in either case (`finally`). */
    method FinishSubmit(succeeded: bool)
      modifies this`newComment, this`authorName, this`isSubmitting
      ensures !isSubmitting
      ensures succeeded ==> newComment == [] && authorName == []
      ensures !succeeded ==> newComment == old(newComment) && authorName == old(authorName)
    {
      if succeeded {
        newComment := [];
        authorName := [];
      }
      isSubmitting := false;
    }

    /** The button exists only in the form of a new comment's block. Whenever it is
        enabled, pressing it issues the call; while a call is in flight the button is
        disabled. */
    method PressAdd() returns (call: Option<AddCall>)
      requires FormShown() && SubmitEnabled()
      modifies this`isSubmitting
      ensures call.Some? && isSubmitting && !SubmitEnabled()
      ensures call.value.text != [] && call.value.authorName != []
    {
      call := BeginSubmit();
    }
  }

  /** The text handed to `onAddComment` is never blank, is already trimmed, and the
      author is never empty. */
  lemma AddCallWellFormed(draft: string, author: string)
    requires !IsBlank(draft)
    ensures var call := AddCall(Trim(draft), OrAnonymous(author));
      && call.text != [] && Trim(call.text) == call.text && call.authorName != []
  {
    TrimIdempotent(draft);
  }
}
