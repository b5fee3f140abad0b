/** The comment record shared by the viewer, the thread and the inline composer. */
module Comments {

  /** `anonymous_user_id?: string | null`: the field may be missing, null, or an
      identity token. */
  datatype OwnerField = Missing | Null | Token(id: string)

  /** One stored comment. Timestamps are instants as integers (later is larger). */
  datatype Comment = Comment(
    id: string,
    snippetId: string,
    lineNumber: int,
    text: string,
    authorName: string,
    createdAt: int,
    updatedAt: int,
    owner: OwnerField)
}
