/** The snippet viewer: grouping the loaded comments by line, the line-number
    gutter, the line-selection toggle, the comments-panel switch, and the scroll
    synchronisation between the gutter and the code pane. */
module CodeViewerComponent {
  import opened Wrappers
  import opened Text
  import opened Comments
  import opened CommentIndex
  import SyntaxHighlight
  import opened CommentThreadComponent

  /** The body of the reducer: `if (!acc[k]) acc[k] = []; acc[k].push(c)`. */
  method Push(acc: ByLine, k: int, c: Comment) returns (r: ByLine)
    ensures r == Append(acc, k, c)
  {
    ghost var prior := if k in acc then acc[k] else [];
    r := acc;
    if k !in r {
      r := r[k := []];
    }
    assert r[k] == prior;
    r := r[k := r[k] + [c]];
    assert r == acc[k := prior + [c]];
  }

  /** `comments.reduce(...)`: builds the line index one comment at a time, creating a
      line's list the first time the line is met. */
  method GroupByLine(comments: seq<Comment>) returns (acc: ByLine)
    ensures acc == Group(comments)
  {
    acc := map[];
    for i := 0 to |comments|
      invariant acc == Group(comments[..i])
    {
      var c := comments[i];
      GroupSnoc(comments[..i], c);
      acc := Push(acc, c.lineNumber, c);
      assert comments[..i + 1] == comments[..i] + [c];
    }
    assert comments[..|comments|] == comments;
  }

  /** One row of the gutter: its number and its two highlight flags. */
  datatype GutterRow = GutterRow(lineNumber: int, hasComments: bool, isSelected: bool)

  /** `codeLines.map((_, index) => ...)`: one row per piece of `code.split("\n")`. */
  function GutterRows(code: string, byLine: ByLine, selected: Option<int>): (rows: seq<GutterRow>)
    ensures |rows| == LineFeeds(code) + 1
  {
    var lines := SplitLines(code);
    seq(|lines|, i requires 0 <= i < |lines| =>
      var n := i + 1;
      GutterRow(n, n in byLine && |byLine[n]| > 0, selected == Some(n)))
  }

  /** The gutter built from the grouped comments numbers its rows 1..n in order, one
      per line of the raw code and as many as the highlighted (normalised) body has;
      a row is marked as commented exactly when some loaded comment is on that line,
      and as selected exactly when it is the selected line. */
  lemma GutterSpec(code: string, comments: seq<Comment>, selected: Option<int>)
    ensures var rows := GutterRows(code, Group(comments), selected);
      && |rows| == |SplitLines(code)|
      && |rows| == |SplitLines(SyntaxHighlight.NormalizeLineBreaks(code))|
      && (forall i | 0 <= i < |rows| :: rows[i].lineNumber == i + 1)
      && (forall i | 0 <= i < |rows| ::
            rows[i].hasComments <==> exists c :: c in comments && c.lineNumber == i + 1)
      && (forall i | 0 <= i < |rows| :: rows[i].isSelected <==> selected == Some(i + 1))
  {
    var rows := GutterRows(code, Group(comments), selected);
    SyntaxHighlight.SameLineCountAsRaw(code);
    GroupIsIndex(comments);
    forall i | 0 <= i < |rows|
      ensures rows[i].hasComments <==> exists c :: c in comments && c.lineNumber == i + 1
    {
      if exists c :: c in comments && c.lineNumber == i + 1 {
        var c :| c in comments && c.lineNumber == i + 1;
        assert i + 1 in LinesOf(comments);
      }
    }
  }

  /** `selectedLine === lineNumber ? null : lineNumber`. */
  function Clicked(selected: Option<int>, line: int): (r: Option<int>)
    ensures r == None <==> selected == Some(line)
    ensures r != None ==> r == Some(line)
  {
    if selected == Some(line) then None else Some(line)
  }

  /** Clicking the selected line clears the selection; clicking any other line
      selects exactly that line; clicking a line twice from no selection returns
      to no selection. */
  lemma ClickToggles(selected: Option<int>, line: int)
    ensures selected == Some(line) ==> Clicked(selected, line) == None
    ensures selected != Some(line) ==> Clicked(selected, line) == Some(line)
    ensures Clicked(Clicked(None, line), line) == None
  {
  }

  /** The state of the viewer component. The comment panel is mounted exactly while
      `showComments` holds; `panel` is the mounted one. */
  class CodeViewer {
    const snippetId: string
    const code: string
    const comments: seq<Comment>
    var selectedLine: Option<int>
    var showComments: bool
    var panel: CommentThread?

    /** A freshly mounted panel: its index is the grouping of the loaded comments,
        every field is empty and the identity is not known yet. */
    predicate FreshPanel()
      reads this, panel
      ensures FreshPanel() ==> panel != null && panel.comments == Group(comments)
    {
      && panel != null
      && panel.snippetId == snippetId
      && panel.comments == Group(comments)
      && panel.viewer == None
      && panel.newComment == [] && panel.authorName == [] && !panel.isSubmitting
      && panel.editingComment == None && panel.editedContent == []
    }

    constructor (snippetId: string, code: string, comments: seq<Comment>)
      ensures this.snippetId == snippetId && this.code == code && this.comments == comments
      ensures selectedLine == None && showComments
      ensures fresh(panel) && FreshPanel()
    {
      this.snippetId := snippetId;
      this.code := code;
      this.comments := comments;
      selectedLine := None;
      showComments := true;
      var byLine := GroupByLine(comments);
      panel := new CommentThread(snippetId, byLine);
    }

    /** `handleLineClick`. */
    method HandleLineClick(line: int)
      modifies this`selectedLine
      ensures selectedLine == Clicked(old(selectedLine), line)
    {
      selectedLine := if selectedLine == Some(line) then None else Some(line);
    }

    /** `onLineSelect` as the comment thread calls it: Cancel passes null, "Go to
        line" and a line badge pass that line. */
    method SelectLine(line: Option<int>)
      modifies this`selectedLine
      ensures selectedLine == line
    {
      selectedLine := line;
    }

    /** The Hide/Show Comments button. Hiding unmounts the panel. Showing mounts a
        new one, so it starts again from the grouping of the loaded comments: what
        was added, edited or deleted in the old panel is gone from it, and its
        identity is unknown until the session lookup completes again. The selection
        is kept, so the composer reopens on the same line. */
    method ToggleComments()
      modifies this`showComments, this`panel
      ensures showComments == !old(showComments)
      ensures showComments ==> fresh(panel) && FreshPanel()
      ensures !showComments ==> panel == null
    {
      showComments := !showComments;
      if showComments {
        var byLine := GroupByLine(comments);
        panel := new CommentThread(snippetId, byLine);
      } else {
        panel := null;
      }
    }

    /** The gutter as rendered: the grouping of the loaded comments and the current
        selection. */
    method RenderGutter() returns (rows: seq<GutterRow>)
      ensures rows == GutterRows(code, Group(comments), selectedLine)
    {
      var byLine := GroupByLine(comments);
      rows := GutterRows(code, byLine, selectedLine);
    }
  }

  /** The two scrollable panes. */
  datatype Pane = Gutter | Code

  /** The two pane refs (either may not be attached) and their scroll offsets. */
  class ScrollSync {
    var gutterAttached: bool
    var codeAttached: bool
    var gutterTop: int
    var codeTop: int

    constructor (gutterAttached: bool, codeAttached: bool)
      ensures this.gutterAttached == gutterAttached && this.codeAttached == codeAttached
      ensures gutterTop == 0 && codeTop == 0
    {
      this.gutterAttached := gutterAttached;
      this.codeAttached := codeAttached;
      gutterTop, codeTop := 0, 0;
    }

    /** The user scrolls one pane to `offset`. */
    method UserScroll(pane: Pane, offset: int)
      modifies this
      ensures gutterAttached == old(gutterAttached) && codeAttached == old(codeAttached)
      ensures gutterTop == (if pane == Gutter then offset else old(gutterTop))
      ensures codeTop == (if pane == Code then offset else old(codeTop))
    {
      if pane == Gutter { gutterTop := offset; } else { codeTop := offset; }
    }

    /** `handleScroll` for a scroll event from `source`: with both refs attached the
        other pane takes the source's offset and the source is untouched; otherwise
        nothing changes. */
    method HandleScroll(source: Pane)
      modifies this
      ensures gutterAttached == old(gutterAttached) && codeAttached == old(codeAttached)
      ensures !(gutterAttached && codeAttached) ==> gutterTop == old(gutterTop) && codeTop == old(codeTop)
      ensures gutterAttached && codeAttached && source == Code ==>
        gutterTop == old(codeTop) && codeTop == old(codeTop)
      ensures gutterAttached && codeAttached && source == Gutter ==>
        codeTop == old(gutterTop) && gutterTop == old(gutterTop)
    {
      if gutterAttached && codeAttached {
        var scrollTop := if source == Code then codeTop else gutterTop;
        if source == Code {
          gutterTop := scrollTop;
        } else {
          codeTop := scrollTop;
        }
      }
    }

    /** A user scroll, the synchronising handler, and the scroll event that setting
        the other pane fires in turn: both panes end at the user's offset, and the
        echoed event changes nothing, so there is no oscillation. */
    method ScrollAndEcho(pane: Pane, offset: int)
      requires gutterAttached && codeAttached
      modifies this
      ensures gutterTop == offset && codeTop == offset
    {
      UserScroll(pane, offset);
      HandleScroll(pane);
      var top, other := gutterTop, codeTop;
      HandleScroll(if pane == Code then Gutter else Code);
      assert gutterTop == top && codeTop == other;
    }
  }
}
