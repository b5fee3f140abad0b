/** The "All Comments" list: every comment of the index, each tagged with the line
    key it is stored under, ordered newest first by a stable sort. */
module CommentOrder {
  import opened Comments
  import opened CommentIndex

  /** `lineComments.map(c => ({...c, line_number: Number(lineNumber)}))`. */
  function Tag(cs: seq<Comment>, k: int): (r: seq<Comment>)
    ensures |r| == |cs|
  {
    seq(|cs|, i requires 0 <= i < |cs| => cs[i].(lineNumber := k))
  }

  /** Every list of the index tagged with its key. */
  function TagKeys(m: ByLine): ByLine
  {
    map k | k in m :: Tag(m[k], k)
  }

  /** Tagging makes any index well keyed, and changes nothing in one that already is. */
  lemma TagKeysIndex(m: ByLine)
    ensures TagKeys(m).Keys == m.Keys
    ensures WellKeyed(TagKeys(m))
    ensures WellKeyed(m) ==> TagKeys(m) == m
  {
    if WellKeyed(m) {
      forall k | k in m ensures Tag(m[k], k) == m[k] {
        forall i | 0 <= i < |m[k]| ensures m[k][i].(lineNumber := k) == m[k][i] {
          assert m[k][i] in m[k];
        }
      }
    }
  }

  /** The comments of `s` created at instant `t`, in order. */
  function AtTime(s: seq<Comment>, t: int): seq<Comment>
  {
    if s == [] then []
    else (if s[0].createdAt == t then [s[0]] else []) + AtTime(s[1..], t)
  }

  /** Ordered by `created_at`, newest first. */
  predicate NewestFirst(s: seq<Comment>)
  {
    forall i, j | 0 <= i < j < |s| :: s[i].createdAt >= s[j].createdAt
  }

  /** Inserting `c` into a newest-first list, before every comment not newer than it. */
  function InsertNewestFirst(c: Comment, s: seq<Comment>): (r: seq<Comment>)
    ensures multiset(r) == multiset(s) + multiset{c}
  {
    if s == [] || s[0].createdAt <= c.createdAt then [c] + s
    else
      assert s == [s[0]] + s[1..];
      [s[0]] + InsertNewestFirst(c, s[1..])
  }

  /** AtTime of a list with a known first element. */
  lemma AtTimeCons(x: Comment, s: seq<Comment>, t: int)
    ensures AtTime([x] + s, t) == (if x.createdAt == t then [x] else []) + AtTime(s, t)
  {
    assert ([x] + s)[1..] == s;
  }

  /** The entries of an insertion are the inserted comment and the old entries. */
  lemma InsertMembers(c: Comment, s: seq<Comment>)
    ensures forall x | x in InsertNewestFirst(c, s) :: x == c || x in s
  {
    forall x | x in InsertNewestFirst(c, s) ensures x == c || x in s {
      assert x in multiset(InsertNewestFirst(c, s));
    }
  }

  /** In a newest-first list nothing after the head is newer than the head. */
  lemma HeadIsNewest(s: seq<Comment>)
    requires NewestFirst(s) && s != []
    ensures forall x | x in s[1..] :: x.createdAt <= s[0].createdAt
  {
    forall x | x in s[1..] ensures x.createdAt <= s[0].createdAt {
      var k :| 0 <= k < |s[1..]| && s[1..][k] == x;
      assert s[k + 1] == x;
    }
  }

  /** Insertion keeps a list newest first. */
  lemma {:induction false} InsertKeepsOrder(c: Comment, s: seq<Comment>)
    requires NewestFirst(s)
    ensures NewestFirst(InsertNewestFirst(c, s))
  {
    if !(s == [] || s[0].createdAt <= c.createdAt) {
      var rest := InsertNewestFirst(c, s[1..]);
      var r := [s[0]] + rest;
      assert NewestFirst(s[1..]);
      InsertKeepsOrder(c, s[1..]);
      InsertMembers(c, s[1..]);
      HeadIsNewest(s);
      assert forall x | x in rest :: x.createdAt <= s[0].createdAt;
      forall i, j | 0 <= i < j < |r| ensures r[i].createdAt >= r[j].createdAt {
        assert r[j] == rest[j - 1] && rest[j - 1] in rest;
        if i > 0 {
          assert r[i] == rest[i - 1];
        }
      }
    }
  }

  /** Insertion is stable: among comments created at one instant, `c` comes first and
      the others keep their order. */
  lemma {:induction false} InsertStable(c: Comment, s: seq<Comment>, t: int)
    ensures AtTime(InsertNewestFirst(c, s), t) == (if c.createdAt == t then [c] else []) + AtTime(s, t)
  {
    if s == [] || s[0].createdAt <= c.createdAt {
      AtTimeCons(c, s, t);
    } else {
      var rest := InsertNewestFirst(c, s[1..]);
      InsertStable(c, s[1..], t);
      AtTimeCons(s[0], rest, t);
      AtTimeCons(s[0], s[1..], t);
      assert s == [s[0]] + s[1..];
    }
  }

  /** `.sort((a, b) => b.created_at - a.created_at)`, as an insertion sort. */
  function SortNewestFirst(s: seq<Comment>): (r: seq<Comment>)
    ensures multiset(r) == multiset(s) && |r| == |s|
  {
    if s == [] then []
    else
      var r := InsertNewestFirst(s[0], SortNewestFirst(s[1..]));
      assert s == [s[0]] + s[1..];
      assert |r| == |multiset(r)|;
      r
  }

  /** The sort orders newest first, and it is stable (as JavaScript's sort is):
      comments created at the same instant keep their relative order. */
  lemma {:induction false} SortSpec(s: seq<Comment>)
    ensures NewestFirst(SortNewestFirst(s))
    ensures forall t :: AtTime(SortNewestFirst(s), t) == AtTime(s, t)
  {
    if s != [] {
      SortSpec(s[1..]);
      InsertKeepsOrder(s[0], SortNewestFirst(s[1..]));
      forall t ensures AtTime(SortNewestFirst(s), t) == AtTime(s, t) {
        InsertStable(s[0], SortNewestFirst(s[1..]), t);
      }
    }
  }

  /** `allComments`: the flattened, tagged index sorted newest first. */
  ghost function AllComments(m: ByLine): (r: seq<Comment>)
    ensures multiset(r) == multiset(Flatten(TagKeys(m)))
  {
    SortNewestFirst(Flatten(TagKeys(m)))
  }

  /** Every entry of the list is a stored comment carrying its key as line number. */
  lemma AllCommentsMembers(m: ByLine)
    ensures forall e | e in AllComments(m) ::
      e.lineNumber in m && e in Tag(m[e.lineNumber], e.lineNumber)
  {
    var tk := TagKeys(m);
    TagKeysIndex(m);
    FlattenMembers(tk);
    forall e | e in AllComments(m)
      ensures e.lineNumber in m && e in Tag(m[e.lineNumber], e.lineNumber)
    {
      assert e in multiset(AllComments(m));
      assert e in Flatten(tk);
      var k :| k in tk && e in tk[k];
    }
  }

  /** The list has one entry per stored comment, it is newest first, comments created
      at the same instant keep the ascending-line order of the index, and for a
      well-keyed index it is a permutation of the stored comments. */
  lemma AllCommentsSpec(m: ByLine)
    ensures |AllComments(m)| == |Flatten(m)|
    ensures NewestFirst(AllComments(m))
    ensures forall t :: AtTime(AllComments(m), t) == AtTime(Flatten(TagKeys(m)), t)
    ensures WellKeyed(m) ==> multiset(AllComments(m)) == multiset(Flatten(m))
  {
    TagKeysIndex(m);
    FlattenSameShape(TagKeys(m), m);
    SortSpec(Flatten(TagKeys(m)));
  }
}
