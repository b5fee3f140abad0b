/** The comments of one snippet held as a record from line number to the comments on
    that line (`Record<number, Comment[]>`), and the operations that keep it. */
module CommentIndex {
  import opened Comments

  type ByLine = map<int, seq<Comment>>

  /** Every comment sits under the key equal to its line number. */
  predicate WellKeyed(m: ByLine)
  {
    forall k, c | k in m && c in m[k] :: c.lineNumber == k
  }

  /** No key maps to an empty list. */
  predicate NoEmptyLines(m: ByLine)
  {
    forall k | k in m :: m[k] != []
  }

  // ---------------------------------------------------------------------------
  // Grouping a flat list

  /** The comments of `cs` on line `k`, in the order of `cs`. */
  function OnLine(cs: seq<Comment>, k: int): (r: seq<Comment>)
    ensures forall c | c in r :: c in cs && c.lineNumber == k
  {
    if cs == [] then []
    else OnLine(cs[..|cs| - 1], k) + (if cs[|cs| - 1].lineNumber == k then [cs[|cs| - 1]] else [])
  }

  /** The line numbers that some comment of `cs` carries. */
  function LinesOf(cs: seq<Comment>): set<int>
  {
    set c | c in cs :: c.lineNumber
  }

  /** The grouping of a flat list by line. */
  function Group(cs: seq<Comment>): (r: ByLine)
    ensures forall k, c | k in r && c in r[k] :: c in cs && c.lineNumber == k
  {
    map k | k in LinesOf(cs) :: OnLine(cs, k)
  }

  /** A line that no comment carries has no comments. */
  lemma {:induction false} OnLineAbsent(cs: seq<Comment>, k: int)
    requires k !in LinesOf(cs)
    ensures OnLine(cs, k) == []
  {
    if cs != [] {
      var init := cs[..|cs| - 1];
      assert LinesOf(init) <= LinesOf(cs);
      OnLineAbsent(init, k);
    }
  }

  /** Appending `c` to `m` under key `k`, creating the entry when it is absent:
      `if (!acc[k]) acc[k] = []; acc[k].push(c)`. */
  function Append(m: ByLine, k: int, c: Comment): (r: ByLine)
    ensures k in r && |r[k]| > 0 && r[k][|r[k]| - 1] == c
    ensures forall j | j in m && j != k :: j in r && r[j] == m[j]
  {
    m[k := (if k in m then m[k] else []) + [c]]
  }

  /** Grouping a list extended by one comment appends that comment to its line:
      each line's list holds the comments in input order. */
  lemma GroupSnoc(cs: seq<Comment>, c: Comment)
    ensures Group(cs + [c]) == Append(Group(cs), c.lineNumber, c)
  {
    var g, g' := Group(cs), Group(cs + [c]);
    var a := Append(g, c.lineNumber, c);
    assert (cs + [c])[..|cs|] == cs;
    assert LinesOf(cs + [c]) == LinesOf(cs) + {c.lineNumber};
    forall k | k in g'
      ensures k in a && g'[k] == a[k]
    {
      if k !in LinesOf(cs) {
        OnLineAbsent(cs, k);
      }
    }
  }

  /** The grouping is well keyed and has no empty lists. */
  lemma {:induction false} GroupIsIndex(cs: seq<Comment>)
    ensures WellKeyed(Group(cs)) && NoEmptyLines(Group(cs))
  {
    if cs != [] {
      var init, c := cs[..|cs| - 1], cs[|cs| - 1];
      assert cs == init + [c];
      GroupIsIndex(init);
      GroupSnoc(init, c);
      AppendKeepsIndex(Group(init), c.lineNumber, c);
    }
  }

  /** Appending a comment under its own line number keeps an index well formed. */
  lemma AppendKeepsIndex(m: ByLine, k: int, c: Comment)
    requires WellKeyed(m) && NoEmptyLines(m) && c.lineNumber == k
    ensures WellKeyed(Append(m, k, c)) && NoEmptyLines(Append(m, k, c))
  {
  }

  /** The appended comment is the last of its line; earlier comments there and all
      other lines are untouched. */
  lemma AppendPlacesLast(m: ByLine, k: int, c: Comment)
    ensures k in Append(m, k, c) && Append(m, k, c).Keys == m.Keys + {k}
    ensures var r := Append(m, k, c)[k];
      r[|r| - 1] == c && r[..|r| - 1] == (if k in m then m[k] else [])
    ensures forall j | j in m && j != k :: Append(m, k, c)[j] == m[j]
  {
    var r := Append(m, k, c)[k];
    assert r[..|r| - 1] == (if k in m then m[k] else []);
  }

  /** Appends to different lines commute: two submissions that complete in either
      order leave the same index. */
  lemma AppendCommutes(m: ByLine, k1: int, c1: Comment, k2: int, c2: Comment)
    requires k1 != k2
    ensures Append(Append(m, k1, c1), k2, c2) == Append(Append(m, k2, c2), k1, c1)
  {
  }

  // ---------------------------------------------------------------------------
  // Reading the index out in ascending line order

  /** A non-empty set of lines has a member. */
  lemma HasMember(s: set<int>)
    requires s != {}
    ensures exists x :: x in s
  {
    if forall x :: x !in s {
      assert false;
    }
  }

  /** The least element of a non-empty finite set of lines. */
  ghost function MinKey(s: set<int>): (k: int)
    requires s != {}
    ensures k in s && forall j | j in s :: k <= j
  {
    HasMember(s);
    var x :| x in s;
    if s == {x} then x
    else
      var y := MinKey(s - {x});
      assert forall j | j in s :: j == x || j in s - {x};
      if x <= y then x else y
  }

  /** The keys of a set in ascending order (the order in which `Object.entries`
      lists integer keys, and the order of the sort by `Number(key)`). */
  ghost function SortedKeys(s: set<int>): (r: seq<int>)
    ensures |r| == |s|
    ensures forall k :: k in r <==> k in s
    ensures forall i, j | 0 <= i < j < |r| :: r[i] < r[j]
    decreases |s|
  {
    if s == {} then []
    else
      var k := MinKey(s);
      var rest := SortedKeys(s - {k});
      SortedKeysStep(s, k, rest);
      [k] + rest
  }

  /** The least key followed by the ascending rest is ascending. */
  lemma SortedKeysStep(s: set<int>, k: int, rest: seq<int>)
    requires k in s && forall j | j in s :: k <= j
    requires |rest| == |s - {k}|
    requires forall x :: x in rest <==> x in s - {k}
    requires forall i, j | 0 <= i < j < |rest| :: rest[i] < rest[j]
    ensures |[k] + rest| == |s|
    ensures forall x :: x in [k] + rest <==> x in s
    ensures forall i, j | 0 <= i < j < |[k] + rest| :: ([k] + rest)[i] < ([k] + rest)[j]
  {
    var r := [k] + rest;
    assert |s - {k}| == |s| - 1;
    forall x ensures x in r <==> x in s {
      assert x in r <==> x == k || x in rest;
    }
    forall i, j | 0 <= i < j < |r| ensures r[i] < r[j] {
      assert r[j] == rest[j - 1] && rest[j - 1] in rest;
      if i > 0 {
        assert r[i] == rest[i - 1];
      }
    }
  }

  /** All comments of the index, line after line in ascending line order. Its length
      is the sum of the lengths of the per-line lists. */
  ghost function Flatten(m: ByLine): seq<Comment>
    decreases |m|
  {
    if m == map[] then []
    else
      var k := MinKey(m.Keys);
      assert |m - {k}| < |m| by { assert (m - {k}).Keys == m.Keys - {k}; }
      m[k] + Flatten(m - {k})
  }

  /** The "Comments by Line" panel: one section per key, in ascending line order. */
  ghost function LineSections(m: ByLine): (r: seq<(int, seq<Comment>)>)
    ensures |r| == |m|
    ensures forall i | 0 <= i < |r| :: r[i].0 in m && r[i].1 == m[r[i].0]
    ensures forall i, j | 0 <= i < j < |r| :: r[i].0 < r[j].0
    ensures forall k | k in m :: (k, m[k]) in r
  {
    var keys := SortedKeys(m.Keys);
    KeysInMap(m, keys);
    var r := Sections(m, keys);
    SectionsSpec(m, keys, r);
    r
  }

  lemma KeysInMap(m: ByLine, keys: seq<int>)
    requires forall k :: k in keys <==> k in m.Keys
    ensures forall i | 0 <= i < |keys| :: keys[i] in m
  {
    forall i | 0 <= i < |keys| ensures keys[i] in m {
      var k := keys[i];
      assert k in keys;
      assert k in m.Keys;
    }
  }

  lemma SectionsSpec(m: ByLine, keys: seq<int>, r: seq<(int, seq<Comment>)>)
    requires |keys| == |m.Keys|
    requires forall k :: k in keys <==> k in m.Keys
    requires forall i, j | 0 <= i < j < |keys| :: keys[i] < keys[j]
    requires |r| == |keys|
    requires forall i | 0 <= i < |r| :: keys[i] in m && r[i] == (keys[i], m[keys[i]])
    ensures |r| == |m|
    ensures forall i | 0 <= i < |r| :: r[i].0 in m && r[i].1 == m[r[i].0]
    ensures forall i, j | 0 <= i < j < |r| :: r[i].0 < r[j].0
    ensures forall k | k in m :: (k, m[k]) in r
  {
    assert |m| == |m.Keys|;
    SectionsCover(m, keys, r);
  }

  /** The section of each listed key, in the order of `keys`. */
  function Sections(m: ByLine, keys: seq<int>): (r: seq<(int, seq<Comment>)>)
    requires forall i | 0 <= i < |keys| :: keys[i] in m
    ensures |r| == |keys|
    ensures forall i | 0 <= i < |r| :: keys[i] in m && r[i] == (keys[i], m[keys[i]])
  {
    if keys == [] then []
    else [(keys[0], m[keys[0]])] + Sections(m, keys[1..])
  }

  lemma SectionsCover(m: ByLine, keys: seq<int>, r: seq<(int, seq<Comment>)>)
    requires forall k :: k in keys <==> k in m
    requires |r| == |keys|
    requires forall i | 0 <= i < |r| :: keys[i] in m && r[i] == (keys[i], m[keys[i]])
    ensures forall k | k in m :: (k, m[k]) in r
  {
    forall k | k in m ensures (k, m[k]) in r {
      var i := IndexOf(keys, k);
      assert r[i] == (k, m[k]);
    }
  }

  /** Position of `k` in `keys`. */
  function IndexOf(keys: seq<int>, k: int): (i: nat)
    requires k in keys
    ensures i < |keys| && keys[i] == k
  {
    if keys[0] == k then 0 else 1 + IndexOf(keys[1..], k)
  }

  /** Taking any one line out of the flattened index. */
  lemma {:induction false} FlattenRemove(m: ByLine, k: int)
    requires k in m
    ensures multiset(Flatten(m)) == multiset(m[k]) + multiset(Flatten(m - {k}))
    decreases |m|
  {
    var least := MinKey(m.Keys);
    if least != k {
      var rest := m - {least};
      assert rest.Keys == m.Keys - {least};
      FlattenRemove(rest, k);
      var without := m - {k};
      assert without.Keys == m.Keys - {k};
      assert MinKey(without.Keys) == least by {
        var b := MinKey(without.Keys);
        assert least in without.Keys;
        assert least <= b && b <= least;
      }
      assert without - {least} == rest - {k};
    }
  }

  /** Replacing the list of one line replaces its share of the flattened index. */
  lemma FlattenUpdate(m: ByLine, k: int, v: seq<Comment>)
    ensures multiset(Flatten(m[k := v])) == multiset(Flatten(m - {k})) + multiset(v)
  {
    FlattenRemove(m[k := v], k);
    assert m[k := v] - {k} == m - {k};
  }

  /** The flattened index holds exactly the comments of its lists. */
  lemma {:induction false} FlattenMembers(m: ByLine)
    ensures forall c :: c in Flatten(m) <==> exists k :: k in m && c in m[k]
    decreases |m|
  {
    if m != map[] {
      var least := MinKey(m.Keys);
      var rest := m - {least};
      assert rest.Keys == m.Keys - {least};
      FlattenMembers(rest);
      forall c | c in Flatten(m) ensures exists k :: k in m && c in m[k] {
        if c !in m[least] {
          assert c in Flatten(rest);
        }
      }
      forall c, k | k in m && c in m[k] ensures c in Flatten(m) {
        if k != least {
          assert k in rest;
        }
      }
    }
  }

  /** Two indexes with the same keys and the same list lengths flatten to the same
      number of comments. */
  lemma {:induction false} FlattenSameShape(m1: ByLine, m2: ByLine)
    requires m1.Keys == m2.Keys
    requires forall k | k in m1 :: |m1[k]| == |m2[k]|
    ensures |Flatten(m1)| == |Flatten(m2)|
    decreases |m1|
  {
    if m1 != map[] {
      var least := MinKey(m1.Keys);
      assert MinKey(m2.Keys) == least;
      assert (m1 - {least}).Keys == (m2 - {least}).Keys;
      FlattenSameShape(m1 - {least}, m2 - {least});
    }
  }

  /** Grouping loses and duplicates nothing: the flattened grouping is a
      permutation of the input. */
  lemma {:induction false} GroupConserves(cs: seq<Comment>)
    ensures multiset(Flatten(Group(cs))) == multiset(cs)
    ensures |Flatten(Group(cs))| == |cs|
  {
    if cs == [] {
      assert Group(cs) == map[];
    } else {
      var init, c := cs[..|cs| - 1], cs[|cs| - 1];
      assert cs == init + [c];
      GroupConserves(init);
      GroupSnoc(init, c);
      AppendConserves(Group(init), c.lineNumber, c);
    }
    assert |Flatten(Group(cs))| == |multiset(Flatten(Group(cs)))|;
  }

  /** Appending adds exactly the new comment to the flattened index. */
  lemma AppendConserves(m: ByLine, k: int, c: Comment)
    ensures multiset(Flatten(Append(m, k, c))) == multiset(Flatten(m)) + multiset{c}
  {
    var prior := if k in m then m[k] else [];
    FlattenUpdate(m, k, prior + [c]);
    if k in m {
      FlattenRemove(m, k);
    } else {
      assert m - {k} == m;
    }
  }

  // ---------------------------------------------------------------------------
  // Editing

  /** The list of one line with the text of every comment whose id is `id` set to
      `text`. */
  function EditLine(cs: seq<Comment>, id: string, text: string): (r: seq<Comment>)
  {
    seq(|cs|, i requires 0 <= i < |cs| => if cs[i].id == id then cs[i].(text := text) else cs[i])
  }

  /** `comment_text` of the comments with id `id` rewritten on every line. */
  function EditText(m: ByLine, id: string, text: string): (r: ByLine)
    ensures r.Keys == m.Keys
    ensures forall k | k in m :: |r[k]| == |m[k]|
  {
    map k | k in m :: EditLine(m[k], id, text)
  }

  /** Editing changes only the text, and only of the comments with that id; keys,
      lengths, order and all other fields (including `updated_at`) are kept. */
  lemma EditOnlyText(m: ByLine, id: string, text: string)
    ensures EditText(m, id, text).Keys == m.Keys
    ensures forall k | k in m :: |EditText(m, id, text)[k]| == |m[k]|
    ensures forall k, i | k in m && 0 <= i < |m[k]| ::
      EditText(m, id, text)[k][i] ==
        if m[k][i].id == id then m[k][i].(text := text) else m[k][i]
    ensures WellKeyed(m) ==> WellKeyed(EditText(m, id, text))
    ensures NoEmptyLines(m) ==> NoEmptyLines(EditText(m, id, text))
    ensures |Flatten(EditText(m, id, text))| == |Flatten(m)|
  {
    var r := EditText(m, id, text);
    if WellKeyed(m) {
      forall k: int, c: Comment | k in r && c in r[k] ensures c.lineNumber == k {
        var i :| 0 <= i < |r[k]| && r[k][i] == c;
        assert m[k][i] in m[k];
      }
    }
    FlattenSameShape(r, m);
  }

  /** Editing an id that no comment carries leaves the index as it was. */
  lemma EditAbsentId(m: ByLine, id: string, text: string)
    requires forall k, c | k in m && c in m[k] :: c.id != id
    ensures EditText(m, id, text) == m
  {
    forall k | k in m ensures EditLine(m[k], id, text) == m[k] {
      assert forall i | 0 <= i < |m[k]| :: m[k][i] in m[k];
    }
  }

  // ---------------------------------------------------------------------------
  // Deleting

  /** The comments of `cs` whose id is not `id`, in order. */
  function WithoutId(cs: seq<Comment>, id: string): (r: seq<Comment>)
    ensures forall c :: c in r <==> c in cs && c.id != id
  {
    if cs == [] then []
    else
      var last := cs[|cs| - 1];
      assert cs == cs[..|cs| - 1] + [last];
      WithoutId(cs[..|cs| - 1], id) + (if last.id != id then [last] else [])
  }

  /** The comments of `cs` whose id is `id`, in order. */
  function WithId(cs: seq<Comment>, id: string): seq<Comment>
  {
    if cs == [] then []
    else
      var last := cs[|cs| - 1];
      WithId(cs[..|cs| - 1], id) + (if last.id == id then [last] else [])
  }

  /** Filtering by id splits a list into the kept and the removed comments. */
  lemma {:induction false} WithoutIdSplits(cs: seq<Comment>, id: string)
    ensures multiset(WithoutId(cs, id)) + multiset(WithId(cs, id)) == multiset(cs)
  {
    if cs != [] {
      var init, last := cs[..|cs| - 1], cs[|cs| - 1];
      WithoutIdSplits(init, id);
      assert cs == init + [last];
      assert multiset(cs) == multiset(init) + multiset{last};
      if last.id != id {
        assert WithoutId(cs, id) == WithoutId(init, id) + [last];
        assert WithId(cs, id) == WithId(init, id);
      } else {
        assert WithoutId(cs, id) == WithoutId(init, id);
        assert WithId(cs, id) == WithId(init, id) + [last];
      }
    }
  }

  /** A list without the id comes back whole from the filter. */
  lemma {:induction false} WithoutAbsentId(cs: seq<Comment>, id: string)
    requires forall c | c in cs :: c.id != id
    ensures WithoutId(cs, id) == cs
  {
    if cs != [] {
      var init := cs[..|cs| - 1];
      assert cs == init + [cs[|cs| - 1]];
      WithoutAbsentId(init, id);
    }
  }

  /** Deleting comment `id` from line `k`: the line's list is filtered and the key
      dropped when nothing is left. An absent key makes the source's `filter` throw
      inside its `try`, so the index stays as it was. */
  function RemoveFromLine(m: ByLine, k: int, id: string): (r: ByLine)
    ensures r.Keys <= m.Keys
    ensures forall j | j in m && j != k :: j in r && r[j] == m[j]
    ensures k in r ==> forall c | c in r[k] :: c in m[k] && c.id != id
  {
    if k !in m then m
    else
      var kept := WithoutId(m[k], id);
      if kept == [] then m - {k} else m[k := kept]
  }

  /** Deleting keeps an index well formed, touches no other line and leaves no
      comment with that id on the line. */
  lemma RemoveKeepsIndex(m: ByLine, k: int, id: string)
    requires WellKeyed(m) && NoEmptyLines(m)
    ensures WellKeyed(RemoveFromLine(m, k, id)) && NoEmptyLines(RemoveFromLine(m, k, id))
    ensures forall j | j in m && j != k :: j in RemoveFromLine(m, k, id) && RemoveFromLine(m, k, id)[j] == m[j]
    ensures RemoveFromLine(m, k, id).Keys <= m.Keys
    ensures k in RemoveFromLine(m, k, id) ==> forall c | c in RemoveFromLine(m, k, id)[k] :: c.id != id
  {
  }

  /** Deleting removes exactly the comments of that line that carry the id. */
  lemma RemoveConserves(m: ByLine, k: int, id: string)
    requires k in m
    ensures multiset(Flatten(RemoveFromLine(m, k, id))) + multiset(WithId(m[k], id))
      == multiset(Flatten(m))
  {
    var kept := WithoutId(m[k], id);
    WithoutIdSplits(m[k], id);
    FlattenRemove(m, k);
    if kept != [] {
      FlattenUpdate(m, k, kept);
    }
  }

  /** Filtering a list extended by one comment. */
  lemma WithoutIdSnoc(cs: seq<Comment>, c: Comment, id: string)
    ensures WithoutId(cs + [c], id) == WithoutId(cs, id) + (if c.id != id then [c] else [])
  {
    assert (cs + [c])[..|cs|] == cs;
  }

  /** Filtering distributes over concatenation: the kept comments of each part stay
      in their order. */
  lemma {:induction false} WithoutIdConcat(a: seq<Comment>, b: seq<Comment>, id: string)
    ensures WithoutId(a + b, id) == WithoutId(a, id) + WithoutId(b, id)
    decreases |b|
  {
    if b == [] {
      assert a + b == a;
    } else {
      var init := b[..|b| - 1];
      assert (a + b)[..|a + b| - 1] == a + init;
      assert (a + b)[|a + b| - 1] == b[|b| - 1];
      WithoutIdConcat(a, init, id);
    }
  }

  /** Deleting a comment whose id is unique on its list removes just that comment
      and keeps the others in their order. */
  lemma RemoveUniqueKeepsOrder(a: seq<Comment>, c: Comment, b: seq<Comment>)
    requires forall d | d in a + b :: d.id != c.id
    ensures WithoutId(a + [c] + b, c.id) == a + b
  {
    assert forall d | d in a :: d in a + b;
    assert forall d | d in b :: d in a + b;
    WithoutAbsentId(a, c.id);
    WithoutAbsentId(b, c.id);
    WithoutIdSnoc(a, c, c.id);
    assert WithoutId(a + [c], c.id) == a;
    WithoutIdConcat(a + [c], b, c.id);
  }

  /** Deleting a comment from its line leaves the other comments of that line in
      their order, and drops the line when it was the only one. */
  lemma DeleteKeepsLineOrder(m: ByLine, k: int, a: seq<Comment>, c: Comment, b: seq<Comment>)
    requires k in m && m[k] == a + [c] + b
    requires forall d | d in a + b :: d.id != c.id
    ensures a + b == [] ==> k !in RemoveFromLine(m, k, c.id)
    ensures a + b != [] ==> k in RemoveFromLine(m, k, c.id) && RemoveFromLine(m, k, c.id)[k] == a + b
  {
    RemoveUniqueKeepsOrder(a, c, b);
  }

  /** Adding a fresh comment to a line and deleting it again restores the index. */
  lemma AppendThenRemove(m: ByLine, k: int, c: Comment)
    requires NoEmptyLines(m)
    requires k in m ==> forall d | d in m[k] :: d.id != c.id
    ensures RemoveFromLine(Append(m, k, c), k, c.id) == m
  {
    if k in m {
      AppendThenRemoveOnLine(m, k, c);
    } else {
      var a := Append(m, k, c);
      assert a[k] == [] + [c];
      WithoutIdSnoc([], c, c.id);
      assert WithoutId(a[k], c.id) == [];
      assert RemoveFromLine(a, k, c.id) == a - {k};
      assert a == m[k := [c]];
      assert a - {k} == m;
    }
  }

  /** The case of a line that already had comments. */
  lemma AppendThenRemoveOnLine(m: ByLine, k: int, c: Comment)
    requires k in m && m[k] != []
    requires forall d | d in m[k] :: d.id != c.id
    ensures RemoveFromLine(Append(m, k, c), k, c.id) == m
  {
    var a := Append(m, k, c);
    assert a[k] == m[k] + [c];
    WithoutIdSnoc(m[k], c, c.id);
    WithoutAbsentId(m[k], c.id);
    assert WithoutId(m[k], c.id) + [] == m[k];
    assert WithoutId(a[k], c.id) == m[k];
    assert RemoveFromLine(a, k, c.id) == a[k := m[k]];
    assert a[k := m[k]] == m;
  }
}
