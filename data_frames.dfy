/**
 * The pandas data-frame operations the two scripts rely on, over ordered
 * sequences of rows: `drop_duplicates` (the first row of each key is kept),
 * `merge(..., how='left')`, and the lookup such a merge performs against a
 * table whose keys are distinct.
 */
module DataFrames {
  import opened Optional

  predicate HasKey<T, K(==)>(xs: seq<T>, key: T -> K, k: K) {
    exists i | 0 <= i < |xs| :: key(xs[i]) == k
  }

  /** No two rows share a key: a table a left merge can look up functionally. */
  predicate KeysDistinct<T, K(==)>(xs: seq<T>, key: T -> K) {
    forall i, j :: 0 <= i < j < |xs| ==> key(xs[i]) != key(xs[j])
  }

  /** The first row of `xs` whose key is `k`. */
  function FirstWithKey<T, K(==)>(xs: seq<T>, key: T -> K, k: K): (r: Option<T>)
    ensures r.None? <==> !HasKey(xs, key, k)
    ensures r.Some? ==>
      exists i :: 0 <= i < |xs| && xs[i] == r.value && key(xs[i]) == k && !HasKey(xs[..i], key, k)
  {
    if |xs| == 0 then None
    else
      var init := xs[..|xs| - 1];
      var found := FirstWithKey(init, key, k);
      if found.Some? then
        assert forall i :: 0 <= i < |init| ==> init[..i] == xs[..i];
        found
      else if key(xs[|xs| - 1]) == k then
        assert xs[..|xs| - 1] == init;
        Some(xs[|xs| - 1])
      else None
  }

  /** `drop_duplicates(subset=key)`: the first row of every key, in their original order. */
  function DedupBy<T, K(==)>(xs: seq<T>, key: T -> K): (r: seq<T>)
    ensures |r| <= |xs|
    ensures KeysDistinct(r, key)
    ensures forall i :: 0 <= i < |r| ==> r[i] in xs
    ensures forall i :: 0 <= i < |xs| ==> HasKey(r, key, key(xs[i]))
  {
    if |xs| == 0 then []
    else
      var init := xs[..|xs| - 1];
      var x := xs[|xs| - 1];
      var kept := DedupBy(init, key);
      assert forall y :: y in init ==> y in xs;
      if HasKey(init, key, key(x)) then
        kept
      else
        var r := kept + [x];
        assert r[|kept|] == x;
        assert forall i :: 0 <= i < |kept| ==> r[i] == kept[i];
        assert forall i :: 0 <= i < |init| ==> HasKey(r, key, key(init[i]));
        r
  }

  /** Position `i` holds the first row of `xs` with its key. */
  predicate FirstOccurrence<T, K(==)>(xs: seq<T>, key: T -> K, i: int) {
    0 <= i < |xs| && forall k :: 0 <= k < i ==> key(xs[k]) != key(xs[i])
  }

  /** `pos` lists, in strictly increasing order, exactly the first occurrences of `xs`. */
  ghost predicate FirstOccurrencePositions<T, K>(xs: seq<T>, key: T -> K, pos: seq<nat>) {
    (forall j :: 0 <= j < |pos| ==> FirstOccurrence(xs, key, pos[j])) &&
    (forall j, j' :: 0 <= j < j' < |pos| ==> pos[j] < pos[j']) &&
    (forall i :: 0 <= i < |xs| && FirstOccurrence(xs, key, i) ==> i in pos)
  }

  /** `r` is `xs` read at the positions `pos`. */
  ghost predicate ReadAt<T>(r: seq<T>, xs: seq<T>, pos: seq<nat>) {
    |r| == |pos| && forall j :: 0 <= j < |pos| ==> pos[j] < |xs| && r[j] == xs[pos[j]]
  }

  /**
   * `drop_duplicates` keeps the first row of every key and nothing else, in
   * input order: its result is `xs` read at strictly increasing positions,
   * and those positions are exactly the first occurrences.
   */
  lemma {:induction false} DedupKeepsFirstOccurrences<T, K>(xs: seq<T>, key: T -> K) returns (pos: seq<nat>)
    ensures FirstOccurrencePositions(xs, key, pos)
    ensures ReadAt(DedupBy(xs, key), xs, pos)
  {
    if |xs| == 0 {
      pos := [];
    } else {
      var p0 := DedupKeepsFirstOccurrences(xs[..|xs| - 1], key);
      if HasKey(xs[..|xs| - 1], key, key(xs[|xs| - 1])) {
        pos := p0;
        DedupDropsRepeat(xs, key, p0);
      } else {
        pos := p0 + [|xs| - 1];
        DedupKeepsNew(xs, key, p0);
      }
    }
  }

  /** Before the last row, the first occurrences of `xs` are those of its prefix. */
  lemma FirstOccurrenceOfInit<T, K>(xs: seq<T>, key: T -> K, i: int)
    requires 0 <= i < |xs| - 1
    ensures FirstOccurrence(xs, key, i) <==> FirstOccurrence(xs[..|xs| - 1], key, i)
  {
    assert xs[..i] == xs[..|xs| - 1][..i];
  }

  /** A last row whose key came earlier adds no position. */
  lemma DedupDropsRepeat<T, K>(xs: seq<T>, key: T -> K, p0: seq<nat>)
    requires |xs| > 0 && HasKey(xs[..|xs| - 1], key, key(xs[|xs| - 1]))
    requires FirstOccurrencePositions(xs[..|xs| - 1], key, p0)
    requires ReadAt(DedupBy(xs[..|xs| - 1], key), xs[..|xs| - 1], p0)
    ensures FirstOccurrencePositions(xs, key, p0)
    ensures ReadAt(DedupBy(xs, key), xs, p0)
  {
    var init := xs[..|xs| - 1];
    var d0 := DedupBy(init, key);
    assert DedupBy(xs, key) == d0;
    forall j | 0 <= j < |p0|
      ensures FirstOccurrence(xs, key, p0[j]) && p0[j] < |xs| && d0[j] == xs[p0[j]]
    {
      assert FirstOccurrence(init, key, p0[j]);
      FirstOccurrenceOfInit(xs, key, p0[j]);
      assert d0[j] == init[p0[j]];
    }
    forall i | 0 <= i < |xs| && FirstOccurrence(xs, key, i)
      ensures i in p0
    {
      if i < |xs| - 1 {
        FirstOccurrenceOfInit(xs, key, i);
      }
    }
  }

  /** A last row with a new key adds its own position. */
  lemma DedupKeepsNew<T, K>(xs: seq<T>, key: T -> K, p0: seq<nat>)
    requires |xs| > 0 && !HasKey(xs[..|xs| - 1], key, key(xs[|xs| - 1]))
    requires FirstOccurrencePositions(xs[..|xs| - 1], key, p0)
    requires ReadAt(DedupBy(xs[..|xs| - 1], key), xs[..|xs| - 1], p0)
    ensures FirstOccurrencePositions(xs, key, p0 + [|xs| - 1])
    ensures ReadAt(DedupBy(xs, key), xs, p0 + [|xs| - 1])
  {
    NewKeyPositions(xs, key, p0);
    NewKeyRead(xs, key, p0);
  }

  lemma NewKeyPositions<T, K>(xs: seq<T>, key: T -> K, p0: seq<nat>)
    requires |xs| > 0 && !HasKey(xs[..|xs| - 1], key, key(xs[|xs| - 1]))
    requires FirstOccurrencePositions(xs[..|xs| - 1], key, p0)
    ensures FirstOccurrencePositions(xs, key, p0 + [|xs| - 1])
  {
    var init := xs[..|xs| - 1];
    var last: nat := |xs| - 1;
    var pos: seq<nat> := p0 + [last];
    forall k | 0 <= k < last
      ensures key(xs[k]) != key(xs[last])
    {
      assert init[k] == xs[k];
    }
    assert FirstOccurrence(xs, key, last);
    forall j | 0 <= j < |pos|
      ensures FirstOccurrence(xs, key, pos[j])
    {
      if j < |p0| {
        assert pos[j] == p0[j];
        assert FirstOccurrence(init, key, p0[j]);
        FirstOccurrenceOfInit(xs, key, p0[j]);
      }
    }
    forall j, j' | 0 <= j < j' < |pos|
      ensures pos[j] < pos[j']
    {
      assert pos[j] == p0[j];
      if j' < |p0| {
        assert pos[j'] == p0[j'];
      } else {
        assert FirstOccurrence(init, key, p0[j]);
      }
    }
    forall i | 0 <= i < |xs| && FirstOccurrence(xs, key, i)
      ensures i in pos
    {
      if i < last {
        FirstOccurrenceOfInit(xs, key, i);
        assert i in p0;
      }
    }
  }

  lemma NewKeyRead<T, K>(xs: seq<T>, key: T -> K, p0: seq<nat>)
    requires |xs| > 0 && !HasKey(xs[..|xs| - 1], key, key(xs[|xs| - 1]))
    requires ReadAt(DedupBy(xs[..|xs| - 1], key), xs[..|xs| - 1], p0)
    ensures ReadAt(DedupBy(xs, key), xs, p0 + [|xs| - 1])
  {
    DedupNewKey(xs, key);
    ReadAtSnoc(DedupBy(xs[..|xs| - 1], key), xs, p0);
  }

  /** Reading one more row at the last position extends a read of the prefix. */
  lemma ReadAtSnoc<T>(r: seq<T>, xs: seq<T>, p0: seq<nat>)
    requires |xs| > 0 && ReadAt(r, xs[..|xs| - 1], p0)
    ensures ReadAt(r + [xs[|xs| - 1]], xs, p0 + [|xs| - 1])
  {
    var init := xs[..|xs| - 1];
    var last: nat := |xs| - 1;
    var pos: seq<nat> := p0 + [last];
    forall j | 0 <= j < |pos|
      ensures pos[j] < |xs| && (r + [xs[last]])[j] == xs[pos[j]]
    {
      if j < |p0| {
        assert pos[j] == p0[j] && r[j] == init[p0[j]];
      }
    }
  }

  /** A last row with a new key is appended to the deduplicated prefix. */
  lemma DedupNewKey<T, K>(xs: seq<T>, key: T -> K)
    requires |xs| > 0 && !HasKey(xs[..|xs| - 1], key, key(xs[|xs| - 1]))
    ensures DedupBy(xs, key) == DedupBy(xs[..|xs| - 1], key) + [xs[|xs| - 1]]
  {
  }

  /**
   * Deduplicating on a key and then looking up by that key, or by any coarser
   * key, finds the same row as looking it up in the original rows: the first
   * occurrence wins.
   */
  lemma {:induction false} FirstWithKeyAfterDedup<T, K, J>(xs: seq<T>, key: T -> K, coarse: T -> J, v: J)
    requires forall a, b :: key(a) == key(b) ==> coarse(a) == coarse(b)
    ensures FirstWithKey(DedupBy(xs, key), coarse, v) == FirstWithKey(xs, coarse, v)
  {
    if |xs| > 0 {
      var init := xs[..|xs| - 1];
      var x := xs[|xs| - 1];
      FirstWithKeyAfterDedup(init, key, coarse, v);
      if HasKey(init, key, key(x)) {
        DedupRepeatKey(xs, key);
        var j :| 0 <= j < |init| && key(init[j]) == key(x);
        assert coarse(init[j]) == coarse(x);
        FirstWithKeyCoveredLast(xs, coarse, v, j);
      } else {
        DedupNewKey(xs, key);
        FirstWithKeySnoc(DedupBy(init, key), x, coarse, v);
      }
    }
  }

  /** Looking up in rows with one more row at the end. */
  lemma FirstWithKeySnoc<T, J>(ys: seq<T>, x: T, coarse: T -> J, v: J)
    ensures FirstWithKey(ys + [x], coarse, v) ==
      var f := FirstWithKey(ys, coarse, v);
      if f.Some? then f else if coarse(x) == v then Some(x) else None
  {
    assert (ys + [x])[..|ys|] == ys;
  }

  /** A last row whose coarse key an earlier row already has changes no lookup. */
  lemma FirstWithKeyCoveredLast<T, J>(xs: seq<T>, coarse: T -> J, v: J, j: int)
    requires 0 <= j < |xs| - 1 && coarse(xs[j]) == coarse(xs[|xs| - 1])
    ensures FirstWithKey(xs, coarse, v) == FirstWithKey(xs[..|xs| - 1], coarse, v)
  {
    var init := xs[..|xs| - 1];
    if coarse(xs[|xs| - 1]) == v {
      assert coarse(init[j]) == v;
    }
  }

  lemma DedupRepeatKey<T, K>(xs: seq<T>, key: T -> K)
    requires |xs| > 0 && HasKey(xs[..|xs| - 1], key, key(xs[|xs| - 1]))
    ensures DedupBy(xs, key) == DedupBy(xs[..|xs| - 1], key)
  {
  }

  /** The rows of `right` whose key is `k`, in order. */
  function Matching<R, K(==)>(right: seq<R>, rkey: R -> K, k: K): seq<R>
  {
    if |right| == 0 then []
    else
      var last := right[|right| - 1];
      Matching(right[..|right| - 1], rkey, k) + (if rkey(last) == k then [last] else [])
  }

  /** The rows a left merge produces for one left row. */
  function MergeRow<L, R, K(==)>(l: L, right: seq<R>, lkey: L -> K, rkey: R -> K): seq<(L, Option<R>)>
  {
    var ms := Matching(right, rkey, lkey(l));
    if |ms| == 0 then [(l, None)]
    else seq(|ms|, i requires 0 <= i < |ms| => (l, Some(ms[i])))
  }

  /**
   * `left.merge(right, on=key, how='left')`: each left row in order, repeated
   * once per matching right row (in right order), or once with no match.
   */
  function LeftMerge<L, R, K(==)>(left: seq<L>, right: seq<R>, lkey: L -> K, rkey: R -> K): seq<(L, Option<R>)>
  {
    if |left| == 0 then []
    else LeftMerge(left[..|left| - 1], right, lkey, rkey) + MergeRow(left[|left| - 1], right, lkey, rkey)
  }

  /** Against distinct keys a key matches at most one row: the one the lookup finds. */
  lemma {:induction false} MatchingOnDistinctKeys<R, K>(right: seq<R>, rkey: R -> K, k: K)
    requires KeysDistinct(right, rkey)
    ensures Matching(right, rkey, k) ==
      match FirstWithKey(right, rkey, k)
      case None => []
      case Some(r) => [r]
  {
    if |right| > 0 {
      var init := right[..|right| - 1];
      var last := right[|right| - 1];
      assert KeysDistinct(init, rkey);
      MatchingOnDistinctKeys(init, rkey, k);
      if rkey(last) == k {
        assert !HasKey(init, rkey, k);
      }
    }
  }

  /** Against distinct keys one left row yields one merged row. */
  lemma MergeRowOnDistinctKeys<L, R, K>(l: L, right: seq<R>, lkey: L -> K, rkey: R -> K)
    requires KeysDistinct(right, rkey)
    ensures MergeRow(l, right, lkey, rkey) == [(l, FirstWithKey(right, rkey, lkey(l)))]
  {
    MatchingOnDistinctKeys(right, rkey, lkey(l));
  }

  /**
   * A left merge against a table with distinct keys yields exactly one row per
   * left row, in the left order, carrying the looked-up right row.
   */
  lemma {:induction false} LeftMergeOnDistinctKeys<L, R, K>(left: seq<L>, right: seq<R>, lkey: L -> K, rkey: R -> K)
    requires KeysDistinct(right, rkey)
    ensures |LeftMerge(left, right, lkey, rkey)| == |left|
    ensures forall i :: 0 <= i < |left| ==>
      LeftMerge(left, right, lkey, rkey)[i] == (left[i], FirstWithKey(right, rkey, lkey(left[i])))
  {
    if |left| > 0 {
      var init := left[..|left| - 1];
      var l := left[|left| - 1];
      LeftMergeOnDistinctKeys(init, right, lkey, rkey);
      MergeRowOnDistinctKeys(l, right, lkey, rkey);
      var m := LeftMerge(left, right, lkey, rkey);
      assert m == LeftMerge(init, right, lkey, rkey) + [(l, FirstWithKey(right, rkey, lkey(l)))];
      forall i | 0 <= i < |left|
        ensures m[i] == (left[i], FirstWithKey(right, rkey, lkey(left[i])))
      {
        if i < |init| {
          assert left[i] == init[i];
        }
      }
    }
  }
}
