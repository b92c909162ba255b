/**
  The two table operations the scripts take from pandas: an inner merge on
  a string key (DMP_stats_v1.4.py:2220, DMPs_updates.py:187) and
  `drop_duplicates(keep="first", inplace=True)` (DMPs_updates.py:90, :188).
 */
module Tables {

  // ---------------------------------------------------------------------
  // Inner merge on a key
  // ---------------------------------------------------------------------

  /** The combined rows of `l` with every right row that shares its key, in right order. */
  function Matches<L, R, T>(l: L, right: seq<R>, lkey: L -> string, rkey: R -> string, combine: (L, R) -> T): seq<T>
    decreases |right|
  {
    if |right| == 0 then []
    else
      var r := right[|right| - 1];
      Matches(l, right[..|right| - 1], lkey, rkey, combine) + (if rkey(r) == lkey(l) then [combine(l, r)] else [])
  }

  /** `pd.merge(left, right, on=key)`: the matches of each left row, left row after left row. */
  function InnerJoin<L, R, T>(left: seq<L>, right: seq<R>, lkey: L -> string, rkey: R -> string, combine: (L, R) -> T): seq<T>
    decreases |left|
  {
    if |left| == 0 then []
    else InnerJoin(left[..|left| - 1], right, lkey, rkey, combine) + Matches(left[|left| - 1], right, lkey, rkey, combine)
  }

  lemma {:induction false} MatchesMembers<L, R, T>(l: L, right: seq<R>, lkey: L -> string, rkey: R -> string, combine: (L, R) -> T)
    ensures forall t :: t in Matches(l, right, lkey, rkey, combine) ==>
                          exists r :: r in right && rkey(r) == lkey(l) && t == combine(l, r)
    ensures forall r :: r in right && rkey(r) == lkey(l) ==> combine(l, r) in Matches(l, right, lkey, rkey, combine)
    decreases |right|
  {
    if |right| > 0 {
      var init := right[..|right| - 1];
      MatchesMembers(l, init, lkey, rkey, combine);
      assert right == init + [right[|right| - 1]];
    }
  }

  /**
    Key membership: a merged row exists for a left row and a right row
    exactly when their keys are equal.
   */
  lemma {:induction false} JoinMembers<L, R, T>(left: seq<L>, right: seq<R>, lkey: L -> string, rkey: R -> string, combine: (L, R) -> T)
    ensures forall t :: t in InnerJoin(left, right, lkey, rkey, combine) ==>
                          exists l, r :: l in left && r in right && lkey(l) == rkey(r) && t == combine(l, r)
    ensures forall l, r :: l in left && r in right && lkey(l) == rkey(r) ==>
                          combine(l, r) in InnerJoin(left, right, lkey, rkey, combine)
    decreases |left|
  {
    if |left| > 0 {
      var init := left[..|left| - 1];
      var last := left[|left| - 1];
      JoinMembers(init, right, lkey, rkey, combine);
      MatchesMembers(last, right, lkey, rkey, combine);
      assert left == init + [last];
    }
  }

  // ---------------------------------------------------------------------
  // First-occurrence de-duplication
  // ---------------------------------------------------------------------

  /** Each value of `s` at its first occurrence, in order. */
  function FirstOccurrences<T(==)>(s: seq<T>): seq<T>
    decreases |s|
  {
    if |s| == 0 then []
    else
      var kept := FirstOccurrences(s[..|s| - 1]);
      if s[|s| - 1] in s[..|s| - 1] then kept else kept + [s[|s| - 1]]
  }

  predicate Distinct<T(==)>(s: seq<T>) {
    forall i, j :: 0 <= i < j < |s| ==> s[i] != s[j]
  }

  /** The position of the first occurrence of `x` in `s`. */
  function FirstIndex<T(==)>(s: seq<T>, x: T): (i: nat)
    requires x in s
    ensures i < |s| && s[i] == x && x !in s[..i]
    decreases |s|
  {
    if s[0] == x then 0
    else
      assert x in s[1..];
      var j := FirstIndex(s[1..], x);
      assert s[..j + 1] == [s[0]] + s[1..][..j];
      j + 1
  }

  lemma FirstIndexUnique<T>(s: seq<T>, x: T, i: nat)
    requires i < |s| && s[i] == x && x !in s[..i]
    ensures FirstIndex(s, x) == i
  {
  }

  lemma FirstIndexInPrefix<T>(s: seq<T>, k: nat, x: T)
    requires k <= |s| && x in s[..k]
    ensures FirstIndex(s, x) == FirstIndex(s[..k], x) < k
  {
    var i := FirstIndex(s[..k], x);
    assert s[..k][..i] == s[..i];
    FirstIndexUnique(s, x, i);
  }

  /**
    `drop_duplicates(keep="first")`: no value is kept twice, every value is
    kept, and values keep the order of their first occurrences.
   */
  lemma {:induction false} FirstOccurrencesSpec<T>(s: seq<T>)
    ensures Distinct(FirstOccurrences(s))
    ensures forall x :: x in FirstOccurrences(s) ==> x in s
    ensures forall x :: x in s ==> x in FirstOccurrences(s)
    ensures forall i, j :: 0 <= i < j < |FirstOccurrences(s)| ==>
              FirstIndex(s, FirstOccurrences(s)[i]) < FirstIndex(s, FirstOccurrences(s)[j])
    decreases |s|
  {
    if |s| > 0 {
      var init := s[..|s| - 1];
      var x := s[|s| - 1];
      var kept := FirstOccurrences(init);
      FirstOccurrencesSpec(init);
      assert s == init + [x];
      forall y | y in kept
        ensures FirstIndex(s, y) == FirstIndex(init, y) < |s| - 1
      {
        assert y in init;
        FirstIndexInPrefix(s, |s| - 1, y);
      }
      if x !in init {
        var r := kept + [x];
        FirstIndexUnique(s, x, |s| - 1);
        forall i, j | 0 <= i < j < |r|
          ensures FirstIndex(s, r[i]) < FirstIndex(s, r[j])
        {
          if j < |kept| {
            assert r[i] == kept[i] && r[j] == kept[j];
          } else {
            assert r[i] == kept[i];
          }
        }
      }
    }
  }

  /** A table whose rows `drop_duplicates(inplace=True)` rewrites. */
  class Table<T(==)> {
    var rows: seq<T>

    constructor (initial: seq<T>)
      ensures rows == initial
    {
      rows := initial;
    }

    method DropDuplicates()
      modifies this
      ensures rows == FirstOccurrences(old(rows))
    {
      var s := rows;
      var kept: seq<T> := [];
      for i := 0 to |s|
        invariant kept == FirstOccurrences(s[..i])
        invariant forall x :: x in kept <==> x in s[..i]
      {
        assert s[..i + 1][..i] == s[..i];
        FirstOccurrencesSpec(s[..i]);
        if s[i] !in kept {
          kept := kept + [s[i]];
        }
        assert s[..i + 1] == s[..i] + [s[i]];
      }
      assert s[..|s|] == s;
      rows := kept;
    }
  }
}
