/**
  Step 11 of DMP_stats_v1.4.py (:2224-2247): the abbreviated faculty name
  of a register row, from the number of " - " separators in its
  `Faculty_situated` answer and the lookup table read from
  `faculty_abb.csv` (its two columns are parameters).
 */
module Faculty {
  import opened Outcomes
  import opened PyText
  import opened Tables

  const Separator := " - "
  const MultiFaculty := "MultiFaculty"
  const UnknownFaculty := "Unknown"

  /** A Python dict with string keys and values, as its items in iteration order. */
  type Dict = seq<(string, string)>

  function Keys(d: Dict): (ks: seq<string>)
    ensures |ks| == |d|
  {
    seq(|d|, i requires 0 <= i < |d| => d[i].0)
  }

  /** `d[k]`, or `None` when `k` is not a key. */
  function Lookup(d: Dict, k: string): Option<string> {
    if k in Keys(d) then Some(d[FirstIndex(Keys(d), k)].1) else None
  }

  /** `d[k] = v`: an existing key keeps its position, a new one goes last. */
  function Assign(d: Dict, k: string, v: string): Dict {
    if k in Keys(d) then d[FirstIndex(Keys(d), k) := (k, v)] else d + [(k, v)]
  }

  /** `zip(names, abbrevs)`: pairs up to the shorter column. */
  function Zip(names: seq<string>, abbrevs: seq<string>): (r: seq<(string, string)>)
    ensures |r| == if |names| <= |abbrevs| then |names| else |abbrevs|
  {
    var n := if |names| <= |abbrevs| then |names| else |abbrevs|;
    seq(n, i requires 0 <= i < n => (names[i], abbrevs[i]))
  }

  /** `dict(pairs)`: the pairs assigned one after the other. */
  function DictOf(pairs: seq<(string, string)>): Dict
    decreases |pairs|
  {
    if |pairs| == 0 then [] else
      var last := pairs[|pairs| - 1];
      Assign(DictOf(pairs[..|pairs| - 1]), last.0, last.1)
  }

  /** The value of the last pair whose name is `k`. */
  function LastValue(pairs: seq<(string, string)>, k: string): Option<string>
    decreases |pairs|
  {
    if |pairs| == 0 then None
    else if pairs[|pairs| - 1].0 == k then Some(pairs[|pairs| - 1].1)
    else LastValue(pairs[..|pairs| - 1], k)
  }

  lemma AssignKeys(d: Dict, k: string, v: string)
    ensures Keys(Assign(d, k, v)) == if k in Keys(d) then Keys(d) else Keys(d) + [k]
  {
    if k in Keys(d) {
      var i := FirstIndex(Keys(d), k);
      assert Keys(Assign(d, k, v)) == Keys(d);
    } else {
      assert Keys(d + [(k, v)]) == Keys(d) + [k];
    }
  }

  lemma AssignLookup(d: Dict, k: string, v: string, q: string)
    ensures Lookup(Assign(d, k, v), q) == if q == k then Some(v) else Lookup(d, q)
  {
    AssignKeys(d, k, v);
    var d2 := Assign(d, k, v);
    if k in Keys(d) {
      var i := FirstIndex(Keys(d), k);
      if q in Keys(d) && q != k {
        assert FirstIndex(Keys(d), q) != i;
      }
    } else {
      if q in Keys(d) {
        FirstIndexInPrefix(Keys(d2), |d|, q);
        assert Keys(d2)[..|d|] == Keys(d);
      } else if q == k {
        FirstIndexUnique(Keys(d2), k, |d|);
        assert Keys(d2)[..|d|] == Keys(d);
      }
    }
  }

  /**
    `dict(zip(...))`: the keys are the lookup names at their first
    occurrence, in table order, and each key maps to the abbreviation on
    the last row that carries the name.
   */
  lemma {:induction false} DictOfSpec(pairs: seq<(string, string)>)
    ensures Keys(DictOf(pairs)) == FirstOccurrences(Keys(pairs))
    ensures forall k :: Lookup(DictOf(pairs), k) == LastValue(pairs, k)
    decreases |pairs|
  {
    if |pairs| > 0 {
      var init := pairs[..|pairs| - 1];
      var last := pairs[|pairs| - 1];
      DictOfSpec(init);
      assert Keys(pairs)[..|pairs| - 1] == Keys(init);
      FirstOccurrencesSpec(Keys(init));
      AssignKeys(DictOf(init), last.0, last.1);
      forall k
        ensures Lookup(DictOf(pairs), k) == LastValue(pairs, k)
      {
        AssignLookup(DictOf(init), last.0, last.1, k);
      }
    }
  }

  /** The inner `for Faculty_name, Abbrev in dict_lookup.items()` loop: the first name contained in the answer. */
  function FirstContained(situated: string, d: Dict): Option<string>
    decreases |d|
  {
    if |d| == 0 then None
    else if Contains(situated, d[0].0) then Some(d[0].1)
    else FirstContained(situated, d[1..])
  }

  /** The abbreviation found is that of the first item, in dict order, whose name occurs in the answer. */
  lemma {:induction false} FirstContainedSpec(situated: string, d: Dict)
    ensures FirstContained(situated, d).None? <==> forall j :: 0 <= j < |d| ==> !Contains(situated, d[j].0)
    ensures FirstContained(situated, d).Some? ==>
              exists j :: 0 <= j < |d| && Contains(situated, d[j].0) && d[j].1 == FirstContained(situated, d).value
                          && forall i :: 0 <= i < j ==> !Contains(situated, d[i].0)
    decreases |d|
  {
    if |d| > 0 {
      FirstContainedSpec(situated, d[1..]);
      if !Contains(situated, d[0].0) && FirstContained(situated, d).Some? {
        var j :| 0 <= j < |d[1..]| && Contains(situated, d[1..][j].0) && d[1..][j].1 == FirstContained(situated, d).value
                  && forall i :: 0 <= i < j ==> !Contains(situated, d[1..][i].0);
        assert forall i :: 0 <= i < j + 1 ==> !Contains(situated, d[i].0) by {
          forall i | 0 <= i < j + 1
            ensures !Contains(situated, d[i].0)
          {
            if i > 0 {
              assert d[i] == d[1..][i - 1];
            }
          }
        }
      }
      if FirstContained(situated, d).None? {
        forall j | 0 <= j < |d|
          ensures !Contains(situated, d[j].0)
        {
          if j > 0 {
            assert d[j] == d[1..][j - 1];
          }
        }
      }
    }
  }

  /**
    The `Faculty_name` of a row: `MultiFaculty` above one separator,
    `Unknown` below one, and for exactly one the first lookup hit; a row
    without a hit keeps the initial NaN, `None` here.
   */
  function FacultyOf(situated: string, d: Dict): Option<string> {
    var count := Count(situated, Separator);
    if count > 1 then Some(MultiFaculty)
    else if count < 1 then Some(UnknownFaculty)
    else FirstContained(situated, d)
  }

  /** The row loop (:2238-2247), each row's names scanned until the first hit. */
  method ClassifyFaculties(situated: seq<string>, d: Dict) returns (names: seq<Option<string>>)
    ensures |names| == |situated|
    ensures forall i :: 0 <= i < |situated| ==> names[i] == FacultyOf(situated[i], d)
  {
    names := [];
    for i := 0 to |situated|
      invariant |names| == i
      invariant forall k :: 0 <= k < i ==> names[k] == FacultyOf(situated[k], d)
    {
      var count := Count(situated[i], Separator);
      var name: Option<string> := None;
      if count > 1 {
        name := Some(MultiFaculty);
      } else if count < 1 {
        name := Some(UnknownFaculty);
      } else {
        for j := 0 to |d|
          invariant FirstContained(situated[i], d) == FirstContained(situated[i], d[j..])
        {
          if Contains(situated[i], d[j].0) {
            name := Some(d[j].1);
            break;
          }
          assert d[j..][1..] == d[j + 1..];
        }
      }
      names := names + [name];
    }
  }

  /** A row that names two or more faculties is `MultiFaculty`, one without separator `Unknown`. */
  lemma SeparatorCountDecides(situated: string, d: Dict)
    ensures Count(situated, Separator) >= 2 ==> FacultyOf(situated, d) == Some(MultiFaculty)
    ensures Count(situated, Separator) == 0 ==> FacultyOf(situated, d) == Some(UnknownFaculty)
    ensures FacultyOf(situated, d).None? ==>
              Count(situated, Separator) == 1 && forall j :: 0 <= j < |d| ==> !Contains(situated, d[j].0)
  {
    FirstContainedSpec(situated, d);
  }
}
