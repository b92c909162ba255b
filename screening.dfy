/**
  The first pass of step 5b (DMP_stats_v1.4.py:1149-1190): each certified
  plan is screened by its personal-data question, and after every file is
  appended the whole screening table is filtered again.
 */
module Screening {
  import opened Outcomes
  import opened JsonValue
  import opened PyText
  import opened Extractor
  import opened Pages

  /** A row of the screening table: `id`, `File_name` and `PersonalDataCheck`. */
  datatype Screened = Screened(id: string, fileName: string, check: Value)

  /** `['answer']['options'][0]['text']` of a question node; any failure is caught (:1170-1177). */
  function FirstOptionText(node: Value): (r: Option<Value>)
    ensures r.Some? ==> Key(node, "answer").Some? && Key(Key(node, "answer").value, "options").Some?
  {
    var answer :- Key(node, "answer");
    var options :- Key(answer, "options");
    var first :- At(options, 0);
    Key(first, "text")
  }

  /**
    The personal-data answer of a plan: section 1, question 0.  Looking the
    node up and taking its `len` are not guarded (:1166-1167).
   */
  function PersonalDataCheck(doc: Value): (r: Result<Value>)
    ensures r.Ok? <==> Node(doc, 1, 0).Ok?
  {
    var node :- Node(doc, 1, 0);
    Ok(if node.1 < MinKeys then Str(Unknown) else FirstOptionText(node.0).GetOr(Str(Unknown)))
  }

  /**
    The screening row of one file.  `Personal_data_check` is re-created for
    every document while the ids accumulate, so, as in the second pass, a
    file with several documents stops the run.  A file without documents
    is given the list left over from the last document read (:1185): the
    empty table is re-indexed to one row whose `id` is missing, and `None`
    stands for that row, which the `le('id')` test drops (:1189-1190).
    Before any document has been read (`seen` is false) the name is unbound
    and the run stops.
   */
  function ScreeningOf(content: Value, fileName: string, seen: bool): (r: Result<Option<Screened>>)
    ensures r.Ok? && r.value.Some? ==> r.value.value.fileName == fileName
  {
    var docs :- Documents(content, false);
    if |docs| == 0 then (if seen then Ok(None) else Fatal)
    else if |docs| != 1 then Fatal
    else
      var id :- Require(Key(docs[0], "id"));
      var idText :- Require(ScalarText(id));
      var check :- PersonalDataCheck(docs[0]);
      Ok(Some(Screened(idText, fileName, check)))
  }

  /** A file gives a screening row exactly when it holds a document. */
  lemma ScreeningHasDocument(content: Value, fileName: string, seen: bool)
    requires ScreeningOf(content, fileName, seen).Ok?
    ensures ScreeningOf(content, fileName, seen).value.Some? <==> HasDocument(content)
  {
  }

  /**
    `str.contains('Yes') == True` (a value that is not a string gives NaN,
    which is not `True`) and `id.le('id') > 0`.
   */
  predicate Keeps(s: Screened) {
    s.check.Str? && Contains(s.check.s, "Yes") && LexLe(s.id, "id")
  }

  /** Boolean indexing of the screening table: the rows that pass, in order. */
  function Filter(rows: seq<Screened>): (r: seq<Screened>)
    ensures forall s :: s in r <==> s in rows && Keeps(s)
    ensures |r| <= |rows|
    decreases |rows|
  {
    if |rows| == 0 then []
    else Filter(rows[..|rows| - 1]) + (if Keeps(rows[|rows| - 1]) then [rows[|rows| - 1]] else [])
  }

  /**
    The screening table after the first `k` files of `listing`, as the
    loop builds it: append the file's row, then filter the accumulated
    table.
   */
  function ScreenAfter(listing: seq<string>, dir: map<string, Value>, k: nat): Result<seq<Screened>>
    requires k <= |listing|
    requires forall n :: n in listing ==> n in dir
    decreases k
  {
    if k == 0 then Ok([])
    else
      var table :- ScreenAfter(listing, dir, k - 1);
      var s :- ScreeningOf(dir[listing[k - 1]], listing[k - 1], DocumentBefore(listing, dir, k - 1));
      Ok(Filter(table + Somes([s])))
  }

  /** The screening table once every file of `listing` has been read. */
  function Screen(listing: seq<string>, dir: map<string, Value>): Result<seq<Screened>>
    requires forall n :: n in listing ==> n in dir
  {
    ScreenAfter(listing, dir, |listing|)
  }

  /**
    The screening row of each of the first `k` files, unfiltered and in
    listing order (`None` for the row without id): an independent
    reference for `ScreenAfter`.
   */
  function Screenings(listing: seq<string>, dir: map<string, Value>, k: nat): (r: Result<seq<Option<Screened>>>)
    requires k <= |listing|
    requires forall n :: n in listing ==> n in dir
    ensures r.Ok? ==> |r.value| == k
    decreases k
  {
    if k == 0 then Ok([])
    else
      var prev :- Screenings(listing, dir, k - 1);
      var s :- ScreeningOf(dir[listing[k - 1]], listing[k - 1], DocumentBefore(listing, dir, k - 1));
      Ok(prev + [s])
  }

  /** Entry `i` of the rows is the screening of file `i`. */
  lemma {:induction false} ScreeningsEntries(listing: seq<string>, dir: map<string, Value>, k: nat)
    requires k <= |listing|
    requires forall n :: n in listing ==> n in dir
    ensures Screenings(listing, dir, k).Ok? ==> forall i :: 0 <= i < k ==>
              ScreeningOf(dir[listing[i]], listing[i], DocumentBefore(listing, dir, i)) == Ok(Screenings(listing, dir, k).value[i])
    decreases k
  {
    if k > 0 && Screenings(listing, dir, k).Ok? {
      ScreeningsEntries(listing, dir, k - 1);
      var prev := Screenings(listing, dir, k - 1).value;
      var s := ScreeningOf(dir[listing[k - 1]], listing[k - 1], DocumentBefore(listing, dir, k - 1)).value;
      assert Screenings(listing, dir, k).value == prev + [s];
    }
  }

  /** Filtering distributes over concatenation, so it keeps arrival order. */
  lemma {:induction false} FilterAppend(a: seq<Screened>, b: seq<Screened>)
    ensures Filter(a + b) == Filter(a) + Filter(b)
    decreases |b|
  {
    if |b| == 0 {
      assert a + b == a;
    } else {
      var init := b[..|b| - 1];
      var x := b[|b| - 1];
      var tail := if Keeps(x) then [x] else [];
      FilterAppend(a, init);
      assert (a + b)[..|a + b| - 1] == a + init;
      assert (a + b)[|a + b| - 1] == x;
      assert Filter(a + b) == Filter(a + init) + tail;
      assert Filter(b) == Filter(init) + tail;
    }
  }

  /** Rows that passed pass again. */
  lemma {:induction false} FilterIdempotent(rows: seq<Screened>)
    ensures Filter(Filter(rows)) == Filter(rows)
    decreases |rows|
  {
    if |rows| > 0 {
      var init := rows[..|rows| - 1];
      var x := rows[|rows| - 1];
      FilterIdempotent(init);
      var tail := if Keeps(x) then [x] else [];
      FilterAppend(Filter(init), tail);
      if Keeps(x) {
        assert [x][..0] == [];
      }
    }
  }

  /** Re-filtering a filtered table with one more entry filters all entries once. */
  lemma RefilterSnoc(xs: seq<Option<Screened>>, x: Option<Screened>)
    ensures Filter(Filter(Somes(xs)) + Somes([x])) == Filter(Somes(xs + [x]))
  {
    var kept := Somes(xs);
    var last := Somes([x]);
    SomesSnoc(xs, x);
    FilterAppend(Filter(kept), last);
    FilterIdempotent(kept);
    FilterAppend(kept, last);
  }

  /**
    Re-filtering the accumulated table after every file gives the same
    table as filtering every file's row once, in arrival order.
   */
  lemma {:induction false} ScreenFiltersOnce(listing: seq<string>, dir: map<string, Value>, k: nat)
    requires k <= |listing|
    requires forall n :: n in listing ==> n in dir
    ensures ScreenAfter(listing, dir, k).Ok? <==> Screenings(listing, dir, k).Ok?
    ensures ScreenAfter(listing, dir, k).Ok? ==> ScreenAfter(listing, dir, k).value == Filter(Somes(Screenings(listing, dir, k).value))
    decreases k
  {
    if k > 0 {
      ScreenFiltersOnce(listing, dir, k - 1);
      var all := Screenings(listing, dir, k - 1);
      var s := ScreeningOf(dir[listing[k - 1]], listing[k - 1], DocumentBefore(listing, dir, k - 1));
      if all.Ok? && s.Ok? {
        var table := ScreenAfter(listing, dir, k - 1).value;
        assert ScreenAfter(listing, dir, k) == Ok(Filter(table + Somes([s.value])));
        assert Screenings(listing, dir, k) == Ok(all.value + [s.value]);
        RefilterSnoc(all.value, s.value);
      }
    }
  }

  /** A pattern that occurs starts with a character that occurs. */
  lemma {:induction false} ContainsFirstChar(s: string, p: string)
    requires |p| > 0 && Contains(s, p)
    ensures p[0] in s
    decreases |s|
  {
    if !StartsWith(s, p) {
      ContainsFirstChar(s[1..], p);
    }
  }

  /**
    A plan that passes has at least seven keys on its personal-data
    question and a first option whose text contains `Yes`; so `Unknown`
    never passes.
   */
  lemma KeptPlansAnsweredYes(content: Value, fileName: string, seen: bool)
    requires ScreeningOf(content, fileName, seen).Ok? && ScreeningOf(content, fileName, seen).value.Some?
    requires Keeps(ScreeningOf(content, fileName, seen).value.value)
    ensures Documents(content, false).Ok? && |Documents(content, false).value| == 1
    ensures var node := Node(Documents(content, false).value[0], 1, 0);
            && node.Ok? && node.value.1 >= MinKeys
            && FirstOptionText(node.value.0) == Some(ScreeningOf(content, fileName, seen).value.value.check)
  {
    var s := ScreeningOf(content, fileName, seen).value.value;
    var node := Node(Documents(content, false).value[0], 1, 0).value;
    if node.1 < MinKeys || FirstOptionText(node.0).None? {
      assert s.check == Str(Unknown);
      ContainsFirstChar(Unknown, "Yes");
    }
  }

  /** Ids made of digits only sort before `id`, so the id test keeps them. */
  lemma DigitIdsPass(id: string)
    requires forall i :: 0 <= i < |id| ==> '0' <= id[i] <= '9'
    ensures LexLe(id, "id")
  {
  }

  /** Every kept row passed the test and comes from a file of the listing that holds a document. */
  lemma ScreenedFilesListed(listing: seq<string>, dir: map<string, Value>)
    requires forall n :: n in listing ==> n in dir
    ensures Screen(listing, dir).Ok? ==>
              forall s :: s in Screen(listing, dir).value ==>
                && Keeps(s) && s.fileName in listing
                && exists i :: 0 <= i < |listing| && listing[i] == s.fileName
                                 && ScreeningOf(dir[listing[i]], listing[i], DocumentBefore(listing, dir, i)) == Ok(Some(s))
  {
    ScreenFiltersOnce(listing, dir, |listing|);
    if Screen(listing, dir).Ok? {
      var all := Screenings(listing, dir, |listing|).value;
      ScreeningsEntries(listing, dir, |listing|);
      SomesMembers(all);
      forall s | s in Screen(listing, dir).value
        ensures Keeps(s) && s.fileName in listing
        ensures exists i :: 0 <= i < |listing| && listing[i] == s.fileName
                              && ScreeningOf(dir[listing[i]], listing[i], DocumentBefore(listing, dir, i)) == Ok(Some(s))
      {
        assert Some(s) in all;
        var i :| 0 <= i < |all| && all[i] == Some(s);
        assert ScreeningOf(dir[listing[i]], listing[i], DocumentBefore(listing, dir, i)) == Ok(Some(s));
      }
    }
  }

  /** The loop body for one file: every document is read, then the table is built. */
  method ReadScreening(content: Value, fileName: string, seen: bool) returns (r: Result<Option<Screened>>)
    ensures r == ScreeningOf(content, fileName, seen)
  {
    var docs := ReadDocuments(content, false);
    if docs.Fatal? {
      return Fatal;
    }
    var ids: seq<string> := [];
    var check := Str(Unknown);
    for j := 0 to |docs.value|
      invariant |ids| == j
      invariant j > 0 ==> Key(docs.value[0], "id").Some? && ScalarText(Key(docs.value[0], "id").value) == Some(ids[0])
      invariant j > 0 ==> PersonalDataCheck(docs.value[j - 1]) == Ok(check)
    {
      var doc := docs.value[j];
      var id := Key(doc, "id");
      if id.None? || ScalarText(id.value).None? {
        return Fatal;
      }
      var c := PersonalDataCheck(doc);
      if c.Fatal? {
        return Fatal;
      }
      ids := ids + [ScalarText(id.value).value];
      check := c.value;
    }
    if |ids| == 0 {
      if seen {
        return Ok(None);
      }
      return Fatal;
    }
    if |ids| != 1 {
      return Fatal;
    }
    return Ok(Some(Screened(ids[0], fileName, check)));
  }

  /** The `while i != filenrc` loop (:1152-1191). */
  method ScreenFolder(listing: seq<string>, dir: map<string, Value>) returns (r: Result<seq<Screened>>)
    requires forall n :: n in listing ==> n in dir
    ensures r == Screen(listing, dir)
  {
    var table: seq<Screened> := [];
    var seen := false;
    var i := 0;
    while i != |listing|
      invariant 0 <= i <= |listing|
      invariant ScreenAfter(listing, dir, i) == Ok(table)
      invariant seen == DocumentBefore(listing, dir, i)
    {
      var s := ReadScreening(dir[listing[i]], listing[i], seen);
      if s.Fatal? {
        ScreenFatalPropagates(listing, dir, i);
        return Fatal;
      }
      ScreeningHasDocument(dir[listing[i]], listing[i], seen);
      seen := seen || s.value.Some?;
      table := Filter(table + Somes([s.value]));
      i := i + 1;
    }
    return Ok(table);
  }

  /** One file that cannot be screened stops the whole pass. */
  lemma ScreenFatalPropagates(listing: seq<string>, dir: map<string, Value>, k: nat)
    requires forall n :: n in listing ==> n in dir
    requires k < |listing|
    requires ScreeningOf(dir[listing[k]], listing[k], DocumentBefore(listing, dir, k)).Fatal?
    ensures Screen(listing, dir).Fatal?
  {
    ScreenFiltersOnce(listing, dir, |listing|);
    ScreeningsEntries(listing, dir, |listing|);
  }

  /** A file without documents read before any document stops the pass. */
  lemma EmptyFileFirstStopsScreening(listing: seq<string>, dir: map<string, Value>, k: nat)
    requires forall n :: n in listing ==> n in dir
    requires k < |listing|
    requires Documents(dir[listing[k]], false) == Ok([])
    requires forall j :: 0 <= j < k ==> !HasDocument(dir[listing[j]])
    ensures Screen(listing, dir).Fatal?
  {
    DocumentBeforeSome(listing, dir, k);
    ScreenFatalPropagates(listing, dir, k);
  }

  /** A file without documents read after a document leaves the screening table as it was. */
  lemma EmptyFileScreensNothing(listing: seq<string>, dir: map<string, Value>, k: nat)
    requires forall n :: n in listing ==> n in dir
    requires k < |listing|
    requires Documents(dir[listing[k]], false) == Ok([])
    requires DocumentBefore(listing, dir, k)
    requires ScreenAfter(listing, dir, k).Ok?
    ensures ScreenAfter(listing, dir, k + 1) == ScreenAfter(listing, dir, k)
  {
    var table := ScreenAfter(listing, dir, k).value;
    ScreenFiltersOnce(listing, dir, k);
    FilterIdempotent(Somes(Screenings(listing, dir, k).value));
    assert table + Somes([None]) == table;
  }
}
