/**
  The two nested loops every reader of a downloaded file runs,
  `for l1 in data: for l2 in l1: ...` (DMP_stats_v1.4.py:223-224,
  :1161-1162, :1217-1218, :2202-2203; DMPs_updates.py:75-76, :168-170).
  The first thing each body does is subscript `l2` by a string key, so an
  `l2` that is not a dict stops the run.
 */
module Pages {
  import opened Outcomes
  import opened JsonValue

  /**
    The documents of one page `l1`.  A list page yields its elements; an
    empty string or dict yields nothing; a non-empty string or dict yields
    strings, which cannot be subscripted by a key; `None` is skipped only
    where the loop tests `l1 is not None`.
   */
  function PageDocuments(page: Value, skipNone: bool): (r: Result<seq<Value>>)
    ensures r.Ok? ==> forall d :: d in r.value ==> d.Obj?
    ensures page.Arr? ==> (r.Ok? <==> forall d :: d in page.items ==> d.Obj?)
    ensures r.Ok? && page.Arr? ==> r.value == page.items
    ensures r.Ok? && !page.Arr? ==> r.value == []
  {
    match page
    case Arr(ds) => if forall d :: d in ds ==> d.Obj? then Ok(ds) else Fatal
    case Null => if skipNone then Ok([]) else Fatal
    case Str(s) => if |s| == 0 then Ok([]) else Fatal
    case Obj(m) => if |m| == 0 then Ok([]) else Fatal
    case _ => Fatal
  }

  /** The documents of the first `|pages|` pages, page after page. */
  function DocumentsOf(pages: seq<Value>, skipNone: bool): (r: Result<seq<Value>>)
    ensures r.Ok? ==> forall d :: d in r.value ==> d.Obj?
    decreases |pages|
  {
    if |pages| == 0 then Ok([])
    else
      var prev :- DocumentsOf(pages[..|pages| - 1], skipNone);
      var last :- PageDocuments(pages[|pages| - 1], skipNone);
      Ok(prev + last)
  }

  /**
    Every `l2` of a decoded file.  Iterating a string yields one-character
    strings and iterating a dict yields its keys, so only their empty forms
    get through; `None`, numbers and booleans cannot be iterated.
   */
  function Documents(content: Value, skipNone: bool): (r: Result<seq<Value>>)
    ensures r.Ok? ==> forall d :: d in r.value ==> d.Obj?
  {
    match content
    case Arr(pages) => DocumentsOf(pages, skipNone)
    case Str(s) => if |s| == 0 then Ok([]) else Fatal
    case Obj(m) => if forall k :: k in m ==> k == "" then Ok([]) else Fatal
    case _ => Fatal
  }

  /** The two nested loops, collecting each `l2` they reach. */
  method ReadDocuments(content: Value, skipNone: bool) returns (r: Result<seq<Value>>)
    ensures r == Documents(content, skipNone)
  {
    if !content.Arr? {
      return Documents(content, skipNone);
    }
    var pages := content.items;
    var docs: seq<Value> := [];
    for i := 0 to |pages|
      invariant DocumentsOf(pages[..i], skipNone) == Ok(docs)
    {
      assert pages[..i + 1][..i] == pages[..i];
      var page := pages[i];
      if !page.Arr? {
        var rest := PageDocuments(page, skipNone);
        if rest.Fatal? {
          FatalPropagates(pages, skipNone, i + 1);
          assert pages[..i + 1][..i + 1] == pages[..i + 1];
          return Fatal;
        }
        assert docs + rest.value == docs;
      } else {
        var before := docs;
        for j := 0 to |page.items|
          invariant docs == before + page.items[..j]
          invariant forall d :: d in page.items[..j] ==> d.Obj?
        {
          if !page.items[j].Obj? {
            assert PageDocuments(page, skipNone).Fatal?;
            FatalPropagates(pages, skipNone, i + 1);
            return Fatal;
          }
          assert page.items[..j + 1] == page.items[..j] + [page.items[j]];
          docs := docs + [page.items[j]];
        }
        assert page.items[..|page.items|] == page.items;
      }
    }
    assert pages[..|pages|] == pages;
    return Ok(docs);
  }

  /** Once a page fails, so does every longer prefix of the pages. */
  lemma {:induction false} FatalPropagates(pages: seq<Value>, skipNone: bool, k: nat)
    requires 0 < k <= |pages|
    requires DocumentsOf(pages[..k - 1], skipNone).Ok?
    requires PageDocuments(pages[k - 1], skipNone).Fatal?
    ensures DocumentsOf(pages, skipNone).Fatal?
    decreases |pages| - k
  {
    if k == |pages| {
      assert pages[..|pages| - 1] == pages[..k - 1];
    } else {
      PrefixFatal(pages, skipNone, k);
    }
  }

  /** A failing prefix makes the whole fold fail. */
  lemma {:induction false} PrefixFatal(pages: seq<Value>, skipNone: bool, k: nat)
    requires 0 < k <= |pages|
    requires DocumentsOf(pages[..k], skipNone).Fatal?
          || (DocumentsOf(pages[..k - 1], skipNone).Ok? && PageDocuments(pages[k - 1], skipNone).Fatal?)
    ensures DocumentsOf(pages, skipNone).Fatal?
    decreases |pages| - k
  {
    assert pages[..k][..k - 1] == pages[..k - 1];
    assert DocumentsOf(pages[..k], skipNone).Fatal?;
    if k < |pages| {
      assert pages[..k + 1][..k] == pages[..k];
      PrefixFatal(pages, skipNone, k + 1);
    } else {
      assert pages[..k] == pages;
    }
  }

  /** The pages that are not `None`. */
  function Present(pages: seq<Value>): (r: seq<Value>)
    ensures forall p :: p in r ==> p in pages && !p.Null?
    decreases |pages|
  {
    if |pages| == 0 then []
    else Present(pages[..|pages| - 1]) + (if pages[|pages| - 1].Null? then [] else [pages[|pages| - 1]])
  }

  /**
    Skipping `None` pages (DMPs_updates.py:169) is the same as reading only
    the pages that are present.
   */
  lemma {:induction false} SkipNoneReadsPresentPages(pages: seq<Value>)
    ensures DocumentsOf(pages, true) == DocumentsOf(Present(pages), false)
    decreases |pages|
  {
    if |pages| > 0 {
      var init := pages[..|pages| - 1];
      var last := pages[|pages| - 1];
      SkipNoneReadsPresentPages(init);
      assert pages[..|pages| - 1] == init;
      var p := Present(pages);
      if last.Null? {
        assert p == Present(init);
        var before := DocumentsOf(init, true);
        assert before.Ok? ==> before.value + [] == before.value;
      } else {
        assert p == Present(init) + [last];
        assert p[..|p| - 1] == Present(init);
        assert PageDocuments(last, true) == PageDocuments(last, false);
      }
    }
  }

  /** Without that test (DMP_stats_v1.4.py:2202-2203) a `None` page stops the run. */
  lemma {:induction false} NonePageIsFatal(pages: seq<Value>, k: nat)
    requires k < |pages| && pages[k].Null?
    ensures Documents(Arr(pages), false).Fatal?
  {
    assert pages[..k + 1][..k] == pages[..k];
    assert DocumentsOf(pages[..k + 1], false).Fatal?;
    PrefixFatal(pages, false, k + 1);
  }

  /** When every page is a list of dicts, the documents are the pages' elements in order. */
  lemma {:induction false} DocumentsFlatten(pages: seq<Value>, skipNone: bool)
    requires forall p :: p in pages ==> p.Arr? && forall d :: d in p.items ==> d.Obj?
    ensures DocumentsOf(pages, skipNone) == Ok(Flatten(pages))
    decreases |pages|
  {
    if |pages| > 0 {
      DocumentsFlatten(pages[..|pages| - 1], skipNone);
    }
  }

  function Flatten(pages: seq<Value>): seq<Value>
    requires forall p :: p in pages ==> p.Arr?
    decreases |pages|
  {
    if |pages| == 0 then [] else Flatten(pages[..|pages| - 1]) + pages[|pages| - 1].items
  }

  // ---------------------------------------------------------------------
  // Records collected document by document
  // ---------------------------------------------------------------------

  /** One record per document, in document order; a record that cannot be built stops the run. */
  function Entries<T>(docs: seq<Value>, entry: Value -> Result<T>): (r: Result<seq<T>>)
    ensures r.Ok? ==> |r.value| == |docs|
    ensures r.Ok? ==> forall i :: 0 <= i < |docs| ==> entry(docs[i]) == Ok(r.value[i])
    decreases |docs|
  {
    if |docs| == 0 then Ok([])
    else
      var prev :- Entries(docs[..|docs| - 1], entry);
      var last :- entry(docs[|docs| - 1]);
      Ok(prev + [last])
  }

  /** The records exist exactly when every document yields one. */
  lemma {:induction false} EntriesOk<T>(docs: seq<Value>, entry: Value -> Result<T>)
    ensures Entries(docs, entry).Ok? <==> forall i :: 0 <= i < |docs| ==> entry(docs[i]).Ok?
    decreases |docs|
  {
    if |docs| > 0 {
      var init := docs[..|docs| - 1];
      EntriesOk(init, entry);
      assert forall i :: 0 <= i < |init| ==> init[i] == docs[i];
    }
  }

  /** The records of one file. */
  function FileEntries<T>(content: Value, skipNone: bool, entry: Value -> Result<T>): Result<seq<T>> {
    var docs :- Documents(content, skipNone);
    Entries(docs, entry)
  }

  /** The records of the files of `listing`, file after file, appended to one table. */
  function FolderEntries<T>(listing: seq<string>, dir: map<string, Value>, skipNone: bool, entry: Value -> Result<T>): Result<seq<T>>
    requires forall n :: n in listing ==> n in dir
    decreases |listing|
  {
    if |listing| == 0 then Ok([])
    else
      var prev :- FolderEntries(listing[..|listing| - 1], dir, skipNone, entry);
      var last :- FileEntries(dir[listing[|listing| - 1]], skipNone, entry);
      Ok(prev + last)
  }

  /** A file that cannot be read stops the run, whatever follows it. */
  lemma {:induction false} FolderEntriesFatal<T>(listing: seq<string>, dir: map<string, Value>, skipNone: bool,
                                                 entry: Value -> Result<T>, k: nat)
    requires forall n :: n in listing ==> n in dir
    requires 0 < k <= |listing|
    requires FolderEntries(listing[..k], dir, skipNone, entry).Fatal?
    ensures FolderEntries(listing, dir, skipNone, entry).Fatal?
    decreases |listing| - k
  {
    if k == |listing| {
      assert listing[..k] == listing;
    } else {
      assert listing[..k + 1][..k] == listing[..k];
      FolderEntriesFatal(listing, dir, skipNone, entry, k + 1);
    }
  }

  /**
    The `while m != metafilenr` pattern: each file is decoded, its nested
    loops append one record per document, and the file's table is
    concatenated to the running one.
   */
  method ReadFolderEntries<T>(listing: seq<string>, dir: map<string, Value>, skipNone: bool, entry: Value -> Result<T>)
    returns (r: Result<seq<T>>)
    requires forall n :: n in listing ==> n in dir
    ensures r == FolderEntries(listing, dir, skipNone, entry)
  {
    var table: seq<T> := [];
    var m := 0;
    while m != |listing|
      invariant 0 <= m <= |listing|
      invariant FolderEntries(listing[..m], dir, skipNone, entry) == Ok(table)
    {
      assert listing[..m + 1][..m] == listing[..m];
      var docs := ReadDocuments(dir[listing[m]], skipNone);
      if docs.Fatal? {
        FolderEntriesFatal(listing, dir, skipNone, entry, m + 1);
        return Fatal;
      }
      var records: seq<T> := [];
      for j := 0 to |docs.value|
        invariant Entries(docs.value[..j], entry) == Ok(records)
      {
        assert docs.value[..j + 1][..j] == docs.value[..j];
        var e := entry(docs.value[j]);
        if e.Fatal? {
          EntriesOk(docs.value, entry);
          FolderEntriesFatal(listing, dir, skipNone, entry, m + 1);
          return Fatal;
        }
        records := records + [e.value];
      }
      assert docs.value[..|docs.value|] == docs.value;
      table := table + records;
      m := m + 1;
    }
    assert listing[..m] == listing;
    return Ok(table);
  }

  /** A file whose two loops reach at least one document. */
  predicate HasDocument(content: Value) {
    Documents(content, false).Ok? && |Documents(content, false).value| > 0
  }

  /**
    Some of the first `k` files of `listing` holds a document.  Only then
    has the body of the inner loop run before file `k`, binding the
    per-document lists that file's table reads.
   */
  predicate DocumentBefore(listing: seq<string>, dir: map<string, Value>, k: nat)
    decreases k
  {
    && k > 0
    && (|| DocumentBefore(listing, dir, k - 1)
        || (k <= |listing| && listing[k - 1] in dir && HasDocument(dir[listing[k - 1]])))
  }

  /** `DocumentBefore` holds exactly when one of the first `k` files holds a document. */
  lemma {:induction false} DocumentBeforeSome(listing: seq<string>, dir: map<string, Value>, k: nat)
    requires k <= |listing|
    requires forall n :: n in listing ==> n in dir
    ensures DocumentBefore(listing, dir, k) ==> exists j :: 0 <= j < k && HasDocument(dir[listing[j]])
    ensures (exists j :: 0 <= j < k && HasDocument(dir[listing[j]])) ==> DocumentBefore(listing, dir, k)
    decreases k
  {
    if k > 0 {
      DocumentBeforeSome(listing, dir, k - 1);
      assert listing[k - 1] in listing;
    }
  }

  /** Whether a document came before file `k` depends on the first `k` files only. */
  lemma {:induction false} DocumentBeforePrefix(a: seq<string>, b: seq<string>, dir: map<string, Value>, k: nat)
    requires k <= |a| && k <= |b| && a[..k] == b[..k]
    ensures DocumentBefore(a, dir, k) == DocumentBefore(b, dir, k)
    decreases k
  {
    if k > 0 {
      assert a[..k - 1] == a[..k][..k - 1] && b[..k - 1] == b[..k][..k - 1];
      assert a[k - 1] == a[..k][k - 1] && b[k - 1] == b[..k][k - 1];
      DocumentBeforePrefix(a, b, dir, k - 1);
    }
  }
}
