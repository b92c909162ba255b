/**
  DMPs_updates.py: how often plans are updated.  The plan dumps of a
  folder are filtered by size and name (:51-53) and read into a table of
  id, last update and creation date (:63-87), freed of duplicate rows
  (:90); the metadata of the ids is requested in slices (:100-141) and
  merged into the table (:186-188); the result is compared with the
  register list and every row flagged 0 or 1 for being in the register
  (:214-224).
 */
module Updates {
  import opened Outcomes
  import opened JsonValue
  import opened Pages
  import opened Tables
  import opened Metadata
  import opened Batching

  // ---------------------------------------------------------------------
  // Step 1: the dump files worth reading
  // ---------------------------------------------------------------------

  /** A row of `dmp_list`: a file name and its size in bytes. */
  datatype DumpFile = DumpFile(name: string, size: nat)

  /** Files of at most this many bytes are taken to be empty. */
  const MinDumpSize: nat := 1025

  /** The regex `.csv` matches at position `i`: any character but a line feed, then `csv`. */
  predicate DotCsvAt(name: string, i: nat)
    requires i + 4 <= |name|
  {
    name[i] != '\n' && name[i + 1..i + 4] == "csv"
  }

  /** `str.contains('.csv')`, whose pattern is a regular expression: a match anywhere in the name. */
  predicate MatchesDotCsv(name: string)
    decreases |name|
  {
    |name| >= 4 && (DotCsvAt(name, 0) || MatchesDotCsv(name[1..]))
  }

  /** The scan finds a match exactly when the pattern matches at some position. */
  lemma {:induction false} MatchesDotCsvAt(name: string)
    ensures MatchesDotCsv(name) <==> exists i: nat :: i + 4 <= |name| && DotCsvAt(name, i)
    decreases |name|
  {
    if |name| >= 4 {
      var tail := name[1..];
      MatchesDotCsvAt(tail);
      forall j: nat | j + 4 <= |tail|
        ensures DotCsvAt(tail, j) <==> DotCsvAt(name, j + 1)
      {
        assert tail[j + 1..j + 4] == name[j + 2..j + 5];
      }
      if exists i: nat :: i + 4 <= |name| && DotCsvAt(name, i) {
        var i: nat :| i + 4 <= |name| && DotCsvAt(name, i);
        if i > 0 {
          assert DotCsvAt(tail, i - 1);
        }
      }
    }
  }

  /** A file is read when it is larger than 1025 bytes and its name has no match of `.csv`. */
  predicate KeepDumpFile(f: DumpFile) {
    f.size > MinDumpSize && !MatchesDotCsv(f.name)
  }

  /** The two boolean masks of :51 and :53, applied in file order. */
  function SelectFiles(files: seq<DumpFile>): seq<DumpFile>
    decreases |files|
  {
    if |files| == 0 then []
    else
      var last := files[|files| - 1];
      SelectFiles(files[..|files| - 1]) + (if KeepDumpFile(last) then [last] else [])
  }

  /** The selection keeps exactly the files that pass both masks. */
  lemma {:induction false} SelectFilesSpec(files: seq<DumpFile>)
    ensures forall f :: f in SelectFiles(files) ==> f in files && KeepDumpFile(f)
    ensures forall f :: f in files && KeepDumpFile(f) ==> f in SelectFiles(files)
    ensures |SelectFiles(files)| <= |files|
    decreases |files|
  {
    if |files| > 0 {
      var init := files[..|files| - 1];
      SelectFilesSpec(init);
      assert files == init + [files[|files| - 1]];
    }
  }

  /** The selection keeps the files' order: selecting from two lists in turn is selecting from both. */
  lemma {:induction false} SelectFilesAppend(a: seq<DumpFile>, b: seq<DumpFile>)
    ensures SelectFiles(a + b) == SelectFiles(a) + SelectFiles(b)
    decreases |b|
  {
    if |b| == 0 {
      assert a + b == a;
    } else {
      var init := b[..|b| - 1];
      SelectFilesAppend(a, init);
      assert (a + b)[..|a + b| - 1] == a + init;
    }
  }

  /** Every CSV export is left out, whatever its size. */
  lemma CsvFilesDropped(base: string, size: nat)
    ensures !KeepDumpFile(DumpFile(base + ".csv", size))
  {
    var name := base + ".csv";
    assert name[|base| + 1..|base| + 4] == "csv";
    assert DotCsvAt(name, |base|);
    MatchesDotCsvAt(name);
  }

  /** The dot is a wildcard: a JSON dump whose name contains `_csv` is left out too. */
  lemma DotMatchesAnyCharacter()
    ensures !KeepDumpFile(DumpFile("2023-05-08_csv.json", 4096))
  {
    var name := "2023-05-08_csv.json";
    assert DotCsvAt(name, 10);
    MatchesDotCsvAt(name);
  }

  /** The names of the selected files, in order. */
  function Names(files: seq<DumpFile>): (names: seq<string>)
    ensures |names| == |files|
  {
    seq(|files|, i requires 0 <= i < |files| => files[i].name)
  }

  // ---------------------------------------------------------------------
  // Step 2: one row per plan
  // ---------------------------------------------------------------------

  /** A row of `DMP_data`. */
  datatype Update = Update(id: string, lastUpdated: Value, creationDate: Value)

  /**
    `str(l2['id'])`, `l2['last_updated']` and `l2['creation_date']`; a
    missing key stops the run.
   */
  function UpdateEntry(doc: Value): (r: Result<Update>)
    ensures r.Ok? <==> && Key(doc, "id").Some? && ScalarText(Key(doc, "id").value).Some?
                       && Key(doc, "last_updated").Some? && Key(doc, "creation_date").Some?
    ensures r.Ok? ==> && r.value.id == ScalarText(Key(doc, "id").value).value
                      && r.value.lastUpdated == Key(doc, "last_updated").value
                      && r.value.creationDate == Key(doc, "creation_date").value
  {
    var id :- Require(Key(doc, "id"));
    var idText :- Require(ScalarText(id));
    var updated :- Require(Key(doc, "last_updated"));
    var created :- Require(Key(doc, "creation_date"));
    Ok(Update(idText, updated, created))
  }

  /** The `while i != filenr` loop: every plan of every selected dump, file after file. */
  function UpdateTable(listing: seq<string>, dir: map<string, Value>): Result<seq<Update>>
    requires forall n :: n in listing ==> n in dir
  {
    FolderEntries(listing, dir, false, UpdateEntry)
  }

  /** The ids of the table, in row order (:104). */
  function UpdateIds(rows: seq<Update>): (ids: seq<string>)
    ensures |ids| == |rows|
  {
    seq(|rows|, i requires 0 <= i < |rows| => rows[i].id)
  }

  // ---------------------------------------------------------------------
  // Step 5: the table merged with the metadata
  // ---------------------------------------------------------------------

  /** A row of `DMP_changes_list`. */
  datatype Change = Change(id: string, lastUpdated: Value, creationDate: Value, start: Value, end: Value)

  /** The merge key of either side: the plan id. */
  function UpdateKey(u: Update): string {
    u.id
  }

  function MetaKey(m: ProjectDates): string {
    m.id
  }

  function Combine(u: Update, m: ProjectDates): Change {
    Change(u.id, u.lastUpdated, u.creationDate, m.start, m.end)
  }

  /** `pd.merge(DMP_data, DMP_meta_data, on='id')`, then `drop_duplicates(keep="first")`. */
  function ChangesOf(updates: seq<Update>, meta: seq<ProjectDates>): seq<Change> {
    FirstOccurrences(InnerJoin(updates, meta, UpdateKey, MetaKey, Combine))
  }

  /**
    The changes list holds no row twice, and holds a row exactly when some
    plan row and some metadata record share its id.
   */
  lemma ChangesSpec(updates: seq<Update>, meta: seq<ProjectDates>)
    ensures Distinct(ChangesOf(updates, meta))
    ensures forall c :: c in ChangesOf(updates, meta) ==>
              exists u, m :: u in updates && m in meta && u.id == m.id && c == Combine(u, m)
    ensures forall u, m :: u in updates && m in meta && u.id == m.id ==> Combine(u, m) in ChangesOf(updates, meta)
  {
    var joined := InnerJoin(updates, meta, UpdateKey, MetaKey, Combine);
    JoinMembers(updates, meta, UpdateKey, MetaKey, Combine);
    FirstOccurrencesSpec(joined);
  }

  // ---------------------------------------------------------------------
  // Step 6: the comparison with the register list
  // ---------------------------------------------------------------------

  /**
    A row of the outer merge with the register list: its id, the change row
    it comes from (none for a register row without one) and the register
    row's index, the `Unnamed: 0` column renamed `Register` (NaN, `None`
    here, for a change row without a register row).
   */
  datatype Compared = Compared(id: string, change: Option<Change>, register: Option<int>)

  /** The positions of the register rows with id `x`, in order. */
  function Positions(ids: seq<string>, x: string): (ps: seq<nat>)
    ensures forall k :: 0 <= k < |ps| ==> ps[k] < |ids| && ids[ps[k]] == x
    ensures forall j :: 0 <= j < |ids| && ids[j] == x ==> j in ps
    decreases |ids|
  {
    if |ids| == 0 then []
    else
      var n := |ids| - 1;
      var prev := Positions(ids[..n], x);
      assert forall j :: 0 <= j < n ==> ids[..n][j] == ids[j];
      prev + (if ids[n] == x then [n] else [])
  }

  /** The outer-merge rows of one change row: one per register row with its id, or one unmatched row. */
  function RowsFor(c: Change, regIds: seq<string>): seq<Compared> {
    var ps := Positions(regIds, c.id);
    if |ps| == 0 then [Compared(c.id, Some(c), None)]
    else seq(|ps|, k requires 0 <= k < |ps| => Compared(c.id, Some(c), Some(ps[k])))
  }

  function LeftRows(changes: seq<Change>, regIds: seq<string>): seq<Compared>
    decreases |changes|
  {
    if |changes| == 0 then []
    else LeftRows(changes[..|changes| - 1], regIds) + RowsFor(changes[|changes| - 1], regIds)
  }

  function ChangeIds(changes: seq<Change>): (ids: seq<string>)
    ensures |ids| == |changes|
  {
    seq(|changes|, i requires 0 <= i < |changes| => changes[i].id)
  }

  /** The register rows whose id no change row carries. */
  function RightOnlyRows(keys: seq<string>, regIds: seq<string>): seq<Compared>
    decreases |regIds|
  {
    if |regIds| == 0 then []
    else
      var n := |regIds| - 1;
      RightOnlyRows(keys, regIds[..n]) + (if regIds[n] in keys then [] else [Compared(regIds[n], None, Some(n))])
  }

  /** `pd.merge(DMP_changes_list, rf, on="id", how='outer')`, as a collection of rows. */
  function OuterMerge(changes: seq<Change>, regIds: seq<string>): seq<Compared> {
    LeftRows(changes, regIds) + RightOnlyRows(ChangeIds(changes), regIds)
  }

  /** What a row of one change row carries. */
  predicate Consistent(t: Compared, regIds: seq<string>) {
    && (t.register.Some? ==> 0 <= t.register.value < |regIds| && regIds[t.register.value] == t.id)
    && (t.register.None? ==> t.change.Some? && t.id !in regIds)
    && (t.change.Some? ==> t.change.value.id == t.id)
  }

  lemma RowsForSpec(c: Change, regIds: seq<string>)
    ensures forall t :: t in RowsFor(c, regIds) ==> Consistent(t, regIds) && t.change == Some(c)
    ensures |RowsFor(c, regIds)| > 0
  {
    var ps := Positions(regIds, c.id);
    if |ps| == 0 {
      assert forall j :: 0 <= j < |regIds| ==> regIds[j] != c.id;
    }
  }

  lemma {:induction false} LeftRowsSpec(changes: seq<Change>, regIds: seq<string>)
    ensures forall t :: t in LeftRows(changes, regIds) ==> Consistent(t, regIds) && t.change.Some? && t.change.value in changes
    ensures forall c :: c in changes ==> exists t :: t in LeftRows(changes, regIds) && t.change == Some(c)
    decreases |changes|
  {
    if |changes| > 0 {
      var init := changes[..|changes| - 1];
      var last := changes[|changes| - 1];
      LeftRowsSpec(init, regIds);
      RowsForSpec(last, regIds);
      assert changes == init + [last];
      assert RowsFor(last, regIds)[0] in RowsFor(last, regIds);
    }
  }

  lemma {:induction false} RightOnlyRowsSpec(keys: seq<string>, regIds: seq<string>)
    ensures forall t :: t in RightOnlyRows(keys, regIds) ==>
              && t.change.None? && t.register.Some? && 0 <= t.register.value < |regIds|
              && regIds[t.register.value] == t.id && t.id !in keys
    ensures forall j :: 0 <= j < |regIds| && regIds[j] !in keys ==> Compared(regIds[j], None, Some(j)) in RightOnlyRows(keys, regIds)
    decreases |regIds|
  {
    if |regIds| > 0 {
      var n := |regIds| - 1;
      RightOnlyRowsSpec(keys, regIds[..n]);
      assert forall j :: 0 <= j < n ==> regIds[..n][j] == regIds[j];
    }
  }

  /**
    The outer merge keeps every change row and every register row: a row
    with a register index has that register row's id, and a row without one
    is a change row whose id is not in the register.
   */
  lemma OuterMergeSpec(changes: seq<Change>, regIds: seq<string>)
    ensures forall t :: t in OuterMerge(changes, regIds) ==> Consistent(t, regIds)
    ensures forall c :: c in changes ==> exists t :: t in OuterMerge(changes, regIds) && t.change == Some(c)
    ensures forall j :: 0 <= j < |regIds| ==> exists t :: t in OuterMerge(changes, regIds) && t.register == Some(j)
  {
    var left := LeftRows(changes, regIds);
    var right := RightOnlyRows(ChangeIds(changes), regIds);
    LeftRowsSpec(changes, regIds);
    RightOnlyRowsSpec(ChangeIds(changes), regIds);
    forall t | t in OuterMerge(changes, regIds)
      ensures Consistent(t, regIds)
    {
      assert t in left || t in right;
    }
    forall j | 0 <= j < |regIds|
      ensures exists t :: t in OuterMerge(changes, regIds) && t.register == Some(j)
    {
      RegisterPositionCovered(changes, regIds, j);
    }
  }

  /** A register row is met by a change row of its id, or else kept as a right-only row. */
  lemma RegisterPositionCovered(changes: seq<Change>, regIds: seq<string>, j: nat)
    requires j < |regIds|
    ensures exists t :: t in OuterMerge(changes, regIds) && t.register == Some(j)
  {
    var keys := ChangeIds(changes);
    if regIds[j] in keys {
      var i :| 0 <= i < |keys| && keys[i] == regIds[j];
      var c := changes[i];
      var ps := Positions(regIds, c.id);
      assert j in ps;
      var k :| 0 <= k < |ps| && ps[k] == j;
      var t := RowsFor(c, regIds)[k];
      assert t == Compared(c.id, Some(c), Some(j));
      LeftRowsContainRowsFor(changes, regIds, i);
      assert t in LeftRows(changes, regIds);
      assert t in OuterMerge(changes, regIds);
    } else {
      RightOnlyRowsSpec(keys, regIds);
      var t := Compared(regIds[j], None, Some(j));
      assert t in RightOnlyRows(keys, regIds);
      assert t in OuterMerge(changes, regIds);
    }
  }

  lemma {:induction false} LeftRowsContainRowsFor(changes: seq<Change>, regIds: seq<string>, i: nat)
    requires i < |changes|
    ensures forall t :: t in RowsFor(changes[i], regIds) ==> t in LeftRows(changes, regIds)
    decreases |changes|
  {
    var init := changes[..|changes| - 1];
    if i < |changes| - 1 {
      LeftRowsContainRowsFor(init, regIds, i);
      assert init[i] == changes[i];
    }
  }

  /**
    The `Register` column after :223-224: indices of at least 0 become 1,
    and then everything that is not 1, NaN included, becomes 0.
   */
  function Flag(register: Option<int>): (f: int)
    ensures f == 0 || f == 1
    ensures f == 1 <==> register.Some? && (register.value >= 0 || register.value == 1)
  {
    var marked := if register.Some? && register.value >= 0 then Some(1) else register;
    if marked != Some(1) then 0 else 1
  }

  /** A compared row is flagged 1 exactly when its id is in the register list. */
  lemma FlagMeansRegistered(changes: seq<Change>, regIds: seq<string>)
    ensures forall t :: t in OuterMerge(changes, regIds) ==> (Flag(t.register) == 1 <==> t.id in regIds)
  {
    OuterMergeSpec(changes, regIds);
  }

  /** The two `.loc` assignments to the `Register` column, row by row. */
  method FlagRegister(a: array<Option<int>>)
    modifies a
    ensures forall i :: 0 <= i < a.Length ==> a[i] == Some(Flag(old(a[i])))
  {
    for i := 0 to a.Length
      invariant forall k :: 0 <= k < i ==> a[k] == if old(a[k]).Some? && old(a[k]).value >= 0 then Some(1) else old(a[k])
      invariant forall k :: i <= k < a.Length ==> a[k] == old(a[k])
    {
      if a[i].Some? && a[i].value >= 0 {
        a[i] := Some(1);
      }
    }
    for i := 0 to a.Length
      invariant forall k :: 0 <= k < i ==> a[k] == Some(Flag(old(a[k])))
      invariant forall k :: i <= k < a.Length ==> a[k] == if old(a[k]).Some? && old(a[k]).value >= 0 then Some(1) else old(a[k])
    {
      if a[i] != Some(1) {
        a[i] := Some(0);
      }
    }
  }

  /** The `Register` column after the two `.loc` assignments. */
  function Flags(compared: seq<Compared>): (fs: seq<int>)
    ensures |fs| == |compared|
  {
    seq(|compared|, i requires 0 <= i < |compared| => Flag(compared[i].register))
  }

  /** The merged table's `Register` column, flagged in place and read back. */
  method ComputeFlags(compared: seq<Compared>) returns (flags: seq<int>)
    ensures flags == Flags(compared)
  {
    var register := new Option<int>[|compared|](i requires 0 <= i < |compared| => compared[i].register);
    FlagRegister(register);
    flags := [];
    for i := 0 to register.Length
      invariant |flags| == i
      invariant forall k :: 0 <= k < i ==> flags[k] == Flag(compared[k].register)
    {
      flags := flags + [register[i].value];
    }
  }

  // ---------------------------------------------------------------------
  // The whole script
  // ---------------------------------------------------------------------

  /** What the script writes: the metadata requests, the changes list and the compared rows with their flags. */
  datatype Report = Report(requests: seq<Request<string>>, changes: seq<Change>, compared: seq<Compared>, flags: seq<int>)

  /**
    The run, from the listing of the dump folder, the decoded dumps, the
    metadata folder and the ids of the register list (`rf['id']`).  With
    no selected dump `DMP_data` is the column-less `pd.DataFrame()` (:63),
    and `sort_values(by=['id', ...])` raises `KeyError` (:93); with no
    metadata file the merge on `id` raises the same way (:157, :187).
   */
  function UpdatesReport(files: seq<DumpFile>, dumpDir: map<string, Value>,
                         metaListing: seq<string>, metaDir: map<string, Value>,
                         regIds: seq<string>): (r: Result<Report>)
    requires forall f :: f in SelectFiles(files) ==> f.name in dumpDir
    requires forall n :: n in metaListing ==> n in metaDir
    ensures r.Ok? ==> |SelectFiles(files)| > 0 && |metaListing| > 0
  {
    var kept := SelectFiles(files);
    assert forall i :: 0 <= i < |kept| ==> kept[i] in kept;
    var updates :- UpdateTable(Names(kept), dumpDir);
    var data := FirstOccurrences(updates);
    if |kept| == 0 then Fatal
    else
      var meta :- MetadataTable(metaListing, metaDir, true);
      if |metaListing| == 0 then Fatal
      else
        var changes := ChangesOf(data, meta);
        var compared := OuterMerge(changes, regIds);
        Ok(Report(Requests(UpdateIds(data)), changes, compared, Flags(compared)))
  }

  /**
    A finished run: no changes row appears twice, and every compared row
    has a flag, 1 exactly when its id is in the register list.
   */
  lemma ReportSpec(files: seq<DumpFile>, dumpDir: map<string, Value>,
                   metaListing: seq<string>, metaDir: map<string, Value>, regIds: seq<string>)
    requires forall f :: f in SelectFiles(files) ==> f.name in dumpDir
    requires forall n :: n in metaListing ==> n in metaDir
    ensures var r := UpdatesReport(files, dumpDir, metaListing, metaDir, regIds);
            r.Ok? ==> && |r.value.flags| == |r.value.compared|
                      && (forall i :: 0 <= i < |r.value.compared| ==> (r.value.flags[i] == 1 <==> r.value.compared[i].id in regIds))
                      && (forall i :: 0 <= i < |r.value.compared| ==> (r.value.flags[i] == 0 || r.value.flags[i] == 1))
                      && Distinct(r.value.changes)
  {
    var r := UpdatesReport(files, dumpDir, metaListing, metaDir, regIds);
    if r.Ok? {
      var kept := SelectFiles(files);
      assert forall i :: 0 <= i < |kept| ==> kept[i] in kept;
      var data := FirstOccurrences(UpdateTable(Names(kept), dumpDir).value);
      var meta := MetadataTable(metaListing, metaDir, true).value;
      ChangesSpec(data, meta);
      FlagMeansRegistered(r.value.changes, regIds);
      forall i | 0 <= i < |r.value.compared|
        ensures r.value.flags[i] == 1 <==> r.value.compared[i].id in regIds
      {
        assert r.value.compared[i] in r.value.compared;
      }
    }
  }

  /** The script's steps in order, with the in-place `drop_duplicates` and `.loc` updates. */
  method RunUpdates(files: seq<DumpFile>, dumpDir: map<string, Value>,
                    metaListing: seq<string>, metaDir: map<string, Value>,
                    regIds: seq<string>) returns (r: Result<Report>)
    requires forall f :: f in SelectFiles(files) ==> f.name in dumpDir
    requires forall n :: n in metaListing ==> n in metaDir
    ensures r == UpdatesReport(files, dumpDir, metaListing, metaDir, regIds)
  {
    var kept := SelectFiles(files);
    assert forall i :: 0 <= i < |kept| ==> kept[i] in kept;
    var updates := ReadFolderEntries(Names(kept), dumpDir, false, UpdateEntry);
    if updates.Fatal? {
      return Fatal;
    }
    var data := new Table(updates.value);
    data.DropDuplicates();
    if |kept| == 0 {
      return Fatal;
    }
    var requests := PlanRequests(UpdateIds(data.rows));
    var meta := ReadMetadata(metaListing, metaDir, true);
    if meta.Fatal? || |metaListing| == 0 {
      return Fatal;
    }
    var changes := new Table(InnerJoin(data.rows, meta.value, UpdateKey, MetaKey, Combine));
    changes.DropDuplicates();
    var compared := OuterMerge(changes.rows, regIds);
    var flags := ComputeFlags(compared);
    assert updates == UpdateTable(Names(kept), dumpDir);
    assert data.rows == FirstOccurrences(updates.value);
    assert meta == MetadataTable(metaListing, metaDir, true);
    assert changes.rows == ChangesOf(data.rows, meta.value);
    assert requests == Requests(UpdateIds(data.rows));
    return Ok(Report(requests, changes.rows, compared, flags));
  }
}
