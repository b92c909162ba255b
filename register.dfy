/**
  Steps 5b to 11 of DMP_stats_v1.4.py put together: the certified rows of
  the plans that passed the screening, followed by the GDPR rows
  (:2126-2132); the metadata requests for their ids (:2134-2175); the
  merge with the metadata table (:2217-2220); and the two faculty columns
  (:2224-2247).
 */
module Register {
  import opened Outcomes
  import opened JsonValue
  import opened PyText
  import opened Schema
  import opened Templates
  import opened Pages
  import opened Normalizer
  import opened Screening
  import opened Metadata
  import opened Tables
  import opened Faculty
  import opened Batching

  /** The text in the first cell of column `c`, or "" when the row has none. */
  function CellText(row: Row, c: Column): string
    decreases |row|
  {
    if |row| == 0 then ""
    else if row[0].column == c then (if row[0].value.Str? then row[0].value.s else "")
    else CellText(row[1..], c)
  }

  /** The names of the files whose rows the screening kept, in table order. */
  function KeptFiles(kept: seq<Screened>): (names: seq<string>)
    ensures |names| == |kept|
  {
    seq(|kept|, i requires 0 <= i < |kept| => kept[i].fileName)
  }

  /** Step 5b: the certified plans that passed the screening, read a second time. */
  function CertifiedRows(listing: seq<string>, dir: map<string, Value>): Result<seq<Row>>
    requires forall n :: n in listing ==> n in dir
  {
    var kept :- Screen(listing, dir);
    ScreenedFilesListed(listing, dir);
    assert forall i :: 0 <= i < |kept| ==> kept[i] in kept;
    FolderRows(KeptFiles(kept), dir, Certified)
  }

  method ReadCertified(listing: seq<string>, dir: map<string, Value>) returns (r: Result<seq<Row>>)
    requires forall n :: n in listing ==> n in dir
    ensures r == CertifiedRows(listing, dir)
  {
    var kept := ScreenFolder(listing, dir);
    if kept.Fatal? {
      return Fatal;
    }
    ScreenedFilesListed(listing, dir);
    assert forall i :: 0 <= i < |kept.value| ==> kept.value[i] in kept.value;
    r := ReadFolder(KeptFiles(kept.value), dir, Certified);
  }

  /** Step 6: `pd.concat([DMP_cert_data, DMP_gdpr_data])`. */
  function Combined(certListing: seq<string>, certDir: map<string, Value>,
                    gdprListing: seq<string>, gdprDir: map<string, Value>): Result<seq<Row>>
    requires forall n :: n in certListing ==> n in certDir
    requires forall n :: n in gdprListing ==> n in gdprDir
  {
    var cert :- CertifiedRows(certListing, certDir);
    var gdpr :- FolderRows(gdprListing, gdprDir, Gdpr);
    Ok(cert + gdpr)
  }

  /** Every row read from a folder has the shared layout. */
  lemma FolderLayout(listing: seq<string>, dir: map<string, Value>, f: Family)
    requires forall n :: n in listing ==> n in dir
    ensures FolderRows(listing, dir, f).Ok? ==> forall row :: row in FolderRows(listing, dir, f).value ==> HasLayout(row)
  {
    var r := FolderRows(listing, dir, f);
    if r.Ok? {
      forall row | row in r.value
        ensures HasLayout(row)
      {
        var i :| 0 <= i < |listing| && FileRow(dir[listing[i]], listing[i], f, DocumentBefore(listing, dir, i)) == Ok(Some(row));
      }
    }
  }

  /** Every certified row read a second time has the shared layout. */
  lemma CertifiedLayout(listing: seq<string>, dir: map<string, Value>)
    requires forall n :: n in listing ==> n in dir
    ensures CertifiedRows(listing, dir).Ok? ==> forall row :: row in CertifiedRows(listing, dir).value ==> HasLayout(row)
  {
    if CertifiedRows(listing, dir).Ok? {
      var kept := Screen(listing, dir).value;
      ScreenedFilesListed(listing, dir);
      assert forall i :: 0 <= i < |kept| ==> kept[i] in kept;
      FolderLayout(KeptFiles(kept), dir, Certified);
    }
  }

  /**
    Both families' rows carry the same columns in the same order, so the
    concatenation aligns column by column; the certified rows come first.
   */
  lemma CombinedAligned(certListing: seq<string>, certDir: map<string, Value>,
                        gdprListing: seq<string>, gdprDir: map<string, Value>)
    requires forall n :: n in certListing ==> n in certDir
    requires forall n :: n in gdprListing ==> n in gdprDir
    ensures var r := Combined(certListing, certDir, gdprListing, gdprDir);
            r.Ok? ==> forall row :: row in r.value ==> ColumnsOf(row) == Columns
    ensures var r := Combined(certListing, certDir, gdprListing, gdprDir);
            r.Ok? ==> CertifiedRows(certListing, certDir).Ok?
                      && r.value[..|CertifiedRows(certListing, certDir).value|] == CertifiedRows(certListing, certDir).value
  {
    var r := Combined(certListing, certDir, gdprListing, gdprDir);
    if r.Ok? {
      var cert := CertifiedRows(certListing, certDir).value;
      var gdpr := FolderRows(gdprListing, gdprDir, Gdpr).value;
      assert r.value == cert + gdpr;
      CertifiedLayout(certListing, certDir);
      FolderLayout(gdprListing, gdprDir, Gdpr);
      forall row | row in r.value
        ensures ColumnsOf(row) == Columns
      {
        assert row in cert || row in gdpr;
      }
      assert r.value[..|cert|] == cert;
    }
  }

  /** Step 7: the ids the metadata is requested for, in table order. */
  function RegisterIds(rows: seq<Row>): (ids: seq<string>)
    ensures |ids| == |rows|
  {
    seq(|rows|, i requires 0 <= i < |rows| => CellText(rows[i], Id))
  }

  /** Step 8: the metadata requests for the combined table. */
  function MetadataRequests(rows: seq<Row>): seq<Request<string>> {
    Requests(RegisterIds(rows))
  }

  /** A row extended by the merge with a metadata record. */
  function WithDates(row: Row, m: ProjectDates): Row {
    row + [Cell(ProjectStart, m.start), Cell(ProjectEnd, m.end)]
  }

  /** Step 10: `pd.merge(Register_sensitive_research_temp, DMP_meta_data, on='id')`. */
  function Merged(rows: seq<Row>, meta: seq<ProjectDates>): seq<Row> {
    InnerJoin(rows, meta, (row: Row) => CellText(row, Id), (m: ProjectDates) => m.id, WithDates)
  }

  /** Step 11: `Faculty_name` and `Faculty_strcount` appended to a merged row. */
  function WithFaculty(row: Row, d: Dict): Row {
    var situated := CellText(row, FacultySituated);
    var name := FacultyOf(situated, d);
    row + [Cell(FacultyName, if name.Some? then Str(name.value) else Null),
           Cell(FacultyStrcount, Num(Count(situated, Separator)))]
  }

  function RegisterRows(merged: seq<Row>, d: Dict): (r: seq<Row>)
    ensures |r| == |merged|
  {
    seq(|merged|, i requires 0 <= i < |merged| => WithFaculty(merged[i], d))
  }

  /**
    Steps 5b to 11: the register table from the two form folders, the
    metadata folder and the two columns of the faculty lookup file.  With
    no metadata file `DMP_meta_data` is the column-less `pd.DataFrame()`,
    and the merge on `id` raises `KeyError` (:2191, :2220).
   */
  function RegisterTable(certListing: seq<string>, certDir: map<string, Value>,
                         gdprListing: seq<string>, gdprDir: map<string, Value>,
                         metaListing: seq<string>, metaDir: map<string, Value>,
                         facultyNames: seq<string>, abbrevs: seq<string>): (r: Result<seq<Row>>)
    requires forall n :: n in certListing ==> n in certDir
    requires forall n :: n in gdprListing ==> n in gdprDir
    requires forall n :: n in metaListing ==> n in metaDir
    ensures r.Ok? ==> |gdprListing| > 0 && |metaListing| > 0
    ensures r.Ok? ==> Screen(certListing, certDir).Ok? && |Screen(certListing, certDir).value| > 0
  {
    var rows :- Combined(certListing, certDir, gdprListing, gdprDir);
    var meta :- MetadataTable(metaListing, metaDir, false);
    if |metaListing| == 0 then Fatal
    else Ok(RegisterRows(Merged(rows, meta), DictOf(Zip(facultyNames, abbrevs))))
  }

  /** A text cell whose column does not occur earlier in the row is what `CellText` reads. */
  lemma {:induction false} CellTextAt(row: Row, c: Column, i: nat)
    requires i < |row| && row[i].column == c && row[i].value.Str?
    requires c !in ColumnsOf(row)[..i]
    ensures CellText(row, c) == row[i].value.s
    decreases i
  {
    if i > 0 {
      assert ColumnsOf(row)[0] in ColumnsOf(row)[..i];
      assert ColumnsOf(row[1..])[..i - 1] == ColumnsOf(row)[1..i];
      CellTextAt(row[1..], c, i - 1);
    }
  }

  /** Cells appended after a column's first cell do not change what `CellText` reads. */
  lemma {:induction false} CellTextExtend(row: Row, extra: Row, c: Column)
    requires c in ColumnsOf(row)
    ensures CellText(row + extra, c) == CellText(row, c)
    decreases |row|
  {
    if row[0].column != c {
      assert (row + extra)[1..] == row[1..] + extra;
      assert ColumnsOf(row) == [row[0].column] + ColumnsOf(row[1..]);
      CellTextExtend(row[1..], extra, c);
    }
  }

  /** A merged row keeps the combined row's columns and adds the two dates. */
  lemma MergedColumns(row: Row, m: ProjectDates, d: Dict)
    requires HasLayout(row)
    ensures ColumnsOf(WithFaculty(WithDates(row, m), d)) == RegisterColumns
  {
    var dated := WithDates(row, m);
    var extra1 := [Cell(ProjectStart, m.start), Cell(ProjectEnd, m.end)];
    ColumnsOfAppend(row, extra1);
    assert ColumnsOf(extra1) == [ProjectStart, ProjectEnd];
    var t := WithFaculty(dated, d);
    var extra2 := t[|dated|..];
    assert t == dated + extra2;
    ColumnsOfAppend(dated, extra2);
    assert ColumnsOf(extra2) == [FacultyName, FacultyStrcount];
  }

  /**
    Every register row has the register columns in order and comes from a
    combined row and a metadata record with the same id.
   */
  lemma RegisterRowsSpec(rows: seq<Row>, meta: seq<ProjectDates>, d: Dict)
    requires forall row :: row in rows ==> HasLayout(row)
    ensures forall t: Row :: t in RegisterRows(Merged(rows, meta), d) ==>
              && ColumnsOf(t) == RegisterColumns
              && (exists row, m :: row in rows && m in meta && CellText(row, Id) == m.id
                                  && t == WithFaculty(WithDates(row, m), d))
  {
    var merged := Merged(rows, meta);
    JoinMembers(rows, meta, (row: Row) => CellText(row, Id), (m: ProjectDates) => m.id, WithDates);
    forall t: Row | t in RegisterRows(merged, d)
      ensures ColumnsOf(t) == RegisterColumns
      ensures exists row, m :: row in rows && m in meta && CellText(row, Id) == m.id
                               && t == WithFaculty(WithDates(row, m), d)
    {
      var k :| 0 <= k < |merged| && RegisterRows(merged, d)[k] == t;
      assert merged[k] in merged;
      var row, m :| row in rows && m in meta && CellText(row, Id) == m.id && merged[k] == WithDates(row, m);
      MergedColumns(row, m, d);
    }
  }

  /**
    The faculty cells of a register row: the classification of its own
    `Faculty_situated` text, the last answer, and the separator count.
   */
  lemma FacultyCells(row: Row, m: ProjectDates, d: Dict)
    requires HasLayout(row)
    ensures var t := WithFaculty(WithDates(row, m), d);
            var situated := row[|Columns| - 1].value.s;
            && CellText(t, FacultySituated) == situated
            && t[|Columns| + 2].value == (if FacultyOf(situated, d).Some? then Str(FacultyOf(situated, d).value) else Null)
            && t[|Columns| + 3].value == Num(Count(situated, Separator))
  {
    var last := |Columns| - 1;
    SituatedIsLast();
    assert ColumnsOf(row)[last] == FacultySituated;
    assert FacultySituated in ColumnsOf(row);
    CellTextAt(row, FacultySituated, last);
    var dated := WithDates(row, m);
    CellTextExtend(row, [Cell(ProjectStart, m.start), Cell(ProjectEnd, m.end)], FacultySituated);
    var t := WithFaculty(dated, d);
    ColumnsOfAppend(row, [Cell(ProjectStart, m.start), Cell(ProjectEnd, m.end)]);
    assert t == dated + t[|dated|..];
    CellTextExtend(dated, t[|dated|..], FacultySituated);
  }

  /** The `Faculty_name` and `Faculty_strcount` columns added to every merged row. */
  method AddFacultyColumns(merged: seq<Row>, d: Dict) returns (table: seq<Row>)
    ensures table == RegisterRows(merged, d)
  {
    var situated := seq(|merged|, i requires 0 <= i < |merged| => CellText(merged[i], FacultySituated));
    var names := ClassifyFaculties(situated, d);
    table := [];
    for i := 0 to |merged|
      invariant |table| == i
      invariant forall k :: 0 <= k < i ==> table[k] == WithFaculty(merged[k], d)
    {
      var name := names[i];
      table := table + [merged[i] + [Cell(FacultyName, if name.Some? then Str(name.value) else Null),
                                     Cell(FacultyStrcount, Num(Count(situated[i], Separator)))]];
    }
  }

  /** The run from step 5b on, as the script performs it. */
  method BuildRegister(certListing: seq<string>, certDir: map<string, Value>,
                       gdprListing: seq<string>, gdprDir: map<string, Value>,
                       metaListing: seq<string>, metaDir: map<string, Value>,
                       facultyNames: seq<string>, abbrevs: seq<string>)
    returns (requests: seq<Request<string>>, r: Result<seq<Row>>)
    requires forall n :: n in certListing ==> n in certDir
    requires forall n :: n in gdprListing ==> n in gdprDir
    requires forall n :: n in metaListing ==> n in metaDir
    ensures r == RegisterTable(certListing, certDir, gdprListing, gdprDir, metaListing, metaDir, facultyNames, abbrevs)
    ensures r.Ok? ==> requests == MetadataRequests(Combined(certListing, certDir, gdprListing, gdprDir).value)
  {
    requests := [];
    var gdpr := ReadFolder(gdprListing, gdprDir, Gdpr);
    if gdpr.Fatal? {
      return requests, Fatal;
    }
    var cert := ReadCertified(certListing, certDir);
    if cert.Fatal? {
      return requests, Fatal;
    }
    var rows := cert.value + gdpr.value;
    requests := PlanRequests(RegisterIds(rows));
    var meta := ReadMetadata(metaListing, metaDir, false);
    if meta.Fatal? || |metaListing| == 0 {
      return requests, Fatal;
    }
    var merged := Merged(rows, meta.value);
    var table := AddFacultyColumns(merged, DictOf(Zip(facultyNames, abbrevs)));
    return requests, Ok(table);
  }
}
