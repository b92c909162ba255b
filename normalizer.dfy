/**
  One normalised row per downloaded plan (DMP_stats_v1.4.py steps 5a and
  5b): the document-level fields, then one cell per answer column filled
  by the template's block for that column, in the column order shared by
  both templates.
 */
module Normalizer {
  import opened Outcomes
  import opened JsonValue
  import opened Sanitizer
  import opened Extractor
  import opened Schema
  import opened Templates
  import opened Pages

  datatype Cell = Cell(column: Column, value: Value)

  type Row = seq<Cell>

  /** The column names of a row, in order. */
  function ColumnsOf(row: Row): (cs: seq<Column>)
    ensures |cs| == |row|
  {
    seq(|row|, i requires 0 <= i < |row| => row[i].column)
  }

  lemma ColumnsOfAppend(row: Row, extra: Row)
    ensures ColumnsOf(row + extra) == ColumnsOf(row) + ColumnsOf(extra)
  {
  }

  /** A row carries the shared columns in order, and every answer cell holds text. */
  predicate HasLayout(row: Row) {
    && ColumnsOf(row) == Columns
    && (forall i :: |MetaColumns| <= i < |row| ==> row[i].value.Str?)
  }

  // ---------------------------------------------------------------------
  // Document-level fields
  // ---------------------------------------------------------------------

  /** The patterns the certified loop removes from a title (:1219-1227). */
  const TitlePatterns: seq<string> := Entities + Semicolons

  /**
    The title loops of the certified branch.  A string is substituted like
    an answer, with `;` becoming `.`.  `tag in title` also works on a list
    (element test) or a dict (key test), and then the `replace` that follows
    a hit raises; on any other value the test itself raises.
   */
  function CleanTitle(v: Value): (r: Result<Value>)
    ensures v.Str? ==> r == Ok(Str(Substituted(v.s, ".")))
    ensures (v.Arr? || v.Obj?) && r.Ok? ==> r.value == v
    ensures v.Arr? ==> (r.Fatal? <==> exists p :: p in TitlePatterns && Str(p) in v.items)
    ensures v.Obj? ==> (r.Fatal? <==> exists p :: p in TitlePatterns && p in v.fields)
    ensures !(v.Str? || v.Arr? || v.Obj?) ==> r.Fatal?
  {
    match v
    case Str(s) => Ok(Str(Substituted(s, ".")))
    case Arr(items) => if exists p :: p in TitlePatterns && Str(p) in items then Fatal else Ok(v)
    case Obj(m) => if exists p :: p in TitlePatterns && p in m then Fatal else Ok(v)
    case _ => Fatal
  }

  /**
    The document-level fields in row order: `str(l2['id'])`, the title, the
    template title, the funder name, `last_updated`, the file name and the
    data contact's name and e-mail (:225-232, :1219-1236).  Each lookup
    sits outside any `try`.
   */
  function MetaValues(doc: Value, fileName: string, f: Family): (r: Result<seq<Value>>)
    ensures r.Ok? ==> |r.value| == |MetaColumns|
    ensures r.Ok? ==> Key(doc, "id").Some? && ScalarText(Key(doc, "id").value).Some?
                      && r.value[0] == Str(ScalarText(Key(doc, "id").value).value)
    ensures r.Ok? ==> r.value[5] == Str(fileName)
  {
    var id :- Require(Key(doc, "id"));
    var idText :- Require(ScalarText(id));
    var rawTitle :- Require(Key(doc, "title"));
    var title :- if f == Certified then CleanTitle(rawTitle) else Ok(rawTitle);
    var template :- Require(Path(doc, ["template", "title"]));
    var funder :- Require(Path(doc, ["funder", "name"]));
    var updated :- Require(Key(doc, "last_updated"));
    var contactName :- Require(Path(doc, ["data_contact", "name"]));
    var contactEmail :- Require(Path(doc, ["data_contact", "email"]));
    Ok([Str(idText), title, template, funder, updated, Str(fileName), contactName, contactEmail])
  }

  /** The title loops as the script runs them. */
  method CleanTitleOf(v: Value) returns (r: Result<Value>)
    ensures r == CleanTitle(v)
  {
    if v.Str? {
      var t := ReplaceListed(v.s, Entities, " ");
      t := ReplaceListed(t, Semicolons, ".");
      return Ok(Str(t));
    }
    return CleanTitle(v);
  }

  method ReadMeta(doc: Value, fileName: string, f: Family) returns (r: Result<seq<Value>>)
    ensures r == MetaValues(doc, fileName, f)
  {
    var id := Key(doc, "id");
    if id.None? || ScalarText(id.value).None? {
      return Fatal;
    }
    var rawTitle := Key(doc, "title");
    if rawTitle.None? {
      return Fatal;
    }
    var title := Ok(rawTitle.value);
    if f == Certified {
      title := CleanTitleOf(rawTitle.value);
    }
    if title.Fatal? {
      return Fatal;
    }
    var template := Path(doc, ["template", "title"]);
    var funder := Path(doc, ["funder", "name"]);
    var updated := Key(doc, "last_updated");
    var contactName := Path(doc, ["data_contact", "name"]);
    var contactEmail := Path(doc, ["data_contact", "email"]);
    if template.None? || funder.None? || updated.None? || contactName.None? || contactEmail.None? {
      return Fatal;
    }
    return Ok([Str(ScalarText(id.value).value), title.value, template.value, funder.value, updated.value,
               Str(fileName), contactName.value, contactEmail.value]);
  }

  // ---------------------------------------------------------------------
  // Answer columns
  // ---------------------------------------------------------------------

  /** The value block `b` gives column `c`: its first cell, unless `c` names the second half. */
  function ColumnValue(doc: Value, b: Block, c: Column): Result<string>
    requires c in BlockColumns(b)
  {
    var cells :- BlockCells(doc, b);
    BlockCellsColumns(doc, b);
    Ok(if c == cells[0].0 then cells[0].1 else cells[|cells| - 1].1)
  }

  predicate Fills(t: map<Column, Block>, cols: seq<Column>) {
    forall c :: c in cols ==> c in t && c in BlockColumns(t[c])
  }

  /** What the block of each column in `cols` gives it, in that order. */
  function ColumnOutcomes(doc: Value, t: map<Column, Block>, cols: seq<Column>): (rs: seq<Result<string>>)
    requires Fills(t, cols)
    ensures |rs| == |cols|
    ensures forall k :: 0 <= k < |cols| ==> rs[k] == ColumnValue(doc, t[cols[k]], cols[k])
  {
    seq(|cols|, k requires 0 <= k < |cols| => ColumnValue(doc, t[cols[k]], cols[k]))
  }

  /** The answers for `cols`, in that order; the run stops at the first block that fails. */
  function AnswerValues(doc: Value, t: map<Column, Block>, cols: seq<Column>): (r: Result<seq<string>>)
    requires Fills(t, cols)
    ensures r.Ok? ==> |r.value| == |cols|
  {
    AllOk(ColumnOutcomes(doc, t, cols))
  }

  /** Builds the row from its document-level values and its answers. */
  function MakeRow(meta: seq<Value>, answers: seq<string>): (row: Row)
    requires |meta| == |MetaColumns| && |answers| == |AnswerColumns|
    ensures HasLayout(row)
    ensures forall i :: 0 <= i < |MetaColumns| ==> row[i].value == meta[i]
    ensures forall k :: 0 <= k < |AnswerColumns| ==> row[|MetaColumns| + k].value == Str(answers[k])
  {
    seq(|Columns|, i requires 0 <= i < |Columns| =>
      Cell(Columns[i], if i < |MetaColumns| then meta[i] else Str(answers[i - |MetaColumns|])))
  }

  /** The row of one document of template family `f`. */
  function NormalizedRow(doc: Value, fileName: string, f: Family): (r: Result<Row>)
    ensures r.Ok? ==> HasLayout(r.value)
  {
    var meta :- MetaValues(doc, fileName, f);
    TemplateFillsAnswerColumns(f);
    var answers :- AnswerValues(doc, Layout(f), AnswerColumns);
    Ok(MakeRow(meta, answers))
  }

  /**
    The answers succeed exactly when every column's block does, and then
    the k-th answer is the k-th column's value.
   */
  lemma AnswerValuesByColumn(doc: Value, t: map<Column, Block>, cols: seq<Column>)
    requires Fills(t, cols)
    ensures AnswerValues(doc, t, cols).Ok? <==> forall k :: 0 <= k < |cols| ==> ColumnValue(doc, t[cols[k]], cols[k]).Ok?
    ensures AnswerValues(doc, t, cols).Ok? ==>
              forall k :: 0 <= k < |cols| ==> AnswerValues(doc, t, cols).value[k] == ColumnValue(doc, t[cols[k]], cols[k]).value
  {
    AllOkByIndex(ColumnOutcomes(doc, t, cols));
  }

  /**
    Each answer cell of a row is its column's block value, and a row
    exists exactly when the document-level lookups and every block succeed.
   */
  lemma RowCells(doc: Value, fileName: string, f: Family)
    ensures Fills(Layout(f), AnswerColumns)
    ensures Fills(Layout(f), AnswerColumns) &&
            (NormalizedRow(doc, fileName, f).Ok? <==>
              MetaValues(doc, fileName, f).Ok?
              && forall k :: 0 <= k < |AnswerColumns| ==>
                   ColumnValue(doc, Layout(f)[AnswerColumns[k]], AnswerColumns[k]).Ok?)
    ensures Fills(Layout(f), AnswerColumns) &&
            (NormalizedRow(doc, fileName, f).Ok? ==>
              forall k :: 0 <= k < |AnswerColumns| ==>
                NormalizedRow(doc, fileName, f).value[|MetaColumns| + k].value
                  == Str(ColumnValue(doc, Layout(f)[AnswerColumns[k]], AnswerColumns[k]).value))
  {
    TemplateFillsAnswerColumns(f);
    AnswerValuesByColumn(doc, Layout(f), AnswerColumns);
  }

  /** The row's id cell is `str(l2['id'])` and its file-name cell the file read. */
  lemma RowIdentity(doc: Value, fileName: string, f: Family)
    requires NormalizedRow(doc, fileName, f).Ok?
    ensures Key(doc, "id").Some? && ScalarText(Key(doc, "id").value).Some?
    ensures NormalizedRow(doc, fileName, f).value[0] == Cell(Id, Str(ScalarText(Key(doc, "id").value).value))
    ensures NormalizedRow(doc, fileName, f).value[5] == Cell(FileName, Str(fileName))
  {
    var row := NormalizedRow(doc, fileName, f).value;
    assert ColumnsOf(row) == Columns;
    assert Columns[..|MetaColumns|] == MetaColumns;
    assert row[0].column == MetaColumns[0] && row[5].column == MetaColumns[5];
  }

  /** The blocks of `cols`, run one column after the other. */
  method ReadAnswers(doc: Value, t: map<Column, Block>, cols: seq<Column>) returns (r: Result<seq<string>>)
    requires Fills(t, cols)
    ensures r == AnswerValues(doc, t, cols)
  {
    ghost var rs := ColumnOutcomes(doc, t, cols);
    var answers: seq<string> := [];
    for k := 0 to |cols|
      invariant AllOk(rs[..k]) == Ok(answers)
    {
      assert rs[..k + 1][..k] == rs[..k];
      var c := cols[k];
      var cells := ReadBlock(doc, t[c]);
      if cells.Fatal? {
        AllOkByIndex(rs);
        return Fatal;
      }
      BlockCellsColumns(doc, t[c]);
      var v := if c == cells.value[0].0 then cells.value[0].1 else cells.value[|cells.value| - 1].1;
      answers := answers + [v];
    }
    assert rs[..|cols|] == rs;
    return Ok(answers);
  }

  /** The per-document loop body: document-level fields, then every block. */
  method NormalizeDocument(doc: Value, fileName: string, f: Family) returns (r: Result<Row>)
    ensures r == NormalizedRow(doc, fileName, f)
  {
    var meta := ReadMeta(doc, fileName, f);
    if meta.Fatal? {
      return Fatal;
    }
    TemplateFillsAnswerColumns(f);
    var answers := ReadAnswers(doc, Layout(f), AnswerColumns);
    if answers.Fatal? {
      return Fatal;
    }
    return Ok(MakeRow(meta.value, answers.value));
  }

  // ---------------------------------------------------------------------
  // One file
  // ---------------------------------------------------------------------

  /**
    What one downloaded file adds to its folder's table.  The document-level
    lists grow with every document of the file while the answer lists are
    re-created for each (:238, :263, ...), so building the table of a file
    with several documents stops the run.  A file without documents starts
    an empty table, and the first answer list assigned to it
    (`Plan_version_g` at :1088, `Plan_version_h` at :2082) is the one left
    over from the last document read: pandas re-indexes the table to one
    row whose `id` is missing, and `None` stands for that row.  Before any
    document has been read (`seen` is false) that name is unbound and the
    run stops.
   */
  function FileRow(content: Value, fileName: string, f: Family, seen: bool): (r: Result<Option<Row>>)
    ensures r.Ok? && r.value.Some? ==> HasLayout(r.value.value)
  {
    var docs :- Documents(content, false);
    if |docs| == 0 then (if seen then Ok(None) else Fatal)
    else if |docs| != 1 then Fatal
    else
      var row :- NormalizedRow(docs[0], fileName, f);
      Ok(Some(row))
  }

  /**
    A file with several documents stops the run, one with a single document
    gives that document's row, and one without documents gives the row
    without id after an earlier document and stops the run before any.
   */
  lemma FileRowCases(content: Value, fileName: string, f: Family, seen: bool)
    requires Documents(content, false).Ok?
    ensures |Documents(content, false).value| > 1 ==> FileRow(content, fileName, f, seen).Fatal?
    ensures |Documents(content, false).value| == 1 ==>
              var row := NormalizedRow(Documents(content, false).value[0], fileName, f);
              && (FileRow(content, fileName, f, seen).Ok? <==> row.Ok?)
              && (row.Ok? ==> FileRow(content, fileName, f, seen) == Ok(Some(row.value)))
    ensures |Documents(content, false).value| == 0 ==>
              (FileRow(content, fileName, f, seen).Ok? <==> seen)
              && (seen ==> FileRow(content, fileName, f, seen) == Ok(None))
  {
  }

  /** A file gives a row exactly when it holds a document. */
  lemma FileRowHasDocument(content: Value, fileName: string, f: Family, seen: bool)
    requires FileRow(content, fileName, f, seen).Ok?
    ensures FileRow(content, fileName, f, seen).value.Some? <==> HasDocument(content)
  {
  }

  /** Reads a file: every document is processed, then the table is built. */
  method ReadFile(content: Value, fileName: string, f: Family, seen: bool) returns (r: Result<Option<Row>>)
    ensures r == FileRow(content, fileName, f, seen)
  {
    var docs := ReadDocuments(content, false);
    if docs.Fatal? {
      return Fatal;
    }
    var rows: seq<Row> := [];
    for i := 0 to |docs.value|
      invariant |rows| == i
      invariant i > 0 ==> NormalizedRow(docs.value[0], fileName, f) == Ok(rows[0])
    {
      var row := NormalizeDocument(docs.value[i], fileName, f);
      if row.Fatal? {
        return Fatal;
      }
      rows := rows + [row.value];
    }
    if |rows| == 0 {
      if seen {
        return Ok(None);
      }
      return Fatal;
    }
    if |rows| != 1 {
      return Fatal;
    }
    return Ok(Some(rows[0]));
  }

  // ---------------------------------------------------------------------
  // All files of a folder
  // ---------------------------------------------------------------------

  /**
    The concatenated table after the first `k` files of `listing`, one
    entry per file in listing order: the file's row, or `None` for the row
    without id that a file without documents adds.
   */
  function FolderFrame(listing: seq<string>, dir: map<string, Value>, f: Family, k: nat): (r: Result<seq<Option<Row>>>)
    requires k <= |listing|
    requires forall n :: n in listing ==> n in dir
    ensures r.Ok? ==> |r.value| == k
    ensures r.Ok? ==> forall i :: 0 <= i < k ==>
                        FileRow(dir[listing[i]], listing[i], f, DocumentBefore(listing, dir, i)) == Ok(r.value[i])
    decreases k
  {
    if k == 0 then Ok([])
    else
      var prev :- FolderFrame(listing, dir, f, k - 1);
      var row :- FileRow(dir[listing[k - 1]], listing[k - 1], f, DocumentBefore(listing, dir, k - 1));
      Ok(prev + [row])
  }

  /**
    The folder's table after `dropna(subset=['id'])` (:1128, :2122): the
    rows without id are dropped, the others keep their order.  With no
    file at all the loop never ran, the table is the column-less
    `pd.DataFrame()`, and `dropna` raises `KeyError`.
   */
  function FolderRows(listing: seq<string>, dir: map<string, Value>, f: Family): (r: Result<seq<Row>>)
    requires forall n :: n in listing ==> n in dir
    ensures r.Ok? ==> |listing| > 0
    ensures r.Ok? ==> FolderFrame(listing, dir, f, |listing|).Ok?
                      && r.value == Somes(FolderFrame(listing, dir, f, |listing|).value)
    ensures r.Ok? ==> forall row :: row in r.value ==>
                        exists i :: 0 <= i < |listing|
                                    && FileRow(dir[listing[i]], listing[i], f, DocumentBefore(listing, dir, i)) == Ok(Some(row))
  {
    if |listing| == 0 then Fatal
    else
      var frame :- FolderFrame(listing, dir, f, |listing|);
      SomesMembers(frame);
      Ok(Somes(frame))
  }

  /** The table after `k` files exists exactly when each of those files gives its entry. */
  lemma {:induction false} FolderFrameOk(listing: seq<string>, dir: map<string, Value>, f: Family, k: nat)
    requires k <= |listing|
    requires forall n :: n in listing ==> n in dir
    ensures FolderFrame(listing, dir, f, k).Ok? <==>
              forall i :: 0 <= i < k ==> FileRow(dir[listing[i]], listing[i], f, DocumentBefore(listing, dir, i)).Ok?
    decreases k
  {
    if k > 0 {
      FolderFrameOk(listing, dir, f, k - 1);
      var row := FileRow(dir[listing[k - 1]], listing[k - 1], f, DocumentBefore(listing, dir, k - 1));
      assert FolderFrame(listing, dir, f, k).Ok? <==> FolderFrame(listing, dir, f, k - 1).Ok? && row.Ok?;
    }
  }

  /** One more file extends the table by that file's entry. */
  lemma FolderFrameSnoc(listing: seq<string>, dir: map<string, Value>, f: Family, k: nat, row: Option<Row>)
    requires k < |listing|
    requires forall n :: n in listing ==> n in dir
    requires FolderFrame(listing, dir, f, k).Ok?
    requires FileRow(dir[listing[k]], listing[k], f, DocumentBefore(listing, dir, k)) == Ok(row)
    ensures FolderFrame(listing, dir, f, k + 1) == Ok(FolderFrame(listing, dir, f, k).value + [row])
  {
  }

  /** A file that stops the run stops the whole folder. */
  lemma FileStopsFolder(listing: seq<string>, dir: map<string, Value>, f: Family, k: nat)
    requires k < |listing|
    requires forall n :: n in listing ==> n in dir
    requires FileRow(dir[listing[k]], listing[k], f, DocumentBefore(listing, dir, k)).Fatal?
    ensures FolderRows(listing, dir, f).Fatal?
  {
    FolderFrameOk(listing, dir, f, |listing|);
  }

  /**
    A folder's table exists exactly when the folder holds a file and every
    file gives its row or, after an earlier document, the row without id.
   */
  lemma FolderRowsOk(listing: seq<string>, dir: map<string, Value>, f: Family)
    requires forall n :: n in listing ==> n in dir
    ensures FolderRows(listing, dir, f).Ok? <==>
              && |listing| > 0
              && forall i :: 0 <= i < |listing| ==> FileRow(dir[listing[i]], listing[i], f, DocumentBefore(listing, dir, i)).Ok?
  {
    FolderFrameOk(listing, dir, f, |listing|);
  }

  /** A file without documents read after a document leaves the table as it was. */
  lemma EmptyFileAddsNothing(listing: seq<string>, dir: map<string, Value>, f: Family, k: nat)
    requires forall n :: n in listing ==> n in dir
    requires k < |listing|
    requires Documents(dir[listing[k]], false) == Ok([])
    requires DocumentBefore(listing, dir, k)
    requires FolderFrame(listing, dir, f, k).Ok?
    ensures FolderFrame(listing, dir, f, k + 1).Ok?
    ensures Somes(FolderFrame(listing, dir, f, k + 1).value) == Somes(FolderFrame(listing, dir, f, k).value)
  {
    var frame := FolderFrame(listing, dir, f, k).value;
    assert FolderFrame(listing, dir, f, k + 1) == Ok(frame + [None]);
    assert (frame + [None])[..k] == frame;
  }

  /** A file with a document appends its row to the table. */
  lemma FileRowAppends(listing: seq<string>, dir: map<string, Value>, f: Family, k: nat)
    requires forall n :: n in listing ==> n in dir
    requires k < |listing|
    requires FolderFrame(listing, dir, f, k + 1).Ok?
    requires HasDocument(dir[listing[k]])
    ensures FolderFrame(listing, dir, f, k).Ok?
    ensures var row := FileRow(dir[listing[k]], listing[k], f, DocumentBefore(listing, dir, k));
            && row.Ok? && row.value.Some?
            && Somes(FolderFrame(listing, dir, f, k + 1).value) == Somes(FolderFrame(listing, dir, f, k).value) + [row.value.value]
  {
    var frame := FolderFrame(listing, dir, f, k).value;
    var row := FileRow(dir[listing[k]], listing[k], f, DocumentBefore(listing, dir, k));
    assert FolderFrame(listing, dir, f, k + 1) == Ok(frame + [row.value]);
    assert (frame + [row.value])[..k] == frame;
  }

  /** A file without documents read before any document stops the run. */
  lemma EmptyFileFirstStops(listing: seq<string>, dir: map<string, Value>, f: Family, k: nat)
    requires forall n :: n in listing ==> n in dir
    requires k < |listing|
    requires Documents(dir[listing[k]], false) == Ok([])
    requires forall j :: 0 <= j < k ==> !HasDocument(dir[listing[j]])
    ensures FolderRows(listing, dir, f).Fatal?
  {
    DocumentBeforeSome(listing, dir, k);
    FolderRowsOk(listing, dir, f);
    assert FileRow(dir[listing[k]], listing[k], f, DocumentBefore(listing, dir, k)).Fatal?;
  }

  /**
    The `while` loop over a folder's files: all GDPR files in step 5a
    (:205-1127), the files kept by the screening in step 5b (:1201-2120),
    then `dropna(subset=['id'])`.
   */
  method ReadFolder(listing: seq<string>, dir: map<string, Value>, f: Family) returns (r: Result<seq<Row>>)
    requires forall n :: n in listing ==> n in dir
    ensures r == FolderRows(listing, dir, f)
  {
    var frame: seq<Option<Row>> := [];
    var seen := false;
    var i := 0;
    while i != |listing|
      invariant 0 <= i <= |listing|
      invariant FolderFrame(listing, dir, f, i) == Ok(frame)
      invariant seen == DocumentBefore(listing, dir, i)
    {
      var row := ReadFile(dir[listing[i]], listing[i], f, seen);
      if row.Fatal? {
        FileStopsFolder(listing, dir, f, i);
        return Fatal;
      }
      FileRowHasDocument(dir[listing[i]], listing[i], f, seen);
      FolderFrameSnoc(listing, dir, f, i, row.value);
      seen := seen || row.value.Some?;
      frame := frame + [row.value];
      i := i + 1;
    }
    if |listing| == 0 {
      return Fatal;
    }
    return Ok(Somes(frame));
  }
}
