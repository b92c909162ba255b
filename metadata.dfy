/**
  The metadata records read back from the downloaded metadata files
  (DMP_stats_v1.4.py:2193-2214, DMPs_updates.py:159-181): the plan id cut
  out of the DMP identifier URL and the project's start and end dates.
 */
module Metadata {
  import opened Outcomes
  import opened JsonValue
  import opened PyText
  import opened Pages

  /** A row of the metadata table: `id`, `project_start`, `project_end`. */
  datatype ProjectDates = ProjectDates(id: string, start: Value, end: Value)

  /** Characters before the plan id in a DMP identifier URL. */
  const IdentifierPrefix: nat := 40

  /** Characters kept of a date. */
  const DateLength: nat := 10

  /**
    `v[0:10]`: a string or a list is cut to its first ten elements (a
    shorter one is kept whole); any other value cannot be sliced.
   */
  function FirstTen(v: Value): (r: Result<Value>)
    ensures v.Str? ==> r.Ok? && r.value.Str? && r.value.s <= v.s && |r.value.s| == if |v.s| < DateLength then |v.s| else DateLength
    ensures v.Arr? ==> r.Ok? && r.value.Arr? && r.value.items <= v.items
                       && |r.value.items| == if |v.items| < DateLength then |v.items| else DateLength
    ensures !(v.Str? || v.Arr?) ==> r.Fatal?
  {
    match v
    case Str(s) => Ok(Str(Take(s, DateLength)))
    case Arr(items) => Ok(Arr(if |items| <= DateLength then items else items[..DateLength]))
    case _ => Fatal
  }

  /** `l2['dmp']['project'][0][field][0:10]`. */
  function ProjectDate(doc: Value, field: string): Result<Value> {
    var projects :- Require(Path(doc, ["dmp", "project"]));
    var first :- Require(At(projects, 0));
    var date :- Require(Key(first, field));
    FirstTen(date)
  }

  /**
    One metadata record.  `str(identifier[40:])` is modelled for a string
    identifier; a list identifier would be rendered by `str` as list text.
   */
  function MetadataEntry(doc: Value): (r: Result<ProjectDates>)
    ensures r.Ok? ==> var ident := Path(doc, ["dmp", "dmp_id", "identifier"]);
                      ident.Some? && ident.value.Str? && r.value.id == Drop(ident.value.s, IdentifierPrefix)
    ensures r.Ok? ==> ProjectDate(doc, "start") == Ok(r.value.start) && ProjectDate(doc, "end") == Ok(r.value.end)
  {
    var ident :- Require(Path(doc, ["dmp", "dmp_id", "identifier"]));
    var id :- if ident.Str? then Ok(Drop(ident.s, IdentifierPrefix)) else Fatal;
    var start :- ProjectDate(doc, "start");
    var end :- ProjectDate(doc, "end");
    Ok(ProjectDates(id, start, end))
  }

  /**
    For a well-formed record the id is what follows the 40-character URL
    prefix and both dates are their first ten characters.
   */
  lemma WellFormedEntry(doc: Value, url: string, start: string, end: string)
    requires Path(doc, ["dmp", "dmp_id", "identifier"]) == Some(Str(url))
    requires Path(doc, ["dmp", "project"]).Some? && Path(doc, ["dmp", "project"]).value.Arr?
    requires var ps := Path(doc, ["dmp", "project"]).value.items;
             |ps| > 0 && Key(ps[0], "start") == Some(Str(start)) && Key(ps[0], "end") == Some(Str(end))
    ensures MetadataEntry(doc).Ok?
    ensures MetadataEntry(doc).value.id == Drop(url, IdentifierPrefix)
    ensures MetadataEntry(doc).value.start == Str(Take(start, DateLength))
    ensures MetadataEntry(doc).value.end == Str(Take(end, DateLength))
    ensures |url| >= IdentifierPrefix ==> url == url[..IdentifierPrefix] + MetadataEntry(doc).value.id
  {
  }

  /** The metadata table of a folder of metadata files. */
  function MetadataTable(listing: seq<string>, dir: map<string, Value>, skipNone: bool): Result<seq<ProjectDates>>
    requires forall n :: n in listing ==> n in dir
  {
    FolderEntries(listing, dir, skipNone, MetadataEntry)
  }

  /** The metadata loop: `DMPs_updates.py` skips `None` pages (:169), `DMP_stats_v1.4.py` does not (:2202-2203). */
  method ReadMetadata(listing: seq<string>, dir: map<string, Value>, skipNone: bool) returns (r: Result<seq<ProjectDates>>)
    requires forall n :: n in listing ==> n in dir
    ensures r == MetadataTable(listing, dir, skipNone)
  {
    r := ReadFolderEntries(listing, dir, skipNone, MetadataEntry);
  }

  /** Every record of a file comes from one of its documents, in document order. */
  lemma FileRecords(content: Value, skipNone: bool)
    requires FileEntries(content, skipNone, MetadataEntry).Ok?
    ensures Documents(content, skipNone).Ok?
    ensures var docs := Documents(content, skipNone).value;
            var recs := FileEntries(content, skipNone, MetadataEntry).value;
            |recs| == |docs| && forall i :: 0 <= i < |docs| ==> MetadataEntry(docs[i]) == Ok(recs[i])
  {
  }
}
