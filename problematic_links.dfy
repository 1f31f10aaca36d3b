/** The error-link extraction run after each site: the entries of the
    saved page summary whose status is not 200 become rows of
    `error_pages.csv` and `error_external_links.csv`. Reading the JSON
    file and writing the CSV files are left out; the parsed file is an
    input and each CSV file is its list of rows. */
module ProblematicLinks {
  import opened Text

  /** The `source_page` of an entry: `None` when it is missing, null or
      empty; its `url` is `None` when absent. */
  datatype SourcePage = SourcePage(url: Option<string>)

  /** One entry of `page_summary` or `external_links`: its key, its
      `status` (`None` when absent) and its `source_page`. */
  datatype Entry = Entry(url: string, status: Option<int>, source: Option<SourcePage>)

  /** The parsed JSON file; a missing section is an empty one. */
  datatype SummaryFile = SummaryFile(pageSummary: seq<Entry>, externalLinks: seq<Entry>)

  /** One CSV row: `problematic_url`, `status`, `parent_url`. */
  datatype Row = Row(problematicUrl: string, status: int, parentUrl: string)

  /** The two CSV files; `None` for a file that is not written. */
  datatype CsvFiles = CsvFiles(errorPages: Option<seq<Row>>, errorExternalLinks: Option<seq<Row>>)

  /** The CSV header. */
  const Fields := ["problematic_url", "status", "parent_url"]

  /** `link_info.get('status', 200)`. */
  function StatusOf(e: Entry): int {
    if e.status.Some? then e.status.value else 200
  }

  /** `source_page.get('url', '') if source_page else ''`. */
  function ParentUrl(e: Entry): (p: string)
    ensures e.source.None? ==> p == ""
  {
    if e.source.Some? && e.source.value.url.Some? then e.source.value.url.value else ""
  }

  /** The row one entry becomes. */
  function RowOf(e: Entry): Row
  {
    Row(e.url, StatusOf(e), ParentUrl(e))
  }

  function IsError(): Entry -> bool {
    (e: Entry) => StatusOf(e) != 200
  }

  /** The rows of `entries`, in order. */
  function RowsOf(entries: seq<Entry>): (rows: seq<Row>)
    ensures |rows| == |entries|
  {
    if entries == [] then [] else RowsOf(entries[..|entries| - 1]) + [RowOf(entries[|entries| - 1])]
  }

  lemma {:induction false} RowsOfAt(entries: seq<Entry>, i: nat)
    requires i < |entries|
    ensures RowsOf(entries)[i] == RowOf(entries[i])
  {
    if i < |entries| - 1 {
      RowsOfAt(entries[..|entries| - 1], i);
    }
  }

  /** The error rows of one section: a row per entry whose status is not
      200, in entry order. */
  function ErrorRows(entries: seq<Entry>): seq<Row> {
    RowsOf(Filter(entries, IsError()))
  }

  /** An entry's row is among the error rows exactly when its status,
      200 when missing, is not 200. */
  lemma ErrorRowIffNot200(entries: seq<Entry>, e: Entry)
    requires e in entries
    ensures RowOf(e) in ErrorRows(entries) <==> StatusOf(e) != 200
  {
    var errors := Filter(entries, IsError());
    FilterMembers(entries, IsError(), e);
    if RowOf(e) in ErrorRows(entries) {
      var i :| 0 <= i < |errors| && RowsOf(errors)[i] == RowOf(e);
      RowsOfAt(errors, i);
      FilterMembers(entries, IsError(), errors[i]);
    }
    if StatusOf(e) != 200 {
      var i :| 0 <= i < |errors| && errors[i] == e;
      RowsOfAt(errors, i);
    }
  }

  /** Every error row reports a status other than 200. */
  lemma ErrorRowsNot200(entries: seq<Entry>, r: Row)
    requires r in ErrorRows(entries)
    ensures r.status != 200
  {
    var errors := Filter(entries, IsError());
    var i :| 0 <= i < |errors| && RowsOf(errors)[i] == r;
    RowsOfAt(errors, i);
    FilterMembers(entries, IsError(), errors[i]);
  }

  lemma RowsStep(entries: seq<Entry>, k: nat, before: seq<Row>, after: seq<Row>)
    requires k < |entries| && before == ErrorRows(entries[..k])
    requires after == if StatusOf(entries[k]) != 200 then before + [RowOf(entries[k])] else before
    ensures after == ErrorRows(entries[..k + 1])
  {
    assert entries[..k + 1] == entries[..k] + [entries[k]];
    FilterSnoc(entries[..k], entries[k], IsError());
    var f := Filter(entries[..k], IsError());
    assert (f + [entries[k]])[..|f|] == f;
  }

  /** One section's loop. */
  method CollectErrorRows(entries: seq<Entry>) returns (rows: seq<Row>)
    ensures rows == ErrorRows(entries)
  {
    rows := [];
    for i := 0 to |entries|
      invariant rows == ErrorRows(entries[..i])
    {
      ghost var before := rows;
      var status := if entries[i].status.Some? then entries[i].status.value else 200;
      if status != 200 {
        var source := entries[i].source;
        var parent := if source.Some? && source.value.url.Some? then source.value.url.value else "";
        rows := rows + [Row(entries[i].url, status, parent)];
      }
      RowsStep(entries, i, before, rows);
    }
    assert entries[..|entries|] == entries;
  }

  /** A row list as a file: written only when it is not empty. */
  function FileOf(rows: seq<Row>): Option<seq<Row>> {
    if rows == [] then None else Some(rows)
  }

  /** `extract_error_links_from_json`: nothing when the JSON file does not
      exist, else one CSV per section that has error rows. */
  method ExtractErrorLinks(json: Option<SummaryFile>) returns (files: CsvFiles)
    ensures json.None? ==> files == CsvFiles(None, None)
    ensures json.Some? ==> files == CsvFiles(FileOf(ErrorRows(json.value.pageSummary)),
                                             FileOf(ErrorRows(json.value.externalLinks)))
  {
    if json.None? {
      return CsvFiles(None, None);
    }
    var errorPages := CollectErrorRows(json.value.pageSummary);
    var errorExternalLinks := CollectErrorRows(json.value.externalLinks);
    files := CsvFiles(None, None);
    if errorPages != [] {
      files := files.(errorPages := Some(errorPages));
    }
    if errorExternalLinks != [] {
      files := files.(errorExternalLinks := Some(errorExternalLinks));
    }
  }

  /** A CSV file is written exactly when its section has an entry whose
      status is not 200. */
  lemma FileWrittenIffError(entries: seq<Entry>)
    ensures FileOf(ErrorRows(entries)).Some? <==> exists e :: e in entries && StatusOf(e) != 200
  {
    var errors := Filter(entries, IsError());
    if errors != [] {
      FilterMembers(entries, IsError(), errors[0]);
    }
    if exists e :: e in entries && StatusOf(e) != 200 {
      var e :| e in entries && StatusOf(e) != 200;
      FilterMembers(entries, IsError(), e);
    }
  }
}
