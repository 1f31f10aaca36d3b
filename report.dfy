/** The monthly summary workbook (`ReportGenerationAgent`): one row per
    crawled site under a header row, a resumable run reading back the
    URLs of the sites already written, and the row cursor `current_row`.
    The workbook is modelled as its worksheet's rows; the file it is
    loaded from and saved to is an input. */
module Report {
  import opened Text
  import SiteStats

  /** A worksheet cell: empty, text, a whole number, or the outdated
      share `round(part / whole * 100, 2)`. */
  datatype Cell = Blank | Str(text: string) | Number(n: int) | Percent(part: nat, whole: nat)

  type SheetRow = seq<Cell>

  const Headers: SheetRow := [
    Str("網站名稱"), Str("網站URL"), Str("總頁面數"), Str("有日期頁面數"), Str("無日期頁面數"),
    Str("最後更新日期"), Str("一年前內容數量"), Str("一年前內容比例(%)"),
    Str("失效內部頁面數"), Str("失效外部連結數"), Str("總外部連結數"), Str("爬取耗時")]

  /** The crawl duration written when a site's statistics carry none. */
  const NoDuration := "0分0秒"

  /** Python truthiness of a cell value. A percent cell holds
      `round(part / whole * 100, 2)`, which is 0.0, and so false, exactly
      when the share is below 0.005 percent. */
  predicate Truthy(c: Cell) {
    (c.Str? && c.text != "") || (c.Number? && c.n != 0)
    || (c.Percent? && c.part * 20000 >= c.whole)
  }

  /** `str(value)` of a text or number cell. */
  function CellText(c: Cell): string {
    match c
    case Str(t) => t
    case Number(n) => IntText(n)
    case _ => ""
  }

  /** `worksheet.max_row`: an empty worksheet still has row 1. */
  function MaxRow(sheet: seq<SheetRow>): (r: nat)
    ensures r >= 1 && r >= |sheet|
  {
    if |sheet| == 0 then 1 else |sheet|
  }

  /** The cell in column 2 (the site URL) of a row. */
  function UrlCell(row: SheetRow): Cell {
    if |row| >= 2 then row[1] else Blank
  }

  /** The cell names URL `u`: it is non-empty and `u` is its text
      without surrounding whitespace. */
  predicate NamesUrl(c: Cell, u: string) {
    Truthy(c) && u == Strip(CellText(c))
  }

  /** The URLs a cell contributes: none or one. */
  function CellUrls(c: Cell): seq<string> {
    if Truthy(c) then [Strip(CellText(c))] else []
  }

  lemma CellUrlsNamed(c: Cell, u: string)
    ensures u in CellUrls(c) <==> NamesUrl(c, u)
  {
  }

  /** The row's URL cell names `u`. */
  predicate HoldsUrl(row: SheetRow, u: string) {
    NamesUrl(UrlCell(row), u)
  }

  /** What one data row contributes to the processed URLs. */
  function RowUrls(row: SheetRow): seq<string> {
    var c := UrlCell(row);
    if Truthy(c) then [Strip(CellText(c))] else []
  }

  lemma RowUrlsHeld(row: SheetRow, u: string)
    ensures u in RowUrls(row) <==> HoldsUrl(row, u)
  {
    CellUrlsNamed(UrlCell(row), u);
    assert RowUrls(row) == CellUrls(UrlCell(row));
  }

  /** The contributions of `rows`, in order. */
  function Gather<T>(rows: seq<T>, f: T -> seq<string>): seq<string> {
    if rows == [] then [] else Gather(rows[..|rows| - 1], f) + f(rows[|rows| - 1])
  }

  lemma GatherStep<T>(rows: seq<T>, f: T -> seq<string>, k: nat)
    requires k < |rows|
    ensures Gather(rows[..k + 1], f) == Gather(rows[..k], f) + f(rows[k])
  {
    assert rows[..k + 1][..k] == rows[..k];
  }

  lemma {:induction false} GatherSpec<T>(rows: seq<T>, f: T -> seq<string>, u: string)
    ensures u in Gather(rows, f) <==> exists i :: 0 <= i < |rows| && u in f(rows[i])
  {
    if rows != [] {
      var init := rows[..|rows| - 1];
      GatherSpec(init, f, u);
      if u in Gather(init, f) {
        var i :| 0 <= i < |init| && u in f(init[i]);
        assert rows[i] == init[i];
      }
      if exists i :: 0 <= i < |rows| && u in f(rows[i]) {
        var i :| 0 <= i < |rows| && u in f(rows[i]);
        if i < |init| {
          assert init[i] == rows[i];
        }
      }
    }
  }

  /** `get_processed_urls` on a loaded worksheet: the stripped text of
      every non-empty URL cell from row 2 on, in row order. */
  function ProcessedUrls(sheet: seq<SheetRow>): seq<string> {
    if |sheet| <= 1 then [] else Gather(sheet[1..], RowUrls)
  }

  /** One row of the scan in `get_processed_urls`. */
  lemma ScanStep(sheet: seq<SheetRow>, k: nat, before: seq<string>, cell: Cell, after: seq<string>)
    requires 1 <= k < |sheet| && before == ProcessedUrls(sheet[..k]) && cell == UrlCell(sheet[k])
    requires after == before + CellUrls(cell)
    ensures after == ProcessedUrls(sheet[..k + 1])
  {
    ProcessedUrlsStep(sheet, k);
    assert RowUrls(sheet[k]) == CellUrls(cell);
  }

  /** The contributions of every row but the first. */
  lemma GatherAfterFirst<T>(rows: seq<T>, f: T -> seq<string>, u: string)
    requires |rows| > 1
    ensures u in Gather(rows[1..], f) <==> exists i :: 1 <= i < |rows| && u in f(rows[i])
  {
    var tail := rows[1..];
    GatherSpec(tail, f, u);
    if u in Gather(tail, f) {
      var j :| 0 <= j < |tail| && u in f(tail[j]);
      assert rows[j + 1] == tail[j];
    }
    if exists i :: 1 <= i < |rows| && u in f(rows[i]) {
      var i :| 1 <= i < |rows| && u in f(rows[i]);
      assert tail[i - 1] == rows[i];
    }
  }

  lemma GatherAfterFirstStep<T>(rows: seq<T>, f: T -> seq<string>, k: nat)
    requires 1 <= k < |rows|
    ensures Gather(rows[..k + 1][1..], f) == Gather(rows[..k][1..], f) + f(rows[k])
  {
    GatherStep(rows[1..], f, k - 1);
    assert rows[..k + 1][1..] == rows[1..][..k];
    assert rows[..k][1..] == rows[1..][..k - 1];
  }

  lemma ProcessedUrlsStep(sheet: seq<SheetRow>, k: nat)
    requires 1 <= k < |sheet|
    ensures ProcessedUrls(sheet[..k + 1]) == ProcessedUrls(sheet[..k]) + RowUrls(sheet[k])
  {
    GatherAfterFirstStep(sheet, RowUrls, k);
  }

  /** A URL is reported as processed exactly when some row from row 2
      on contributes it (and, by `RowUrlsHeld`, exactly when that row's
      URL cell names it). */
  lemma ProcessedUrlsSpec(sheet: seq<SheetRow>, u: string)
    ensures u in ProcessedUrls(sheet) <==> exists i :: 1 <= i < |sheet| && u in RowUrls(sheet[i])
  {
    if |sheet| > 1 {
      GatherAfterFirst(sheet, RowUrls, u);
    }
  }

  /** The row written for a site. */
  function SiteRow(name: string, url: string, s: SiteStats.Summary, duration: string): (row: SheetRow)
    ensures |row| == |Headers| && row[1] == Str(url)
  {
    [Str(name), Str(url), Number(s.totalPages), Number(s.pagesWithDate), Number(s.noDatePages),
     Str(s.latestUpdate), Number(s.outdatedPages),
     if s.pagesWithDate > 0 then Percent(s.outdatedPages, s.pagesWithDate) else Number(0),
     Number(s.failedPages), Number(s.failedExternalLinks), Number(s.totalExternalLinks), Str(duration)]
  }

  /** Writing the cells of `row` into row `r`: the first cells of an
      existing row are replaced, and a row past the end is added after
      empty rows as needed. */
  function PutRow(sheet: seq<SheetRow>, r: nat, row: SheetRow): (s: seq<SheetRow>)
    requires r >= 1
    ensures |s| == if r <= |sheet| then |sheet| else r
    ensures |s[r - 1]| >= |row| && s[r - 1][..|row|] == row
    ensures forall i :: 0 <= i < |sheet| && i != r - 1 ==> s[i] == sheet[i]
  {
    if r <= |sheet| then
      var old_ := sheet[r - 1];
      sheet[r - 1 := row + if |old_| > |row| then old_[|row|..] else []]
    else sheet + seq(r - 1 - |sheet|, _ => []) + [row]
  }

  /** A site written at row 2 or later is among the processed URLs read
      back afterwards, so a resumed run skips it. */
  lemma AddedSiteIsProcessed(sheet: seq<SheetRow>, r: nat, name: string, url: string,
                             s: SiteStats.Summary, duration: string)
    requires r >= 2 && url != ""
    ensures Strip(url) in ProcessedUrls(PutRow(sheet, r, SiteRow(name, url, s, duration)))
  {
    var after := PutRow(sheet, r, SiteRow(name, url, s, duration));
    var row := SiteRow(name, url, s, duration);
    assert after[r - 1][..|row|][1] == Str(url);
    assert HoldsUrl(after[r - 1], Strip(url));
    RowUrlsHeld(after[r - 1], Strip(url));
    ProcessedUrlsSpec(after, Strip(url));
  }

  class ReportGenerationAgent {
    /** The worksheet: row `r` at index `r - 1`. */
    var sheet: seq<SheetRow>
    /** A workbook and worksheet are open. */
    var loaded: bool
    /** The row the next site goes into. */
    var currentRow: int

    ghost predicate Valid()
      reads this
    {
      currentRow >= 2
    }

    constructor ()
      ensures Valid() && sheet == [] && !loaded && currentRow == 2
    {
      sheet := [];
      loaded := false;
      currentRow := 2;
    }

    /** `initialize_excel_report`: this month's workbook when it exists and
        loads (writing continues after its last row), else a new one with
        the header row. */
    method InitializeExcelReport(existing: Option<seq<SheetRow>>)
      requires Valid()
      modifies this
      ensures Valid() && loaded
      ensures existing.Some? ==> sheet == existing.value && currentRow == MaxRow(existing.value) + 1
      ensures existing.None? ==> sheet == [Headers] && currentRow == old(currentRow)
    {
      if existing.Some? {
        sheet := existing.value;
        currentRow := MaxRow(sheet) + 1;
      } else {
        sheet := [Headers];
      }
      loaded := true;
    }

    /** `get_processed_urls`. */
    method GetProcessedUrls() returns (urls: seq<string>)
      ensures urls == if loaded then ProcessedUrls(sheet) else []
    {
      urls := [];
      if !loaded {
        return;
      }
      for row := 2 to MaxRow(sheet) + 1
        invariant |sheet| == 0 ==> urls == []
        invariant |sheet| > 0 ==> urls == ProcessedUrls(sheet[..row - 1])
      {
        var cell := UrlCell(sheet[row - 1]);
        ghost var before := urls;
        if Truthy(cell) {
          urls := urls + [Strip(CellText(cell))];
        }
        ScanStep(sheet, row - 1, before, cell, urls);
      }
      assert |sheet| > 0 ==> sheet[..|sheet|] == sheet;
    }

    /** `add_site_to_excel`: the site's statistics go into the current row
        and the cursor moves down one row; without an open workbook
        nothing is written (the source raises). */
    method AddSiteToExcel(name: string, url: string, results: seq<int>, lastUpdated: seq<string>,
                          linkStatuses: seq<Option<int>>, duration: Option<string>, now: SiteStats.Clock)
      returns (written: bool)
      requires Valid()
      modifies this
      ensures Valid() && written == old(loaded) && loaded == old(loaded)
      ensures !written ==> sheet == old(sheet) && currentRow == old(currentRow)
      ensures written ==>
        currentRow == old(currentRow) + 1
        && sheet == PutRow(old(sheet), old(currentRow),
                           SiteRow(name, url, SiteStats.SummaryOf(results, lastUpdated, linkStatuses, now),
                                   if duration.Some? then duration.value else NoDuration))
    {
      if !loaded {
        return false;
      }
      var stats := SiteStats.Summarize(results, lastUpdated, linkStatuses, now);
      var d := if duration.Some? then duration.value else NoDuration;
      sheet := PutRow(sheet, currentRow, SiteRow(name, url, stats, d));
      currentRow := currentRow + 1;
      written := true;
    }

    /** `finalize_excel_report`: the workbook is saved and closed. */
    method FinalizeExcelReport()
      modifies this
      ensures !loaded && sheet == old(sheet) && currentRow == old(currentRow)
    {
      loaded := false;
    }
  }
}
