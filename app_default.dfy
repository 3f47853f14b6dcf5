/**
 * The older single-file wizard of src/App.default.tsx: the same three steps,
 * with a tab-only parser whose rows are cut to five before anything else
 * sees them, a mapping update that overwrites, failures shown in an alert,
 * and its own pagination values, whose page count is 0 for an empty result.
 */
module AppDefault {
  import opened Wrappers
  import opened Bom
  import opened Text
  import opened TextParse
  import opened ColumnMap
  import Step3Results

  /** What the component renders. */
  datatype Screen =
    | UploadScreen(rawData: string, continueEnabled: bool)
    | MappingScreen(selectors: nat, body: Grid, processEnabled: bool)
    | ResultsScreen(page: int, totalPages: int, rows: seq<(int, ResultRow)>, prevDisabled: bool, nextDisabled: bool)
    | Blank

  /** `Math.ceil(totalRows / rowsPerPage)`, with no lower bound of 1. */
  function PageCount(n: nat, size: nat): (t: nat)
    requires size > 0
    ensures t * size >= n && (t == 0 || (t - 1) * size < n)
    ensures t == 0 <==> n == 0
  {
    Step3Results.CeilDiv(n, size)
  }

  /** The two page counts agree except on an empty result, where this one is 0 and the other 1. */
  lemma PageCountsDiffer(n: nat, size: nat)
    requires size > 0
    ensures PageCount(n, size) == Step3Results.TotalPages(n, size) <==> n > 0
    ensures n == 0 ==> PageCount(n, size) == 0 && Step3Results.TotalPages(n, size) == 1
  {
  }

  /**
   * On an empty result page 1 is not the last page (there are 0), so "next"
   * is enabled and leads to page 0, which shows no rows; from page 0
   * "previous" leads back to page 1.
   */
  lemma EmptyResultNextLeavesRange(size: nat)
    requires size > 0
    ensures !Step3Results.NextDisabled(1, PageCount(0, size))
    ensures Step3Results.NextPage(1, PageCount(0, size)) == 0
    ensures Step3Results.NextDisabled(0, PageCount(0, size)) && !Step3Results.PrevDisabled(0)
    ensures Step3Results.PrevPage(0) == 1
  {
  }

  class BomApp {
    var step: Step
    var rawData: string
    var parsedData: Grid
    var mapping: ColumnMapping
    /** The decoded JSON answer of the last successful request, kept as its `data` member. */
    var result: Option<Payload>
    var loading: bool
    var currentPage: int
    var rowsPerPage: int

    /**
     * The page is never negative (it reaches 0 on an empty result), the page
     * size is one the selector offers, at most five rows are kept, a stored
     * result holds an array, and step 3 is only reached with a result.
     */
    ghost predicate Valid()
      reads this
    {
      && rowsPerPage in Step3Results.PageSizeOptions
      && currentPage >= 0
      && |parsedData| <= 5
      && (result.Some? ==> result.value.Rows?)
      && (step == Results ==> result.Some?)
    }

    /** `result?.data`, or no rows. */
    function ResultRows(): (rows: seq<ResultRow>)
      reads this
      ensures result.Some? && result.value.Rows? ==> rows == result.value.rows
      ensures result.None? ==> rows == []
    {
      Step3Results.ResultData(result)
    }

    /** `totalPages`: 0 for an empty result. */
    function TotalPages(): (t: nat)
      reads this
      requires Valid()
      ensures t == 0 <==> |ResultRows()| == 0
      ensures t * rowsPerPage >= |ResultRows()|
      ensures t == 0 || (t - 1) * rowsPerPage < |ResultRows()|
    {
      PageCount(|ResultRows()|, rowsPerPage)
    }

    /**
     * `paginatedData`: the rows [(p-1)·S, min(p·S, N)) of the result; nothing
     * on page 0, where the slice runs from -S to 0.
     */
    function PaginatedData(): (rows: seq<ResultRow>)
      reads this
      requires Valid()
      ensures |rows| <= rowsPerPage
      ensures currentPage >= 1 ==>
                rows == ResultRows()[Step3Results.Min(Step3Results.PageStart(currentPage, rowsPerPage), |ResultRows()|)
                                     ..Step3Results.Min(Step3Results.PageStart(currentPage, rowsPerPage) + rowsPerPage, |ResultRows()|)]
      ensures currentPage == 0 ==> rows == []
    {
      Step3Results.PageRows(ResultRows(), currentPage, rowsPerPage)
    }

    /** The initial state, also the state after a page reload. */
    constructor ()
      ensures Valid()
      ensures step == Upload && rawData == "" && parsedData == [] && mapping == map[]
      ensures result == None && !loading && currentPage == 1 && rowsPerPage == 10
    {
      step := Upload;
      rawData := "";
      parsedData := [];
      mapping := map[];
      result := None;
      loading := false;
      currentPage := 1;
      rowsPerPage := 10;
    }

    /** The textarea's `onChange`. */
    method EditText(text: string)
      modifies this`rawData
      ensures rawData == text
    {
      rawData := text;
    }

    /**
     * `handleParseText`: keep the first five rows of the tab-split text and
     * go to step 2, with no check for blank text (the disabled button is the
     * only guard) and the mapping left as it was.
     */
    method HandleParseText()
      requires Valid()
      modifies this`parsedData, this`step
      ensures Valid()
      ensures parsedData == PreviewRows(ParseTextTabs(rawData)) && step == Mapping
      ensures 1 <= |parsedData| <= 5 && |parsedData[0]| >= 1
      ensures forall i :: 0 <= i < |parsedData| ==> |parsedData[i]| >= 1 && FreeOf(parsedData[i], {'\t'})
      ensures ContinueEnabled(rawData) <==> parsedData[0][0] != ""
      ensures !ContinueEnabled(rawData) ==> parsedData == [[""]]
    {
      ContinueMatchesTabs(rawData);
      parsedData := PreviewRows(ParseTextTabs(rawData));
      step := Mapping;
    }

    /** The `onload` callback of `handleFileUpload`: the first five rows of the sheet, then step 2. */
    method HandleFileUpload(sheet: Grid)
      requires Valid()
      modifies this`parsedData, this`step
      ensures Valid()
      ensures parsedData == PreviewRows(sheet) && step == Mapping
    {
      parsedData := PreviewRows(sheet);
      step := Mapping;
    }

    /** `handleMappingChange`: `{ ...prev, [colIndex]: value }`. */
    method HandleMappingChange(col: nat, value: Role)
      modifies this`mapping
      ensures mapping == Overwrite(old(mapping), col, value)
      ensures HasPartNumber(old(mapping)) && value == PartNumber ==> HasPartNumber(mapping)
    {
      mapping := mapping[col := value];
    }

    /**
     * `handleProcess`: without a partNumber column or without data, alert
     * and change nothing. Otherwise send the mapping and the (at most five)
     * kept rows; on an OK answer whose `data` is an array store it and go to
     * step 3, on any failure alert; either way the loading flag ends cleared.
     */
    method HandleProcess(response: Response) returns (request: Option<Request>, notice: Notice)
      requires Valid()
      modifies this`loading, this`result, this`step
      ensures Valid()
      ensures !HasPartNumber(mapping) ==>
                request == None && notice == Alert(NoPartNumber) && unchanged(this)
      ensures HasPartNumber(mapping) && parsedData == [] ==>
                request == None && notice == Alert(NoData) && unchanged(this)
      ensures HasPartNumber(mapping) && parsedData != [] ==>
                && request == Some(Request(mapping, parsedData, None))
                && 1 <= |request.value.data| <= 5
                && !loading
                && (Accepted(response).Some? ==>
                      step == Results && result == Some(response.body) && notice == Quiet)
                && (Accepted(response).None? ==>
                      step == old(step) && result == old(result)
                      && notice == Alert(FailureReason(response)))
    {
      if !HasPartNumber(mapping) {
        return None, Alert(NoPartNumber);
      }
      if |parsedData| == 0 {
        return None, Alert(NoData);
      }
      loading := true;
      request := Some(Request(mapping, parsedData, None));
      match Accepted(response) {
        case Some(_) =>
          result := Some(response.body);
          step := Results;
          notice := Quiet;
        case None =>
          notice := Alert(FailureReason(response));
      }
      loading := false;
    }

    /** `handleExportExcel`: alert when there are no rows, otherwise the workbook saved as result.xlsx. */
    method HandleExportExcel() returns (download: Option<Download>, notice: Notice)
      ensures download.None? <==> |ResultRows()| == 0
      ensures download.None? ==> notice == Alert(NoExportData)
      ensures download.Some? ==>
                download.value == Download(ExportFileName, Workbook(ResultsSheet, ResultRows())) && notice == Quiet
    {
      var rows := ResultRows();
      if |rows| == 0 {
        return None, Alert(NoExportData);
      }
      download := Some(Download(ExportFileName, Workbook(ResultsSheet, rows)));
      notice := Quiet;
    }

    /** The "upload another file" button of step 2: clears the rows, the mapping and the text, back to step 1. */
    method Reset()
      requires Valid()
      modifies this`parsedData, this`mapping, this`rawData, this`step
      ensures Valid()
      ensures parsedData == [] && mapping == map[] && rawData == "" && step == Upload
    {
      parsedData := [];
      mapping := map[];
      rawData := "";
      step := Upload;
    }

    /** The "new analysis" button of step 3: `window.location.reload()` starts the component afresh. */
    method Reload()
      requires Valid()
      modifies this
      ensures Valid()
      ensures step == Upload && rawData == "" && parsedData == [] && mapping == map[]
      ensures result == None && !loading && currentPage == 1 && rowsPerPage == 10
    {
      step := Upload;
      rawData := "";
      parsedData := [];
      mapping := map[];
      result := None;
      loading := false;
      currentPage := 1;
      rowsPerPage := 10;
    }

    /** The "previous" button: `setCurrentPage(prev => Math.max(prev - 1, 1))`. */
    method GoToPreviousPage()
      requires Valid()
      modifies this`currentPage
      ensures Valid()
      ensures currentPage == Step3Results.PrevPage(old(currentPage)) && currentPage >= 1
    {
      currentPage := Step3Results.PrevPage(currentPage);
    }

    /** The "next" button: `setCurrentPage(prev => Math.min(prev + 1, totalPages))`. */
    method GoToNextPage()
      requires Valid()
      modifies this`currentPage
      ensures Valid()
      ensures currentPage == Step3Results.NextPage(old(currentPage), TotalPages())
      ensures |ResultRows()| == 0 ==> currentPage == 0
    {
      currentPage := Step3Results.NextPage(currentPage, TotalPages());
    }

    /** The page-size selector: the chosen size and page 1. */
    method ChangeRowsPerPage(size: int)
      requires Valid() && size in Step3Results.PageSizeOptions
      modifies this`rowsPerPage, this`currentPage
      ensures Valid()
      ensures rowsPerPage == size && currentPage == 1
    {
      rowsPerPage := size;
      currentPage := 1;
    }

    /**
     * The component's output: step 1 always renders, step 2 only with kept
     * rows (its selectors show a placeholder, not a role, and its body is
     * the kept rows), step 3 only with an array result.
     */
    function Render(): (s: Screen)
      reads this
      requires Valid()
      ensures s.UploadScreen? <==> step == Upload
      ensures s.MappingScreen? <==> step == Mapping && |parsedData| > 0
      ensures s.ResultsScreen? <==> step == Results
      ensures s.UploadScreen? ==> s.rawData == rawData && (s.continueEnabled <==> ContinueEnabled(rawData))
      ensures s.MappingScreen? ==>
                s.selectors == |parsedData[0]| && s.body == parsedData
                && (s.processEnabled <==> HasPartNumber(mapping) && !loading)
      ensures s.ResultsScreen? ==>
                && s.page == currentPage && s.totalPages == TotalPages()
                && |s.rows| == |PaginatedData()|
                && (forall i :: 0 <= i < |s.rows| ==>
                      s.rows[i] == ((currentPage - 1) * rowsPerPage + i + 1, PaginatedData()[i]))
                && (s.prevDisabled <==> currentPage == 1) && (s.nextDisabled <==> currentPage == TotalPages())
    {
      match step
      case Upload =>
        UploadScreen(rawData, ContinueEnabled(rawData))
      case Mapping =>
        if |parsedData| > 0 then MappingScreen(|parsedData[0]|, parsedData, HasPartNumber(mapping) && !loading) else Blank
      case Results =>
        var rows := PaginatedData();
        var total := TotalPages();
        var p, size := currentPage, rowsPerPage;
        ResultsScreen(p, total,
          seq(|rows|, i requires 0 <= i < |rows| => (Step3Results.Ordinal(p, size, i), rows[i])),
          Step3Results.PrevDisabled(p), Step3Results.NextDisabled(p, total))
    }
  }

  /**
   * An OK answer with no rows, then "next": step 3 shows page 0 of 0, with
   * "next" disabled and "previous" enabled.
   */
  method EmptyResultPageZero(text: string) returns (page: int, totalPages: int, nextDisabled: bool, prevDisabled: bool)
    requires ContinueEnabled(text)
    ensures page == 0 && totalPages == 0 && nextDisabled && !prevDisabled
  {
    var app := new BomApp();
    PasteWithPartNumber(app, text);
    ProcessEmpty(app);
    app.GoToNextPage();
    assert app.currentPage == 0 && app.TotalPages() == 0;
    var screen := app.Render();
    page := screen.page;
    totalPages := screen.totalPages;
    nextDisabled := screen.nextDisabled;
    prevDisabled := screen.prevDisabled;
  }

  /** The user pastes `text`, continues, and maps column 0 to partNumber. */
  method PasteWithPartNumber(app: BomApp, text: string)
    requires app.Valid()
    modifies app
    ensures app.Valid() && app.parsedData != [] && HasPartNumber(app.mapping)
    ensures app.currentPage == old(app.currentPage)
  {
    app.EditText(text);
    app.HandleParseText();
    app.HandleMappingChange(0, PartNumber);
    assert app.mapping[0] == PartNumber;
  }

  /** Processing answers OK with no rows: step 3 with an empty result. */
  method ProcessEmpty(app: BomApp)
    requires app.Valid() && app.parsedData != [] && HasPartNumber(app.mapping)
    modifies app
    ensures app.Valid() && app.step == Results && app.ResultRows() == []
    ensures app.currentPage == old(app.currentPage)
  {
    assert Accepted(Replied(true, Rows([]))) == Some([]);
    var request, notice := app.HandleProcess(Replied(true, Rows([])));
  }
}
