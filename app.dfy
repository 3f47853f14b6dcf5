/**
 * The wizard component of src/App.tsx: its state, the handlers that change
 * it and the screen it renders for each step. Every handler runs to
 * completion before the next one starts; the request to the processing
 * endpoint is replaced by the response it produces, given as a parameter.
 */
module App {
  import opened Wrappers
  import opened Bom
  import opened Text
  import opened TextParse
  import opened ColumnMap
  import Step2Mapping
  import Step3Results

  /** What the component renders. */
  datatype Screen =
    | UploadScreen(rawData: string, continueEnabled: bool)
    | MappingScreen(mappingView: Step2Mapping.MappingView)
    | ResultsScreen(resultsView: Step3Results.ResultsView)
    | Blank

  /**
   * `handleExportExcelKP`: the workbook for the quote request, or an alert
   * and no workbook when there are no rows.
   */
  function ExportOffer(data: seq<ResultRow>): (r: (Option<Workbook>, Notice))
    ensures r.0.None? <==> |data| == 0
    ensures r.0.None? <==> r.1 == Alert(NoExportData)
    ensures r.0.Some? ==> r.0.value == Workbook(ResultsSheet, data) && r.1 == Quiet
  {
    if |data| == 0 then (None, Alert(NoExportData)) else (Some(Workbook(ResultsSheet, data)), Quiet)
  }

  class BomApp {
    /** The boot-time display mode (the `mode` prop). */
    const mode: Mode
    var step: Step
    var rawData: string
    var parsedData: Grid
    var previewData: Grid
    var mapping: ColumnMapping
    /** The decoded JSON answer of the last successful request, kept as its `data` member. */
    var result: Option<Payload>
    var loading: bool
    var currentPage: int
    var rowsPerPage: int

    /**
     * The page is at least 1, the page size is one the selector offers, a
     * stored result holds an array, and step 3 is only reached with a result.
     */
    ghost predicate Valid()
      reads this
    {
      && rowsPerPage in Step3Results.PageSizeOptions
      && currentPage >= 1
      && (result.Some? ==> result.value.Rows?)
      && (step == Results ==> result.Some?)
    }

    /** The rows step 3 shows: `Array.isArray(result?.data) ? result.data : []`. */
    function ResultRows(): (rows: seq<ResultRow>)
      reads this
      ensures result.Some? && result.value.Rows? ==> rows == result.value.rows
      ensures result.None? ==> rows == []
    {
      Step3Results.ResultData(result)
    }

    /** The initial state: step 1, empty text, no data, no mapping, no result, page 1 of 10 rows. */
    constructor (mode: Mode)
      ensures Valid() && this.mode == mode
      ensures step == Upload && rawData == "" && parsedData == [] && previewData == []
      ensures mapping == map[] && result == None && !loading
      ensures currentPage == 1 && rowsPerPage == 10
    {
      this.mode := mode;
      step := Upload;
      rawData := "";
      parsedData := [];
      previewData := [];
      mapping := map[];
      result := None;
      loading := false;
      currentPage := 1;
      rowsPerPage := 10;
    }

    /** The textarea's `onChange`: `setRawData(e.target.value)`. */
    method EditText(text: string)
      modifies this`rawData
      ensures rawData == text
    {
      rawData := text;
    }

    /**
     * The state update both parse handlers end with: store the rows and
     * their five-row preview, map every column of the first row to
     * partNumber when it has cells, and go to step 2.
     */
    method Load(rows: Grid)
      requires Valid()
      modifies this`parsedData, this`previewData, this`mapping, this`step
      ensures Valid()
      ensures parsedData == rows && previewData == PreviewRows(rows) && step == Mapping
      ensures mapping == if |rows| > 0 && |rows[0]| > 0 then DefaultMapping(|rows[0]|) else old(mapping)
    {
      parsedData := rows;
      previewData := PreviewRows(rows);
      if |rows| > 0 && |rows[0]| > 0 {
        mapping := FillDefaultMapping(|rows[0]|);
      }
      step := Mapping;
    }

    /**
     * `handleParseText`: parse the text; on no rows alert and change nothing,
     * otherwise load the rows, which maps every column of the first row to
     * partNumber.
     */
    method HandleParseText() returns (notice: Notice)
      requires Valid()
      modifies this`parsedData, this`previewData, this`mapping, this`step
      ensures Valid()
      ensures ParseText(old(rawData)) == [] ==> notice == Alert(NoData) && unchanged(this)
      ensures ParseText(old(rawData)) != [] ==>
                && notice == Quiet && parsedData == ParseText(old(rawData))
                && previewData == PreviewRows(parsedData)
                && mapping == DefaultMapping(|parsedData[0]|) && step == Mapping
      ensures notice == Quiet ==> HasPartNumber(mapping)
    {
      var cleaned := ParseText(rawData);
      if |cleaned| == 0 {
        return Alert(NoData);
      }
      Load(cleaned);
      notice := Quiet;
      DefaultMappingHasPartNumber(|cleaned[0]|);
    }

    /**
     * The `onload` callback of `handleFileUpload`, given the rows the
     * spreadsheet library read from the first sheet: no emptiness check,
     * then the same update as a text parse.
     */
    method HandleFileUpload(sheet: Grid)
      requires Valid()
      modifies this`parsedData, this`previewData, this`mapping, this`step
      ensures Valid()
      ensures parsedData == sheet && previewData == PreviewRows(sheet) && step == Mapping
      ensures mapping == if |sheet| > 0 && |sheet[0]| > 0 then DefaultMapping(|sheet[0]|) else old(mapping)
    {
      Load(sheet);
    }

    /**
     * `handleMappingChange`: delete every other column holding `value`, one
     * entry at a time, then set `col` to `value`.
     */
    method HandleMappingChange(col: nat, value: Role)
      modifies this`mapping
      ensures mapping == Evicting(old(mapping), col, value)
      ensures RolesUnique(old(mapping)) ==> RolesUnique(mapping)
    {
      var next := mapping;
      var pending := mapping.Keys;
      while pending != {}
        invariant pending <= mapping.Keys
        invariant next.Keys <= mapping.Keys
        invariant forall k :: k in next ==> next[k] == mapping[k]
        invariant forall k :: k in pending ==> k in next
        invariant forall k :: k in mapping && k !in pending ==> (k in next <==> mapping[k] != value || k == col)
        decreases pending
      {
        var key :| key in pending;
        if next[key] == value && key != col {
          next := next - {key};
        }
        pending := pending - {key};
      }
      ghost var expected := Evicting(mapping, col, value);
      next := next[col := value];
      assert next.Keys == expected.Keys;
      if RolesUnique(mapping) {
        EvictingKeepsRolesUnique(mapping, col, value);
      }
      mapping := next;
    }

    /**
     * `handleProcess`: without a partNumber column or without data, alert
     * and change nothing. Otherwise send the mapping, the data and the mode;
     * on an OK answer whose `data` is an array store it and go to step 3,
     * on any failure only log it; either way the loading flag ends cleared.
     */
    method HandleProcess(response: Response) returns (request: Option<Request>, notice: Notice)
      requires Valid()
      modifies this`loading, this`result, this`step
      ensures Valid()
      ensures !HasPartNumber(old(mapping)) ==>
                request == None && notice == Alert(NoPartNumber) && unchanged(this)
      ensures HasPartNumber(old(mapping)) && old(parsedData) == [] ==>
                request == None && notice == Alert(NoData) && unchanged(this)
      ensures HasPartNumber(old(mapping)) && old(parsedData) != [] ==>
                && request == Some(Request(old(mapping), old(parsedData), Some(mode)))
                && !loading
                && (Accepted(response).Some? ==>
                      step == Results && result == Some(response.body) && notice == Quiet)
                && (Accepted(response).None? ==>
                      step == old(step) && result == old(result)
                      && notice == Logged(FailureReason(response)))
    {
      if !HasPartNumber(mapping) {
        return None, Alert(NoPartNumber);
      }
      if |parsedData| == 0 {
        return None, Alert(NoData);
      }
      loading := true;
      request := Some(Request(mapping, parsedData, Some(mode)));
      match Accepted(response) {
        case Some(_) =>
          result := Some(response.body);
          step := Results;
          notice := Quiet;
        case None =>
          notice := Logged(FailureReason(response));
      }
      loading := false;
    }

    /** `handleExportExcel`: alert when there are no rows, otherwise the workbook saved as result.xlsx. */
    method HandleExportExcel() returns (download: Option<Download>, notice: Notice)
      ensures download.None? <==> |ResultRows()| == 0
      ensures download.None? ==> notice == Alert(NoExportData)
      ensures download.Some? ==>
                download.value == Download(ExportFileName, Workbook(ResultsSheet, ResultRows())) && notice == Quiet
    {
      var rows := ResultRows();
      if |rows| == 0 {
        return None, Alert(NoExportData);
      }
      download := Some(Download(ExportFileName, Workbook(ResultsSheet, rows)));
      notice := Quiet;
    }

    /**
     * The reset closure of steps 2 and 3: clears the data, the mapping and
     * the text and returns to step 1, and nothing else.
     */
    method Reset()
      requires Valid()
      modifies this`parsedData, this`mapping, this`rawData, this`step
      ensures Valid()
      ensures parsedData == [] && mapping == map[] && rawData == "" && step == Upload
    {
      parsedData := [];
      mapping := map[];
      rawData := "";
      step := Upload;
    }

    /** The "previous" button: `setCurrentPage(Math.max(currentPage - 1, 1))`. */
    method GoToPreviousPage()
      requires Valid()
      modifies this`currentPage
      ensures Valid()
      ensures currentPage == Step3Results.PrevPage(old(currentPage))
    {
      currentPage := Step3Results.PrevPage(currentPage);
    }

    /** The "next" button: `setCurrentPage(Math.min(currentPage + 1, totalPages))`. */
    method GoToNextPage()
      requires Valid()
      modifies this`currentPage
      ensures Valid()
      ensures currentPage == Step3Results.NextPage(old(currentPage), Step3Results.TotalPages(|ResultRows()|, rowsPerPage))
    {
      currentPage := Step3Results.NextPage(currentPage, Step3Results.TotalPages(|ResultRows()|, rowsPerPage));
    }

    /** The page-size selector: the chosen size and page 1. */
    method ChangeRowsPerPage(size: int)
      requires Valid() && size in Step3Results.PageSizeOptions
      modifies this`rowsPerPage, this`currentPage
      ensures Valid()
      ensures rowsPerPage == size && currentPage == 1
    {
      rowsPerPage := size;
      currentPage := 1;
    }

    /**
     * The component's output: step 1 always renders, step 2 only with
     * parsed rows, step 3 only with a result; otherwise nothing.
     */
    function Render(): (s: Screen)
      reads this
      requires Valid()
      ensures s.UploadScreen? <==> step == Upload
      ensures s.MappingScreen? <==> step == Mapping && |parsedData| > 0
      ensures s.ResultsScreen? <==> step == Results
      ensures s.UploadScreen? ==> s.rawData == rawData && (s.continueEnabled <==> ParseText(rawData) != [])
      ensures s.MappingScreen? ==> s.mappingView == Step2Mapping.View(parsedData, previewData, mapping, loading)
      ensures s.ResultsScreen? ==> s.resultsView == Step3Results.View(mode, ResultRows(), currentPage, rowsPerPage)
    {
      match step
      case Upload =>
        ContinueMatchesParse(rawData);
        UploadScreen(rawData, ContinueEnabled(rawData))
      case Mapping =>
        if |parsedData| > 0 then MappingScreen(Step2Mapping.View(parsedData, previewData, mapping, loading)) else Blank
      case Results =>
        ResultsScreen(Step3Results.View(mode, ResultRows(), currentPage, rowsPerPage))
    }
  }

  /**
   * The user pastes `text`, continues, and runs the processing, which
   * answers OK with `rows`: step 3 with those rows, on the same page and
   * page size as before.
   */
  method PasteAndProcess(app: BomApp, text: string, rows: seq<ResultRow>)
    requires app.Valid() && ContinueEnabled(text)
    modifies app
    ensures app.Valid() && app.step == Results && app.ResultRows() == rows
    ensures app.currentPage == old(app.currentPage) && app.rowsPerPage == old(app.rowsPerPage)
  {
    Paste(app, text);
    assert Accepted(Replied(true, Rows(rows))) == Some(rows);
    var request, processed := app.HandleProcess(Replied(true, Rows(rows)));
  }

  /** The user pastes `text` and continues: step 2, ready to process. */
  method Paste(app: BomApp, text: string)
    requires app.Valid() && ContinueEnabled(text)
    modifies app
    ensures app.Valid() && app.parsedData != [] && HasPartNumber(app.mapping)
    ensures app.currentPage == old(app.currentPage) && app.rowsPerPage == old(app.rowsPerPage)
  {
    ContinueMatchesParse(text);
    app.EditText(text);
    var notice := app.HandleParseText();
  }

  /**
   * Reset does not return to page 1: page through 20 rows to page 2, start
   * over with text that yields 5 rows, and step 3 shows page 2 of 1 with the
   * "no data" placeholder, although the result has rows.
   */
  method StalePageAfterReset(text: string) returns (page: int, totalPages: int, shown: Step3Results.Body<ResultRow>, rows: nat)
    requires ContinueEnabled(text)
    ensures page == 2 && totalPages == 1 && shown == Step3Results.Placeholder && rows == 5
  {
    var app := new BomApp(Full);
    var twenty := seq(20, _ => ResultRow(map[]));
    var five := seq(5, _ => ResultRow(map[]));
    PasteAndProcess(app, text, twenty);
    assert Step3Results.TotalPages(20, 10) == 2;
    app.GoToNextPage();
    app.Reset();
    PasteAndProcess(app, text, five);
    assert app.ResultRows() == five && app.currentPage == 2 && app.rowsPerPage == 10;
    var view := app.Render();
    assert view.resultsView == Step3Results.View(Full, five, 2, 10);
    assert Step3Results.TotalPages(5, 10) == 1 && Step3Results.PageStart(2, 10) == 10;
    page := view.resultsView.page;
    totalPages := view.resultsView.totalPages;
    shown := view.resultsView.body;
    rows := |app.ResultRows()|;
  }
}
