/**
 * The values the BOM wizard passes around: the grid of cells parsed from the
 * user's input, the semantic roles a column can be mapped to, the backend's
 * result records and response, and what a handler reports to the user.
 */
module Bom {
  import opened Wrappers

  /** Rows of string cells, as parsed from pasted text or read from a sheet. */
  type Grid = seq<seq<string>>

  /** The three values a column selector offers: "partNumber", "quantity", "manufacturer". */
  datatype Role = PartNumber | Quantity | Manufacturer

  /** The wizard's steps 1, 2 and 3. */
  datatype Step = Upload | Mapping | Results

  /** The boot-time display mode, "short" or "full". */
  datatype Mode = Short | Full

  /**
   * One record of the backend's `data` array. Its fields (mpn, manufacturer,
   * seller_name, stock, price, status, ...) are only displayed, never
   * inspected, so the record is kept as an opaque field map.
   */
  datatype ResultRow = ResultRow(fields: map<string, string>)

  /** The `data` member of a JSON answer: an array of records, or anything else (missing included). */
  datatype Payload = Rows(rows: seq<ResultRow>) | NotArray

  /**
   * What `fetch` followed by `response.json()` yields: either nothing usable
   * (the request rejected, or the body is not JSON), or a reply with its
   * `ok` status and the decoded body's `data` member.
   */
  datatype Response = Unreachable | Replied(ok: bool, body: Payload)

  /** The JSON body of the request to the processing endpoint. */
  datatype Request = Request(mapping: map<nat, Role>, data: Grid, mode: Option<Mode>)

  /** Why a handler stopped. */
  datatype Reason = NoData | NoPartNumber | NoExportData | TransportFailed | RequestFailed | BadResponse

  /** What a handler shows: nothing, a blocking `alert`, or a `console.log` line. */
  datatype Notice = Quiet | Alert(reason: Reason) | Logged(reason: Reason)

  /** The sheet name of every exported workbook. */
  const ResultsSheet: string := "Результаты"

  /** The file name the export button saves under. */
  const ExportFileName: string := "result.xlsx"

  /** A spreadsheet workbook with one sheet of records. */
  datatype Workbook = Workbook(sheetName: string, rows: seq<ResultRow>)

  /** A file handed to the browser for download. */
  datatype Download = Download(fileName: string, workbook: Workbook)

  /**
   * The records a response delivers: present exactly for an OK reply whose
   * `data` is an array (both variants throw otherwise, src/App.tsx:151-152,
   * src/App.default.tsx:108-114).
   */
  function Accepted(response: Response): (rows: Option<seq<ResultRow>>)
    ensures rows.Some? <==> response.Replied? && response.ok && response.body.Rows?
    ensures rows.Some? ==> rows.value == response.body.rows
  {
    match response
    case Replied(true, Rows(rows)) => Some(rows)
    case _ => None
  }

  /** The error a rejected response raises (the message text itself is not modelled). */
  function FailureReason(response: Response): (reason: Reason)
    requires Accepted(response).None?
    ensures reason in {TransportFailed, RequestFailed, BadResponse}
    ensures reason == BadResponse <==> response.Replied? && response.ok
  {
    match response
    case Unreachable => TransportFailed
    case Replied(ok, _) => if ok then BadResponse else RequestFailed
  }
}
