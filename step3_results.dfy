/**
 * The result table of step 3 (src/components/steps/Step3Results.tsx): which
 * rows a page shows, how rows are numbered, how the prev/next buttons move
 * the page, and which columns each display mode shows.
 */
module Step3Results {
  import opened Wrappers
  import opened Bom

  /** The page sizes offered by the "rows per page" selector. */
  const PageSizeOptions: seq<int> := [5, 10, 20, 50, 100]

  function Min(a: int, b: int): int { if a < b then a else b }
  function Max(a: int, b: int): int { if a < b then b else a }

  /**
   * `Array.prototype.slice(start, end)`: a negative bound counts from the
   * end, every bound is clamped to [0, |s|], and an end at or before the
   * start gives the empty array.
   */
  function JsSlice<T>(s: seq<T>, start: int, end: int): (r: seq<T>)
    ensures |r| <= |s|
    ensures 0 <= start <= end ==> r == s[Min(start, |s|)..Min(end, |s|)]
    ensures 0 <= end <= start ==> r == []
    ensures end <= start < 0 ==> r == []
  {
    var from := if start < 0 then Max(|s| + start, 0) else Min(start, |s|);
    var to := if end < 0 then Max(|s| + end, 0) else Min(end, |s|);
    if to <= from then [] else s[from..to]
  }

  /** `Math.ceil(n / d)` for a non-negative count and a positive divisor. */
  function CeilDiv(n: nat, d: nat): (q: nat)
    requires d > 0
    ensures q * d >= n
    ensures q == 0 || (q - 1) * d < n
  {
    (n + d - 1) / d
  }

  /** `Array.isArray(result?.data) ? result.data : []`. */
  function ResultData(result: Option<Payload>): (data: seq<ResultRow>)
    ensures result.Some? && result.value.Rows? ==> data == result.value.rows
    ensures !(result.Some? && result.value.Rows?) ==> data == []
  {
    if result.Some? && result.value.Rows? then result.value.rows else []
  }

  /** `Math.max(1, Math.ceil(n / size))`: the smallest positive page count whose pages hold n rows. */
  function TotalPages(n: nat, size: nat): (t: nat)
    requires size > 0
    ensures t >= 1 && t * size >= n
    ensures t == 1 || (t - 1) * size < n
  {
    Max(1, CeilDiv(n, size))
  }

  /** `(currentPage - 1) * rowsPerPage`: the index of a page's first row. */
  function PageStart(page: int, size: int): (start: int)
    ensures page >= 1 && size >= 0 ==> start >= 0
  {
    (page - 1) * size
  }

  /** `data.slice(start, start + rowsPerPage)`: the rows page `page` shows. */
  function PageRows<T>(data: seq<T>, page: int, size: nat): (rows: seq<T>)
    ensures |rows| <= size
    ensures page >= 1 && PageStart(page, size) >= |data| ==> rows == []
    ensures page >= 1 ==> rows == data[Min(PageStart(page, size), |data|)..Min(PageStart(page, size) + size, |data|)]
  {
    var start := PageStart(page, size);
    JsSlice(data, start, start + size)
  }

  /** The number in the "#" column: `(currentPage - 1) * rowsPerPage + idx + 1`. */
  function Ordinal(page: int, size: int, idx: int): (n: int)
    ensures page >= 1 && size >= 0 && idx >= 0 ==> n >= 1 && n > (page - 1) * size
  {
    PageStart(page, size) + idx + 1
  }

  /** The ordinal of a displayed row is its 1-based position in the whole result. */
  lemma OrdinalIsPosition<T>(data: seq<T>, page: int, size: nat, idx: nat)
    requires page >= 1 && idx < |PageRows(data, page, size)|
    ensures 1 <= Ordinal(page, size, idx) <= |data|
    ensures PageRows(data, page, size)[idx] == data[Ordinal(page, size, idx) - 1]
  {
    var start := PageStart(page, size);
    assert start >= 0 by {
      assert page - 1 >= 0;
    }
  }

  /** Pages 1 .. k, concatenated. */
  function PagesUpTo<T>(data: seq<T>, size: nat, k: nat): seq<T> {
    if k == 0 then [] else PagesUpTo(data, size, k - 1) + PageRows(data, k, size)
  }

  /** The first k pages are the first k * size rows (or all rows, when there are fewer). */
  lemma {:induction false} PagesUpToIsPrefix<T>(data: seq<T>, size: nat, k: nat)
    requires size > 0
    ensures PagesUpTo(data, size, k) == data[..Min(k * size, |data|)]
  {
    if k > 0 {
      PagesUpToIsPrefix(data, size, k - 1);
      var a := Min((k - 1) * size, |data|);
      var b := Min(k * size, |data|);
      assert PageStart(k, size) == (k - 1) * size;
      assert k * size == (k - 1) * size + size;
      assert PageRows(data, k, size) == data[a..b];
      assert data[..a] + data[a..b] == data[..b];
    }
  }

  /** The pages 1 .. TotalPages together show every row once, in order. */
  lemma PagesCoverData<T>(data: seq<T>, size: nat)
    requires size > 0
    ensures PagesUpTo(data, size, TotalPages(|data|, size)) == data
  {
    var t := TotalPages(|data|, size);
    PagesUpToIsPrefix(data, size, t);
    assert data[..|data|] == data;
  }

  /** The "previous" button: `Math.max(currentPage - 1, 1)`. */
  function PrevPage(page: int): (p: int)
    ensures p >= 1
    ensures page > 1 ==> p == page - 1
    ensures page <= 1 ==> p == 1
  {
    Max(page - 1, 1)
  }

  /** The "next" button: `Math.min(currentPage + 1, totalPages)`. */
  function NextPage(page: int, totalPages: int): (p: int)
    ensures p <= totalPages
    ensures page < totalPages ==> p == page + 1
    ensures page >= totalPages ==> p == totalPages
  {
    Min(page + 1, totalPages)
  }

  /** `disabled={currentPage === 1}`. */
  predicate PrevDisabled(page: int): (disabled: bool)
    ensures disabled ==> PrevPage(page) == page
    ensures !disabled && page >= 1 ==> PrevPage(page) == page - 1
  {
    page == 1
  }

  /** `disabled={currentPage === totalPages}`. */
  predicate NextDisabled(page: int, totalPages: int): (disabled: bool)
    ensures disabled ==> NextPage(page, totalPages) == page
    ensures !disabled && page <= totalPages ==> NextPage(page, totalPages) == page + 1
  {
    page == totalPages
  }

  /**
   * From a page in [1, totalPages] both buttons land in [1, totalPages]; an
   * enabled button moves by exactly one page, a disabled one would not move.
   */
  lemma NavigationStaysInRange(page: int, totalPages: int)
    requires 1 <= page <= totalPages
    ensures 1 <= PrevPage(page) <= totalPages && 1 <= NextPage(page, totalPages) <= totalPages
    ensures !PrevDisabled(page) ==> PrevPage(page) == page - 1
    ensures PrevDisabled(page) ==> PrevPage(page) == page
    ensures !NextDisabled(page, totalPages) ==> NextPage(page, totalPages) == page + 1
    ensures NextDisabled(page, totalPages) ==> NextPage(page, totalPages) == page
  {
  }


  /** The columns of the result table. */
  datatype Column =
    | Number | Mpn | Manufacturer | Seller | Stock | Requested | OfferQuantity
    | Price | Currency | DeliveryCoef | Markup | TargetPurchase | CostWithDelivery
    | TargetSale | Status

  /** The columns short mode leaves out. */
  const HiddenInShort: set<Column> :=
    {Seller, OfferQuantity, DeliveryCoef, Markup, TargetPurchase, CostWithDelivery, TargetSale}

  /** The header (and body) columns in display order, for `isShortMode = mode === 'short'`. */
  function Columns(mode: Mode): (cols: seq<Column>)
    ensures |cols| > 0 && cols[0] == Number && cols[|cols| - 1] == Status
  {
    match mode
    case Full =>
      [Number, Mpn, Column.Manufacturer, Seller, Stock, Requested, OfferQuantity, Price, Currency,
       DeliveryCoef, Markup, TargetPurchase, CostWithDelivery, TargetSale, Status]
    case Short =>
      [Number, Mpn, Column.Manufacturer, Stock, Requested, Price, Currency, Status]
  }

  /**
   * Full mode shows every column, short mode exactly those not hidden in it.
   */
  lemma ColumnsSelection(mode: Mode)
    ensures forall c :: c in Columns(mode) <==> (mode == Full || c !in HiddenInShort)
  {
    var cols := Columns(mode);
    forall c | mode == Full || c !in HiddenInShort ensures c in cols {
      if mode == Full {
        FullColumnsComplete(c);
      } else {
        ShortColumnsComplete(c);
      }
    }
  }

  lemma FullColumnsComplete(c: Column)
    ensures c in Columns(Full)
  {
    var cols := Columns(Full);
    if c == Number { assert cols[0] == c; }
    else if c == Mpn { assert cols[1] == c; }
    else if c == Column.Manufacturer { assert cols[2] == c; }
    else if c == Seller { assert cols[3] == c; }
    else if c == Stock { assert cols[4] == c; }
    else if c == Requested { assert cols[5] == c; }
    else if c == OfferQuantity { assert cols[6] == c; }
    else if c == Price { assert cols[7] == c; }
    else if c == Currency { assert cols[8] == c; }
    else if c == DeliveryCoef { assert cols[9] == c; }
    else if c == Markup { assert cols[10] == c; }
    else if c == TargetPurchase { assert cols[11] == c; }
    else if c == CostWithDelivery { assert cols[12] == c; }
    else if c == TargetSale { assert cols[13] == c; }
    else { assert cols[14] == c; }
  }

  lemma ShortColumnsComplete(c: Column)
    requires c !in HiddenInShort
    ensures c in Columns(Short)
  {
    var cols := Columns(Short);
    if c == Number { assert cols[0] == c; }
    else if c == Mpn { assert cols[1] == c; }
    else if c == Column.Manufacturer { assert cols[2] == c; }
    else if c == Stock { assert cols[3] == c; }
    else if c == Requested { assert cols[4] == c; }
    else if c == Price { assert cols[5] == c; }
    else if c == Currency { assert cols[6] == c; }
    else { assert cols[7] == c; }
  }

  /** No column is shown twice. */
  lemma ColumnsDistinct(mode: Mode)
    ensures forall i, j :: 0 <= i < j < |Columns(mode)| ==> Columns(mode)[i] != Columns(mode)[j]
  {
  }

  /** What step 3 shows for a page: the rows with their ordinals, or the "no data" placeholder. */
  datatype Body<T> = Placeholder | Table(rows: seq<(int, T)>)

  /** The table body: each displayed row paired with its ordinal, or the placeholder for an empty page. */
  function RenderBody<T>(data: seq<T>, page: int, size: nat): (body: Body<T>)
    requires page >= 1
    ensures body.Placeholder? <==> PageStart(page, size) >= |data| || size == 0
    ensures body.Table? ==> |body.rows| == |PageRows(data, page, size)|
    ensures body.Table? ==> forall i :: 0 <= i < |body.rows| ==>
              1 <= body.rows[i].0 <= |data| && body.rows[i].1 == data[body.rows[i].0 - 1]
    ensures body.Table? ==> forall i :: 0 <= i < |body.rows| ==>
              body.rows[i] == (Ordinal(page, size, i), PageRows(data, page, size)[i])
  {
    var rows := PageRows(data, page, size);
    if |rows| == 0 then Placeholder
    else
      var numbered := seq(|rows|, i requires 0 <= i < |rows| => (Ordinal(page, size, i), rows[i]));
      assert forall i :: 0 <= i < |rows| ==> 1 <= numbered[i].0 <= |data| && numbered[i].1 == data[numbered[i].0 - 1] by {
        forall i | 0 <= i < |rows| ensures 1 <= numbered[i].0 <= |data| && numbered[i].1 == data[numbered[i].0 - 1] {
          OrdinalIsPosition(data, page, size, i);
        }
      }
      Table(numbered)
  }

  /** Everything step 3 shows that depends on the state: columns, page indicator, body and button states. */
  datatype ResultsView = ResultsView(
    columns: seq<Column>, page: int, totalPages: int, body: Body<ResultRow>,
    prevDisabled: bool, nextDisabled: bool)

  /** The `Step3Result` component for a mode, a result's rows, a page and a page size. */
  function View(mode: Mode, data: seq<ResultRow>, page: int, size: nat): (v: ResultsView)
    requires page >= 1 && size > 0
    ensures v.columns == Columns(mode) && v.page == page
    ensures v.totalPages == TotalPages(|data|, size) && v.totalPages >= 1
    ensures v.body == RenderBody(data, page, size)
    ensures v.body.Placeholder? <==> PageStart(page, size) >= |data|
    ensures v.prevDisabled <==> page == 1
    ensures v.nextDisabled <==> page == v.totalPages
  {
    var total := TotalPages(|data|, size);
    ResultsView(Columns(mode), page, total, RenderBody(data, page, size), PrevDisabled(page), NextDisabled(page, total))
  }
}
