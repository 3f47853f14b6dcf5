/**
 * The column-mapping step (src/components/steps/Step2Mapping.tsx): one role
 * selector per column of the first parsed row, the role each selector
 * displays, the preview body and the "start processing" button's guard.
 */
module Step2Mapping {
  import opened Bom
  import opened ColumnMap

  /** The items of every selector, in display order. */
  const RoleOptions: seq<Role> := [PartNumber, Quantity, Manufacturer]

  /** Every role is offered, each exactly once. */
  lemma RoleOptionsExact()
    ensures forall r :: r in RoleOptions
    ensures |RoleOptions| == 3
    ensures forall i, j :: 0 <= i < j < |RoleOptions| ==> RoleOptions[i] != RoleOptions[j]
  {
    forall r ensures r in RoleOptions {
      if r == PartNumber { assert RoleOptions[0] == r; }
      else if r == Quantity { assert RoleOptions[1] == r; }
      else { assert RoleOptions[2] == r; }
    }
  }

  /** `mapping[i] || 'partNumber'`: the role selector `i` shows. */
  function DisplayedRole(m: ColumnMapping, i: nat): (r: Role)
    ensures i in m ==> r == m[i]
    ensures i !in m ==> r == PartNumber
  {
    if i in m then m[i] else PartNumber
  }

  /** `!(Object.values(mapping).includes('partNumber') || loading)` negated: the button is enabled. */
  predicate ProcessEnabled(m: ColumnMapping, loading: bool): (enabled: bool)
    ensures enabled <==> (exists k :: k in m && m[k] == PartNumber) && !loading
  {
    HasPartNumber(m) && !loading
  }

  /** One column header: its index and the role its selector shows. */
  datatype Selector = Selector(column: nat, shown: Role)

  /** What step 2 renders. */
  datatype MappingView = MappingView(selectors: seq<Selector>, body: Grid, processEnabled: bool)

  /**
   * The step 2 card. It is only rendered when `parsedData` is non-empty
   * (src/App.tsx:279), since its header reads `parsedData[0]`.
   */
  function View(parsedData: Grid, previewData: Grid, m: ColumnMapping, loading: bool): (v: MappingView)
    requires |parsedData| > 0
    ensures |v.selectors| == |parsedData[0]|
    ensures forall i :: 0 <= i < |v.selectors| ==>
              v.selectors[i].column == i && v.selectors[i].shown == DisplayedRole(m, i)
    ensures v.body == previewData
    ensures v.processEnabled <==> HasPartNumber(m) && !loading
  {
    var selectors := seq(|parsedData[0]|, i requires 0 <= i < |parsedData[0]| => Selector(i, DisplayedRole(m, i)));
    MappingView(selectors, previewData, ProcessEnabled(m, loading))
  }

  /**
   * A column the evicting update removes shows "partNumber" in its selector
   * although it is no longer in the mapping.
   */
  lemma EvictedColumnShowsPartNumber(m: ColumnMapping, col: nat, value: Role, k: nat)
    requires k in m && k != col && m[k] == value
    ensures k !in Evicting(m, col, value)
    ensures DisplayedRole(Evicting(m, col, value), k) == PartNumber
  {
  }

  /**
   * Two columns defaulted to partNumber, both then set to quantity: column 0
   * still shows "partNumber", yet the button is disabled because no column
   * is mapped to partNumber.
   */
  lemma ShownPartNumberButDisabled()
    ensures var m := Evicting(Evicting(DefaultMapping(2), 0, Quantity), 1, Quantity);
            DisplayedRole(m, 0) == PartNumber && !ProcessEnabled(m, false)
  {
    var d := DefaultMapping(2);
    assert 0 in d && 1 in d;
    var m1 := Evicting(d, 0, Quantity);
    assert m1[0] == Quantity && m1[1] == PartNumber;
    var m2 := Evicting(m1, 1, Quantity);
    assert m2.Keys == {1};
    assert m2.Values == {Quantity};
  }
}
