/**
 * The column-to-role dictionary of step 2 (`mapping`, a record from column
 * index to role) and the two ways the wizard variants update it.
 */
module ColumnMap {
  import opened Bom

  type ColumnMapping = map<nat, Role>

  /** `Object.values(mapping).includes('partNumber')`: some column is mapped to partNumber. */
  predicate HasPartNumber(m: ColumnMapping): (has: bool)
    ensures has <==> exists k :: k in m && m[k] == PartNumber
  {
    PartNumber in m.Values
  }

  /** The mapping that sends every column 0 .. width-1 to partNumber. */
  function DefaultMapping(width: nat): (m: ColumnMapping)
    ensures forall k: nat :: k in m <==> k < width
    ensures forall k :: k in m ==> m[k] == PartNumber
  {
    if width == 0 then map[] else DefaultMapping(width - 1)[width - 1 := PartNumber]
  }

  /**
   * The `forEach` loop that fills the default mapping after a parse
   * (src/App.tsx:55-58, 84-87): every column of the first row becomes partNumber.
   */
  method FillDefaultMapping(width: nat) returns (m: ColumnMapping)
    ensures m == DefaultMapping(width)
    ensures forall k: nat :: k in m <==> k < width
    ensures forall k :: k in m ==> m[k] == PartNumber
  {
    m := map[];
    var i := 0;
    while i < width
      invariant 0 <= i <= width
      invariant m == DefaultMapping(i)
    {
      m := m[i := PartNumber];
      i := i + 1;
    }
  }

  /** A non-empty default mapping satisfies the partNumber guard. */
  lemma DefaultMappingHasPartNumber(width: nat)
    requires width > 0
    ensures HasPartNumber(DefaultMapping(width))
  {
    assert DefaultMapping(width)[0] == PartNumber;
  }

  /**
   * The update of src/App.tsx:96-124: every other column holding `value`
   * loses its entry, then `col` is set to `value`.
   */
  function Evicting(prev: ColumnMapping, col: nat, value: Role): (next: ColumnMapping)
    ensures col in next && next[col] == value
    ensures forall k :: k in next && next[k] == value ==> k == col
    ensures forall k :: k in prev && k != col ==> (k in next <==> prev[k] != value)
    ensures forall k :: k in next && k != col ==> k in prev && next[k] == prev[k]
  {
    (map k | k in prev && (prev[k] != value || k == col) :: prev[k])[col := value]
  }

  /** Assigning the same role to the same column a second time changes nothing. */
  lemma EvictingIdempotent(m: ColumnMapping, col: nat, value: Role)
    ensures Evicting(Evicting(m, col, value), col, value) == Evicting(m, col, value)
  {
    var once := Evicting(m, col, value);
    var twice := Evicting(once, col, value);
    assert twice.Keys == once.Keys;
  }

  /** At most one column per role. */
  predicate RolesUnique(m: ColumnMapping) {
    forall j, k :: j in m && k in m && m[j] == m[k] ==> j == k
  }

  /** The evicting update keeps roles unique. */
  lemma EvictingKeepsRolesUnique(m: ColumnMapping, col: nat, value: Role)
    requires RolesUnique(m)
    ensures RolesUnique(Evicting(m, col, value))
  {
  }

  /**
   * After an evicting update the partNumber guard holds exactly when the new
   * role is partNumber or some other column already had it.
   */
  lemma EvictingPartNumber(m: ColumnMapping, col: nat, value: Role)
    ensures HasPartNumber(Evicting(m, col, value)) <==>
            (value == PartNumber || exists k :: k in m && k != col && m[k] == PartNumber)
  {
    var next := Evicting(m, col, value);
    if value != PartNumber && exists k :: k in m && k != col && m[k] == PartNumber {
      var k :| k in m && k != col && m[k] == PartNumber;
      assert next[k] == PartNumber;
    }
  }

  /** The update of src/App.default.tsx:66-68: `{ ...prev, [col]: value }`. */
  function Overwrite(prev: ColumnMapping, col: nat, value: Role): (next: ColumnMapping)
    ensures col in next && next[col] == value
    ensures forall k :: k != col ==> (k in next <==> k in prev)
    ensures forall k :: k in prev && k != col ==> next[k] == prev[k]
  {
    prev[col := value]
  }

  /** Under the overwrite update two columns can hold the same role. */
  lemma OverwriteAllowsDuplicates()
    ensures !RolesUnique(Overwrite(map[0 := PartNumber], 1, PartNumber))
  {
    var m := Overwrite(map[0 := PartNumber], 1, PartNumber);
    assert m[0] == m[1];
  }

  /** Under the overwrite update the partNumber guard holds after setting partNumber. */
  lemma OverwritePartNumber(m: ColumnMapping, col: nat)
    ensures HasPartNumber(Overwrite(m, col, PartNumber))
  {
    assert Overwrite(m, col, PartNumber)[col] == PartNumber;
  }
}
