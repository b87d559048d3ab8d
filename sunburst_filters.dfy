/**
 * The two row filters of the sunburst view over a data frame, reduced to
 * the filtered column: each row holds a list of term hierarchies
 * (src/visualization/sunburst_server/contains_name_at_level_filter.py) or a
 * list of values (src/visualization/sunburst_server/value_in_cell_filter.py).
 */
module SunburstFilters {
  import opened Wrappers
  import opened Strings
  import opened Seqs

  type Hierarchy = seq<String>

  // ---------------------------------------------------------------------
  // ContainsNameAtLevelFilter

  /**
   * `hierarchy_passes_filter`: long enough and naming `name` at `level`
   * (level 1 is the first entry). A level below 1 makes Python index from
   * the end; None is the IndexError of an index before the start.
   */
  function Passes(h: Hierarchy, level: int, name: String): (r: Option<bool>)
    ensures level >= 1 ==> r == Some(|h| >= level && h[level - 1] == name)
  {
    if |h| < level then Some(false)
    else
      var k := if level - 1 < 0 then |h| + level - 1 else level - 1;
      if k < 0 then None else Some(h[k] == name)
  }

  /** `any(...)` over the hierarchies of a row: stops at the first pass, an error before it propagates. */
  function AnyPasses(hs: seq<Hierarchy>, level: int, name: String): Option<bool>
    decreases |hs|
  {
    if |hs| == 0 then Some(false)
    else match Passes(hs[0], level, name)
      case None => None
      case Some(true) => Some(true)
      case Some(false) => AnyPasses(hs[1..], level, name)
  }

  /** `list(filter(hierarchy_passes_filter, x))`: the passing test is applied to every hierarchy. */
  function PassingOnes(hs: seq<Hierarchy>, level: int, name: String): Option<seq<Hierarchy>>
    decreases |hs|
  {
    if |hs| == 0 then Some([])
    else match (Passes(hs[0], level, name), PassingOnes(hs[1..], level, name))
      case (Some(p), Some(rest)) => Some((if p then [hs[0]] else []) + rest)
      case _ => None
  }

  /** The rows whose hierarchies pass the `condition`, or None when a test fails. */
  function KeptRows(rows: seq<seq<Hierarchy>>, level: int, name: String): Option<seq<seq<Hierarchy>>>
    decreases |rows|
  {
    if |rows| == 0 then Some([])
    else match (AnyPasses(rows[0], level, name), KeptRows(rows[1..], level, name))
      case (Some(keep), Some(rest)) => Some((if keep then [rows[0]] else []) + rest)
      case _ => None
  }

  /** Each kept row's list cut down to its passing hierarchies. */
  function CutRows(rows: seq<seq<Hierarchy>>, level: int, name: String): Option<seq<seq<Hierarchy>>>
    decreases |rows|
  {
    if |rows| == 0 then Some([])
    else match (PassingOnes(rows[0], level, name), CutRows(rows[1..], level, name))
      case (Some(row), Some(rest)) => Some([row] + rest)
      case _ => None
  }

  /** `ContainsNameAtLevelFilter(name, level, column)(df)`: select the rows, then cut their lists. */
  function ContainsNameAtLevel(rows: seq<seq<Hierarchy>>, level: int, name: String): Option<seq<seq<Hierarchy>>> {
    match KeptRows(rows, level, name)
    case None => None
    case Some(kept) => CutRows(kept, level, name)
  }

  /** The hierarchies of a list that name `name` at `level`, in order. */
  function Named(hs: seq<Hierarchy>, level: nat, name: String): (r: seq<Hierarchy>)
    requires level >= 1
    ensures forall h :: h in r ==> h in hs && |h| >= level && h[level - 1] == name
    ensures |r| == 0 <==> forall k :: 0 <= k < |hs| ==> !(|hs[k]| >= level && hs[k][level - 1] == name)
    decreases |hs|
  {
    if |hs| == 0 then []
    else
      var rest := Named(hs[1..], level, name);
      assert forall k :: 0 <= k < |hs[1..]| ==> hs[1..][k] == hs[k + 1];
      if |hs[0]| >= level && hs[0][level - 1] == name then [hs[0]] + rest else rest
  }

  /** A row is kept when some hierarchy names `name` at `level`. */
  predicate RowPasses(hs: seq<Hierarchy>, level: nat, name: String)
    requires level >= 1
  {
    exists k :: 0 <= k < |hs| && |hs[k]| >= level && hs[k][level - 1] == name
  }

  /** The rows that are kept, each cut down to its named hierarchies, in row order. */
  function Expected(rows: seq<seq<Hierarchy>>, level: nat, name: String): (r: seq<seq<Hierarchy>>)
    requires level >= 1
    ensures |r| <= |rows|
    ensures forall k :: 0 <= k < |r| ==> |r[k]| > 0
    decreases |rows|
  {
    if |rows| == 0 then []
    else
      var rest := Expected(rows[1..], level, name);
      if RowPasses(rows[0], level, name) then [Named(rows[0], level, name)] + rest else rest
  }

  lemma {:induction false} AnyPassesSpec(hs: seq<Hierarchy>, level: nat, name: String)
    requires level >= 1
    ensures AnyPasses(hs, level, name) == Some(RowPasses(hs, level, name))
    decreases |hs|
  {
    if |hs| > 0 {
      AnyPassesSpec(hs[1..], level, name);
      assert forall k :: 0 <= k < |hs[1..]| ==> hs[1..][k] == hs[k + 1];
      if !(|hs[0]| >= level && hs[0][level - 1] == name) && RowPasses(hs, level, name) {
        var k :| 0 <= k < |hs| && |hs[k]| >= level && hs[k][level - 1] == name;
        assert hs[1..][k - 1] == hs[k];
      }
    }
  }

  lemma {:induction false} PassingOnesSpec(hs: seq<Hierarchy>, level: nat, name: String)
    requires level >= 1
    ensures PassingOnes(hs, level, name) == Some(Named(hs, level, name))
    decreases |hs|
  {
    if |hs| > 0 {
      PassingOnesSpec(hs[1..], level, name);
      var rest := Named(hs[1..], level, name);
      assert Passes(hs[0], level, name) == Some(|hs[0]| >= level && hs[0][level - 1] == name);
      assert Named(hs, level, name) == (if |hs[0]| >= level && hs[0][level - 1] == name then [hs[0]] else []) + rest;
    }
  }

  lemma {:induction false} KeptAndCut(rows: seq<seq<Hierarchy>>, level: nat, name: String)
    requires level >= 1
    ensures KeptRows(rows, level, name).Some?
    ensures CutRows(KeptRows(rows, level, name).value, level, name) == Some(Expected(rows, level, name))
    decreases |rows|
  {
    if |rows| > 0 {
      AnyPassesSpec(rows[0], level, name);
      PassingOnesSpec(rows[0], level, name);
      KeptAndCut(rows[1..], level, name);
      var rest := KeptRows(rows[1..], level, name).value;
      if RowPasses(rows[0], level, name) {
        assert KeptRows(rows, level, name).value == [rows[0]] + rest;
        assert ([rows[0]] + rest)[1..] == rest;
      } else {
        assert KeptRows(rows, level, name).value == rest;
      }
    }
  }

  /**
   * For a level of at least 1 the filter never fails: it keeps, in order,
   * the rows with a hierarchy naming `name` at `level`, each with exactly
   * its hierarchies that do, so no kept list is empty.
   */
  lemma ContainsNameAtLevelSpec(rows: seq<seq<Hierarchy>>, level: nat, name: String)
    requires level >= 1
    ensures ContainsNameAtLevel(rows, level, name) == Some(Expected(rows, level, name))
  {
    KeptAndCut(rows, level, name);
  }

  /** The kept lists are exactly the named hierarchies of the rows that pass. */
  lemma {:induction false} ExpectedRows(rows: seq<seq<Hierarchy>>, level: nat, name: String, r: seq<Hierarchy>)
    requires level >= 1
    ensures r in Expected(rows, level, name) <==>
      exists i :: 0 <= i < |rows| && RowPasses(rows[i], level, name) && r == Named(rows[i], level, name)
    decreases |rows|
  {
    if |rows| > 0 {
      ExpectedRows(rows[1..], level, name, r);
      assert forall i :: 0 <= i < |rows[1..]| ==> rows[1..][i] == rows[i + 1];
      if exists i :: 0 <= i < |rows| && RowPasses(rows[i], level, name) && r == Named(rows[i], level, name) {
        var i :| 0 <= i < |rows| && RowPasses(rows[i], level, name) && r == Named(rows[i], level, name);
        if i > 0 {
          assert rows[1..][i - 1] == rows[i];
        }
      }
    }
  }

  /** A level below 1 reads from the end: level 0 compares the last entry, and an empty hierarchy fails. */
  lemma LevelZeroReadsLast(h: Hierarchy, name: String)
    ensures |h| > 0 ==> Passes(h, 0, name) == Some(h[|h| - 1] == name)
    ensures |h| == 0 ==> Passes(h, 0, name).None?
  {
  }

  // ---------------------------------------------------------------------
  // AnyValueInCellFilter

  datatype ValueFilter = ValueFilter(column: String, values: seq<String>)

  /** `condition(l)`: some value is in the cell. */
  predicate AnyValueIn(cell: seq<String>, values: seq<String>) {
    exists k :: 0 <= k < |values| && values[k] in cell
  }

  /** `AnyValueInCellFilter(column, values)(df)` over the cells of the column. */
  function ValueInCell(cells: seq<seq<String>>, values: seq<String>): (r: seq<seq<String>>)
    ensures |r| <= |cells|
    decreases |cells|
  {
    if |values| == 0 then cells
    else if |cells| == 0 then []
    else (if AnyValueIn(cells[0], values) then [cells[0]] else []) + ValueInCell(cells[1..], values)
  }

  /** Order is kept, nothing is added, and a row stays exactly when its cell has one of the values. */
  lemma {:induction false} ValueInCellSpec(cells: seq<seq<String>>, values: seq<String>, c: seq<String>)
    ensures |values| == 0 ==> ValueInCell(cells, values) == cells
    ensures |values| > 0 ==> (c in ValueInCell(cells, values) <==> c in cells && AnyValueIn(c, values))
    ensures IsSubsequence(ValueInCell(cells, values), cells)
    decreases |cells|
  {
    if |values| == 0 {
      SubsequenceRefl(cells);
    } else if |cells| > 0 {
      ValueInCellSpec(cells[1..], values, c);
      var rest := ValueInCell(cells[1..], values);
      if AnyValueIn(cells[0], values) {
        assert ValueInCell(cells, values) == [cells[0]] + rest;
        assert ([cells[0]] + rest)[1..] == rest;
      } else {
        assert ValueInCell(cells, values) == rest;
      }
    }
  }

  /** `__eq__`: the same column and the same values as a set. */
  predicate FilterEqual(a: ValueFilter, b: ValueFilter) {
    a.column == b.column && SameElements(a.values, b.values)
  }

  /** Order and repetition of the values do not matter to equality, which is an equivalence. */
  lemma FilterEqualIgnoresOrder(a: ValueFilter, b: ValueFilter, c: ValueFilter, i: nat)
    requires i < |a.values|
    ensures FilterEqual(a, a) && (FilterEqual(a, b) ==> FilterEqual(b, a))
    ensures FilterEqual(a, b) && FilterEqual(b, c) ==> FilterEqual(a, c)
    ensures FilterEqual(a, a.(values := [a.values[i]] + a.values))
  {
  }

  /** Equal filters keep the same rows. */
  lemma EqualFiltersKeepSameRows(a: ValueFilter, b: ValueFilter, cells: seq<seq<String>>)
    requires FilterEqual(a, b)
    ensures ValueInCell(cells, a.values) == ValueInCell(cells, b.values)
    decreases |cells|
  {
    if |a.values| > 0 {
      assert a.values[0] in b.values;
    }
    if |b.values| > 0 {
      assert b.values[0] in a.values;
    }
    if |cells| > 0 {
      EqualFiltersKeepSameRows(a, b, cells[1..]);
      assert AnyValueIn(cells[0], a.values) == AnyValueIn(cells[0], b.values) by {
        if AnyValueIn(cells[0], a.values) {
          var k :| 0 <= k < |a.values| && a.values[k] in cells[0];
          assert a.values[k] in b.values;
        }
        if AnyValueIn(cells[0], b.values) {
          var k :| 0 <= k < |b.values| && b.values[k] in cells[0];
          assert b.values[k] in a.values;
        }
      }
    }
  }

  /** What hashing a filter gives: `self.value` does not exist, so it is an AttributeError. */
  datatype HashError = AttributeError

  /** `__hash__` as written reads the missing attribute `value` and fails, whatever the filter. */
  function HashAsWritten(f: ValueFilter): Result<int, HashError> {
    Failure(AttributeError)
  }

  lemma FiltersCannotBeHashed(f: ValueFilter)
    ensures HashAsWritten(f).Failure?
  {
  }

  /** The hash that agrees with `__eq__`: of the column and the set of values, with some hash `h`. */
  function FilterHash(f: ValueFilter, h: (String, set<String>) -> int): int {
    h(f.column, set v | v in f.values)
  }

  /** Equal filters hash alike, whatever `h`. */
  lemma EqualFiltersHashAlike(a: ValueFilter, b: ValueFilter, h: (String, set<String>) -> int)
    requires FilterEqual(a, b)
    ensures FilterHash(a, h) == FilterHash(b, h)
  {
    assert (set v | v in a.values) == (set v | v in b.values);
  }
}
