/**
 * Helpers of the sunburst server (src/visualization/sunburst_server/main.py):
 * the entity name shown for a hierarchy column and back, and flattening
 * the per-row lists of hierarchies.
 */
module SunburstColumns {
  import opened Wrappers
  import opened Strings

  const HierarchySuffix: String := "_hierarchy"

  /** `get_entity_name(col)`: "_hierarchy" removed, "_" to " ", then title case. */
  function EntityName(col: String): String {
    Title(Replace(Replace(col, HierarchySuffix, ""), "_", " "))
  }

  /** `get_hierarchy_column_name(entity)`: lower case, " " to "_", then "_hierarchy" appended. */
  function HierarchyColumnName(entity: String): String {
    Replace(Lower(entity), " ", "_") + HierarchySuffix
  }

  /** Removing a separator that occurs exactly once, at the very end. */
  lemma RemoveOnlySuffix(s: String, suffix: String)
    requires |suffix| > 0 && |s| >= |suffix| && Find(s, suffix) == Some(|s| - |suffix|)
    ensures Replace(s, suffix, "") == s[..|s| - |suffix|]
  {
    var i := |s| - |suffix|;
    assert s[i + |suffix|..] == [];
    assert Find([], suffix) == None;
    assert Split(s, suffix) == [s[..i], []];
    assert Join([s[..i], []], "") == s[..i] + "" + Join([[]], "");
  }

  /** Lower-casing first does not change title case. */
  lemma TitleLower(s: String)
    ensures Title(Lower(s)) == Title(s)
  {
    var a, b := Title(Lower(s)), Title(s);
    forall i | 0 <= i < |s| ensures a[i] == b[i] {
      assert LowerChar(LowerChar(s[i])) == LowerChar(s[i]);
      assert UpperChar(LowerChar(s[i])) == UpperChar(s[i]);
      if i > 0 {
        assert IsLetter(LowerChar(s[i - 1])) == IsLetter(s[i - 1]);
      }
    }
  }

  /**
   * A lower-case column without spaces whose only "_hierarchy" is its
   * suffix is recovered from its entity name, as the server relies on when
   * it looks a selected entity's column up again.
   */
  lemma ColumnNameRoundTrip(col: String)
    requires |col| >= |HierarchySuffix| && Find(col, HierarchySuffix) == Some(|col| - |HierarchySuffix|)
    requires IsLowerCase(col) && ' ' !in col
    ensures HierarchyColumnName(EntityName(col)) == col
  {
    var base := col[..|col| - |HierarchySuffix|];
    RemoveOnlySuffix(col, HierarchySuffix);
    ReplaceChar(base, '_', ' ');
    var spaced := MapChar(base, '_', ' ');
    LowerTitle(spaced);
    SpacedLowerCase(col, base, spaced);
    LowerOfLowerCase(spaced);
    ReplaceChar(spaced, ' ', '_');
    MapCharBack(base, '_', ' ');
    assert col == base + HierarchySuffix;
  }

  lemma SpacedLowerCase(col: String, base: String, spaced: String)
    requires |base| <= |col| && base == col[..|base|] && IsLowerCase(col)
    requires spaced == MapChar(base, '_', ' ')
    ensures IsLowerCase(spaced)
  {
    forall i | 0 <= i < |spaced| ensures !IsUpper(spaced[i]) {
      assert base[i] == col[i];
    }
  }

  /** Mapping `a` to `b` and back restores a string that held no `b`. */
  lemma MapCharBack(s: String, a: char, b: char)
    requires b !in s
    ensures MapChar(MapChar(s, a, b), b, a) == s
  {
    var t := MapChar(MapChar(s, a, b), b, a);
    forall i | 0 <= i < |s| ensures t[i] == s[i] {
      assert s[i] in s;
    }
  }

  /**
   * A title-cased entity without underscores whose column name has a single
   * "_hierarchy" comes back from its column name.
   */
  lemma EntityNameRoundTrip(entity: String)
    requires Title(entity) == entity && '_' !in entity
    requires Find(HierarchyColumnName(entity), HierarchySuffix) == Some(|entity|)
    ensures EntityName(HierarchyColumnName(entity)) == entity
  {
    var lower := Lower(entity);
    ReplaceChar(lower, ' ', '_');
    var col := HierarchyColumnName(entity);
    var snake := MapChar(lower, ' ', '_');
    assert col == snake + HierarchySuffix;
    RemoveOnlySuffix(col, HierarchySuffix);
    assert col[..|col| - |HierarchySuffix|] == snake;
    ReplaceChar(snake, '_', ' ');
    LowerKeepsNoUnderscore(entity);
    MapCharBack(lower, ' ', '_');
    TitleLower(entity);
  }

  /** Lower-casing brings in no underscore. */
  lemma LowerKeepsNoUnderscore(s: String)
    requires '_' !in s
    ensures '_' !in Lower(s)
  {
    forall i | 0 <= i < |s| ensures Lower(s)[i] != '_' {
      assert s[i] in s;
    }
  }

  /** `flatten(l)`: the sublists concatenated in order. */
  function Flatten<T>(l: seq<seq<T>>): (r: seq<T>)
    decreases |l|
  {
    if |l| == 0 then [] else l[0] + Flatten(l[1..])
  }

  /** The flattened list holds exactly the elements of the sublists, and the sum of their lengths. */
  lemma {:induction false} FlattenMembers<T>(l: seq<seq<T>>, x: T)
    ensures x in Flatten(l) <==> exists i :: 0 <= i < |l| && x in l[i]
    ensures |l| > 0 ==> |Flatten(l)| == |l[0]| + |Flatten(l[1..])|
    decreases |l|
  {
    if |l| > 0 {
      FlattenMembers(l[1..], x);
      assert forall i :: 0 <= i < |l[1..]| ==> l[1..][i] == l[i + 1];
      if x !in l[0] && exists i :: 0 <= i < |l| && x in l[i] {
        var i :| 0 <= i < |l| && x in l[i];
        assert l[1..][i - 1] == l[i];
      }
    }
  }

  /** Flattening distributes over concatenation of the outer list. */
  lemma {:induction false} FlattenAppend<T>(a: seq<seq<T>>, b: seq<seq<T>>)
    ensures Flatten(a + b) == Flatten(a) + Flatten(b)
    decreases |a|
  {
    if |a| == 0 {
      assert a + b == b;
    } else {
      assert (a + b)[0] == a[0] && (a + b)[1..] == a[1..] + b;
      FlattenAppend(a[1..], b);
      assert Flatten(a + b) == a[0] + Flatten(a[1..] + b);
      assert Flatten(a) == a[0] + Flatten(a[1..]);
      assert a[0] + (Flatten(a[1..]) + Flatten(b)) == (a[0] + Flatten(a[1..])) + Flatten(b);
    }
  }

  predicate Distinct<T(==)>(s: seq<T>) {
    forall i, j :: 0 <= i < j < |s| ==> s[i] != s[j]
  }

  /**
   * `flatten_unique(l)`: every element of the sublists once; the order is
   * that of a Python set, which is unspecified.
   */
  method FlattenUnique<T(==)>(l: seq<seq<T>>) returns (r: seq<T>)
    ensures Distinct(r)
    ensures forall x :: x in r <==> x in Flatten(l)
  {
    var remaining := set x | x in Flatten(l);
    r := [];
    while remaining != {}
      invariant Distinct(r)
      invariant forall x :: x in r ==> x !in remaining
      invariant forall x :: x in Flatten(l) <==> x in r || x in remaining
      decreases |remaining|
    {
      var x :| x in remaining;
      r := r + [x];
      remaining := remaining - {x};
    }
  }

  /** A cell of the hierarchy column: a term or a list. */
  datatype Cell = Term(s: String) | List(items: seq<Cell>)

  /** `is_nested(l)`: whether the first element is a list; None is the IndexError of an empty list. */
  function IsNested(l: seq<Cell>): (r: Option<bool>)
    ensures r.None? <==> |l| == 0
    ensures r.Some? ==> (r.value <==> l[0].List?)
  {
    if |l| == 0 then None else Some(l[0].List?)
  }
}
