/**
 The exported matcher table (src/matchers.ts:401-405): every factory of the
 private table is wrapped with the timeout wrapper and stored under its own
 name. The factories are told apart by which matcher they build; the
 wrapping itself is a constructor, since its code is not part of this model.
 */
module Registration {

  /** The matchers of the private table, one per factory (src/matchers.ts:10-399). */
  datatype MatcherKind =
    | Present | Displayed | ContainText | ExactText | TextMatchedBy | Value | Attribute
    | MatchAttribute | Checked | Selected | Width | Size | LocationX | NearLocation
    | Class | CssValue

  /** The key each factory has in the private table. */
  function NameOf(k: MatcherKind): string {
    match k
    case Present => "toBePresent"
    case Displayed => "toBeDisplayed"
    case ContainText => "toContainText"
    case ExactText => "toHaveExactText"
    case TextMatchedBy => "toHaveTextMatchedBy"
    case Value => "toHaveValue"
    case Attribute => "toHaveAttribute"
    case MatchAttribute => "toMatchAttribute"
    case Checked => "toBeChecked"
    case Selected => "toBeSelected"
    case Width => "toHaveWidth"
    case Size => "toHaveSize"
    case LocationX => "toBeAtLocationX"
    case NearLocation => "toBeNearLocation"
    case Class => "toHaveClass"
    case CssValue => "toHaveCssValue"
  }

  /** The private table's entries, in the order `Object.entries` lists them. */
  const PrivateTable: seq<(string, MatcherKind)> := [
    (NameOf(Present), Present), (NameOf(Displayed), Displayed),
    (NameOf(ContainText), ContainText), (NameOf(ExactText), ExactText),
    (NameOf(TextMatchedBy), TextMatchedBy), (NameOf(Value), Value),
    (NameOf(Attribute), Attribute), (NameOf(MatchAttribute), MatchAttribute),
    (NameOf(Checked), Checked), (NameOf(Selected), Selected),
    (NameOf(Width), Width), (NameOf(Size), Size),
    (NameOf(LocationX), LocationX), (NameOf(NearLocation), NearLocation),
    (NameOf(Class), Class), (NameOf(CssValue), CssValue)]

  /** A factory after `addTimeoutToAsyncMatcher` has wrapped it. */
  datatype Registered = WithTimeout(kind: MatcherKind)

  /** No later entry has the same name as entry `i`. */
  predicate IsLastWithItsName(entries: seq<(string, MatcherKind)>, i: nat)
    requires i < |entries|
  {
    forall j :: i < j < |entries| ==> entries[j].0 != entries[i].0
  }

  /**
   The table the loop has built after the given entries, one entry at a
   time, a later entry replacing an earlier one with the same name.
   */
  function Registry(entries: seq<(string, MatcherKind)>): map<string, Registered> {
    if entries == [] then map[]
    else
      var last := entries[|entries| - 1];
      Registry(entries[..|entries| - 1])[last.0 := WithTimeout(last.1)]
  }

  /** The table's keys are exactly the names of the entries. */
  lemma {:induction false} RegistryKeys(entries: seq<(string, MatcherKind)>)
    ensures forall name :: name in Registry(entries) <==> exists i :: 0 <= i < |entries| && entries[i].0 == name
  {
    if entries != [] {
      var prefix := entries[..|entries| - 1];
      RegistryKeys(prefix);
      forall name ensures name in Registry(entries) <==> exists i :: 0 <= i < |entries| && entries[i].0 == name {
        if exists i :: 0 <= i < |entries| && entries[i].0 == name {
          var i :| 0 <= i < |entries| && entries[i].0 == name;
          if i < |prefix| {
            assert prefix[i] == entries[i];
          }
        }
        if name in Registry(prefix) {
          var i :| 0 <= i < |prefix| && prefix[i].0 == name;
          assert entries[i] == prefix[i];
        }
      }
    }
  }

  /** Each entry that no later entry overrides is stored, wrapped, under its name. */
  lemma {:induction false} RegistryValues(entries: seq<(string, MatcherKind)>)
    ensures forall i :: 0 <= i < |entries| && IsLastWithItsName(entries, i) ==>
      entries[i].0 in Registry(entries) && Registry(entries)[entries[i].0] == WithTimeout(entries[i].1)
  {
    if entries != [] {
      var prefix := entries[..|entries| - 1];
      RegistryValues(prefix);
      forall i | 0 <= i < |entries| - 1 && IsLastWithItsName(entries, i)
        ensures entries[i].0 in Registry(entries) && Registry(entries)[entries[i].0] == WithTimeout(entries[i].1)
      {
        LastInPrefix(entries, i);
        assert prefix[i] == entries[i];
      }
    }
  }

  lemma LastInPrefix(entries: seq<(string, MatcherKind)>, i: nat)
    requires i < |entries| - 1 && IsLastWithItsName(entries, i)
    ensures IsLastWithItsName(entries[..|entries| - 1], i)
    ensures entries[i].0 != entries[|entries| - 1].0
  {
    var prefix := entries[..|entries| - 1];
    forall j | i < j < |prefix| ensures prefix[j].0 != prefix[i].0 {
      assert prefix[j] == entries[j];
    }
  }

  /**
   The registration loop (src/matchers.ts:402-405): starts from an empty
   table and stores every wrapped factory under its name.
   */
  method Register(entries: seq<(string, MatcherKind)>) returns (matchers: map<string, Registered>)
    ensures matchers == Registry(entries)
  {
    matchers := map[];
    for i := 0 to |entries|
      invariant matchers == Registry(entries[..i])
    {
      assert entries[..i + 1][..i] == entries[..i];
      matchers := matchers[entries[i].0 := WithTimeout(entries[i].1)];
    }
    assert entries[..|entries|] == entries;
  }

  /** Different matchers have different names. */
  lemma NameOfInjective(k1: MatcherKind, k2: MatcherKind)
    requires NameOf(k1) == NameOf(k2)
    ensures k1 == k2
  {
    var n1, n2 := NameOf(k1), NameOf(k2);
    assert |n1| == |n2| && n1[3] == n2[3] && n1[4] == n2[4] && n1[|n1| - 1] == n2[|n2| - 1];
  }

  /** The position of each matcher in the private table. */
  function Ordinal(k: MatcherKind): (i: nat)
    ensures i < |PrivateTable| && PrivateTable[i] == (NameOf(k), k)
  {
    match k
    case Present => 0
    case Displayed => 1
    case ContainText => 2
    case ExactText => 3
    case TextMatchedBy => 4
    case Value => 5
    case Attribute => 6
    case MatchAttribute => 7
    case Checked => 8
    case Selected => 9
    case Width => 10
    case Size => 11
    case LocationX => 12
    case NearLocation => 13
    case Class => 14
    case CssValue => 15
  }

  /** Each entry of the private table is a matcher under its own name, at its own position. */
  lemma TableEntries()
    ensures forall i :: 0 <= i < |PrivateTable| ==>
      PrivateTable[i].0 == NameOf(PrivateTable[i].1) && Ordinal(PrivateTable[i].1) == i
  {
  }

  /** No name occurs twice in the private table. */
  lemma TableNamesDistinct()
    ensures forall i, j :: 0 <= i < j < |PrivateTable| ==> PrivateTable[j].0 != PrivateTable[i].0
  {
    TableEntries();
    forall i, j | 0 <= i < j < |PrivateTable| ensures PrivateTable[j].0 != PrivateTable[i].0 {
      if PrivateTable[j].0 == PrivateTable[i].0 {
        NameOfInjective(PrivateTable[i].1, PrivateTable[j].1);
      }
    }
  }

  /**
   The exported table has a key for every matcher and no other key, and
   each key holds its own matcher, wrapped.
   */
  lemma ExportedTable()
    ensures var m := Registry(PrivateTable);
      (forall name :: name in m <==> exists k :: NameOf(k) == name)
      && (forall k :: NameOf(k) in m && m[NameOf(k)] == WithTimeout(k))
  {
    var m := Registry(PrivateTable);
    TableEntries();
    TableNamesDistinct();
    RegistryKeys(PrivateTable);
    RegistryValues(PrivateTable);
    forall name | name in m ensures exists k :: NameOf(k) == name {
      var i :| 0 <= i < |PrivateTable| && PrivateTable[i].0 == name;
      assert NameOf(PrivateTable[i].1) == name;
    }
    forall k ensures NameOf(k) in m && m[NameOf(k)] == WithTimeout(k) {
      var i := Ordinal(k);
      assert IsLastWithItsName(PrivateTable, i);
    }
  }
}
