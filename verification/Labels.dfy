/** The analyzer's label map, apart from the places it belongs to. */
module Labels {
  import opened Ast

  datatype LabelInfo = LabelInfo(id: nat, isContinueTarget: bool)

  type LabelTable = map<Name, LabelInfo>

  predicate Distinct(names: seq<Name>) {
    forall i, j | 0 <= i < j < |names| :: names[i] != names[j]
  }

  predicate Disjoint(names: seq<Name>, others: set<Name>) {
    forall i | 0 <= i < |names| :: names[i] !in others
  }

  /** A table extended by the labels of one statement; a name that is already there keeps its entry. */
  function AddLabels(table: LabelTable, names: seq<Name>, info: LabelInfo): LabelTable {
    (map n | n in names :: info) + table
  }

  lemma AddNone(table: LabelTable, info: LabelInfo)
    ensures AddLabels(table, [], info) == table
  {
  }

  lemma AddKeys(table: LabelTable, names: seq<Name>, info: LabelInfo)
    ensures AddLabels(table, names, info).Keys == table.Keys + set n | n in names
  {
  }

  lemma AddOne(table: LabelTable, names: seq<Name>, name: Name, info: LabelInfo)
    ensures
      var before := AddLabels(table, names, info);
      AddLabels(table, names + [name], info) == if name in before then before else before[name := info]
    ensures
      Distinct(names) && Disjoint(names, table.Keys) && name !in AddLabels(table, names, info) ==>
        Distinct(names + [name]) && Disjoint(names + [name], table.Keys)
  {
    var before := AddLabels(table, names, info);
    assert forall n :: n in names + [name] <==> n in names || n == name;
    assert forall i | 0 <= i < |names| :: names[i] in before;
  }

  /** A table in which the given names, all of them present, are continue targets. */
  function Mark(table: LabelTable, names: seq<Name>): LabelTable {
    map n | n in table :: if n in names then table[n].(isContinueTarget := true) else table[n]
  }

  lemma MarkAdded(table: LabelTable, names: seq<Name>, id: nat)
    requires Disjoint(names, table.Keys)
    ensures Mark(AddLabels(table, names, LabelInfo(id, false)), names) == AddLabels(table, names, LabelInfo(id, true))
  {
    assert forall n | n in names :: n !in table;
  }

  /** The names of a group of labels that were not duplicates. */
  function FreshNames(group: seq<(Name, bool)>): set<Name> {
    set i | 0 <= i < |group| && !group[i].1 :: group[i].0
  }

  /** The labels of a group, each with whether it was a duplicate of an outer or earlier label. */
  ghost predicate IsGroup(group: seq<(Name, bool)>, names: seq<Name>, outer: set<Name>) {
    |group| == |names|
    && forall i | 0 <= i < |group| ::
         group[i].0 == names[i] && group[i].1 == (names[i] in outer || names[i] in names[..i])
  }

  lemma {:induction false} FirstOccurrence(names: seq<Name>, i: nat) returns (j: nat)
    requires i < |names|
    ensures j <= i && names[j] == names[i] && names[j] !in names[..j]
  {
    if names[i] in names[..i] {
      var k :| 0 <= k < i && names[k] == names[i];
      j := FirstOccurrence(names, k);
    } else {
      j := i;
    }
  }

  /** Removing the fresh names of a group leaves the names that were there before it. */
  lemma FreshMeaning(group: seq<(Name, bool)>, names: seq<Name>, outer: set<Name>)
    requires IsGroup(group, names, outer)
    ensures FreshNames(group) == (set n | n in names) - outer
  {
    forall n | n in names && n !in outer ensures n in FreshNames(group) {
      var i :| 0 <= i < |names| && names[i] == n;
      var j := FirstOccurrence(names, i);
      assert !group[j].1;
    }
  }

  /** Popping a group undoes pushing it. */
  lemma PopUndoesPush(table: LabelTable, names: seq<Name>, info: LabelInfo, group: seq<(Name, bool)>)
    requires IsGroup(group, names, table.Keys)
    ensures (AddLabels(table, names, info) - FreshNames(group)).Keys == table.Keys
    ensures Disjoint(names, table.Keys) ==> AddLabels(table, names, info) - FreshNames(group) == table
  {
    FreshMeaning(group, names, table.Keys);
    AddKeys(table, names, info);
  }

  /**
    Popping the labels of a loop or switch restores the table exactly unless one of them duplicates a
    label that was not a continue target: marking the group has then marked the outer label as well.
   */
  lemma MarkedPopRestores(table: LabelTable, names: seq<Name>, id: nat, group: seq<(Name, bool)>)
    requires IsGroup(group, names, table.Keys)
    ensures
      Mark(AddLabels(table, names, LabelInfo(id, false)), names) - FreshNames(group) == table
      <==> forall n | n in names && n in table :: table[n].isContinueTarget
  {
    var popped := Mark(AddLabels(table, names, LabelInfo(id, false)), names) - FreshNames(group);
    FreshMeaning(group, names, table.Keys);
    assert popped.Keys == table.Keys;
    assert forall n | n in table :: popped[n] == if n in names then table[n].(isContinueTarget := true) else table[n];
    if forall n | n in names && n in table :: table[n].isContinueTarget {
      assert popped == table;
    } else {
      var n :| n in names && n in table && !table[n].isContinueTarget;
      assert popped[n] != table[n];
    }
  }

  /** A table that popping a marked duplicate does not restore. */
  lemma MarkedPopChanges(name: Name)
    ensures
      var table := map[name := LabelInfo(1, false)];
      var marked := Mark(AddLabels(table, [name], LabelInfo(2, false)), [name]);
      && IsGroup([(name, true)], [name], table.Keys)
      && marked - FreshNames([(name, true)]) == map[name := LabelInfo(1, true)] != table
  {
    var table := map[name := LabelInfo(1, false)];
    assert AddLabels(table, [name], LabelInfo(2, false)) == table;
    assert FreshNames([(name, true)]) == {};
  }

  lemma EmptyGroup(outer: set<Name>)
    ensures IsGroup([], [], outer)
  {
  }

  /** A longer group. */
  lemma GroupExtends(group: seq<(Name, bool)>, names: seq<Name>, name: Name, outer: set<Name>)
    requires IsGroup(group, names, outer)
    ensures IsGroup(group + [(name, name in outer || name in names)], names + [name], outer)
  {
    assert (names + [name])[..|names|] == names;
    assert forall i | 0 <= i < |names| :: (names + [name])[..i] == names[..i];
  }

  method MarkContinueTargets(table: LabelTable, group: seq<(Name, bool)>, ghost names: seq<Name>)
    returns (r: LabelTable)
    requires |group| == |names| && forall i | 0 <= i < |group| :: group[i].0 == names[i]
    requires forall i | 0 <= i < |names| :: names[i] in table
    ensures r == Mark(table, names)
  {
    r := table;
    for k := 0 to |group|
      invariant r == Mark(table, names[..k])
    {
      var name := group[k].0;
      assert names[..k + 1] == names[..k] + [name];
      r := r[name := r[name].(isContinueTarget := true)];
    }
    assert names[..|names|] == names;
  }
}
