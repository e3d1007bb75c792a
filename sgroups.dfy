/** S-groups of a molecule (src/molecule_sgroups.go): superatoms, data
    groups, repeating units and the rest, kept in one list whose entries
    know their own position. */
module SGroups {
  import opened Wrappers
  import Text

  const SGroupGeneric: int := 0
  const SGroupData: int := 1
  const SGroupSuperatom: int := 2
  const SGroupSRU: int := 3
  const SGroupMultiple: int := 4
  const SGroupMonomer: int := 5
  const SGroupMer: int := 6
  const SGroupCopolymer: int := 7
  const SGroupCrosslink: int := 8
  const SGroupModified: int := 9
  const SGroupGraft: int := 10
  const SGroupComponent: int := 11
  const SGroupMixture: int := 12
  const SGroupFormulation: int := 13
  const SGroupAny: int := 14

  const SubtypeNone: int := 0
  const DisplayUndefined: int := -1

  /** The fields the five concrete S-group types add to the common part. */
  datatype Variant =
    | Plain
    | Data(name: string, description: string, dataType: string, data: string,
           queryCode: string, queryOper: string, detached: bool, relative: bool,
           displayUnits: bool, numChars: int)
    | Superatom(labelText: string, attachmentPoints: seq<int>, subscript: string)
    | Multiple(multiplier: int, parentAtoms: seq<int>)
    | Sru(subscriptText: string)

  /** The common part of every S-group (its display brackets are left out). */
  datatype SGroup = SGroup(
    kind: int,
    subtype: int,
    index: int,
    originalId: int,
    parentId: int,
    atoms: seq<int>,
    bonds: seq<int>,
    bracketStyle: int,
    displayOpt: int,
    connectivity: int,
    variant: Variant)

  /** An entry of the list: one of the S-group types, or some other value,
      which the type switches of the container skip. */
  datatype Entry = Known(group: SGroup) | Foreign

  /** `NewSGroup`: no position yet, no parent, display undefined. */
  function NewSGroup(kind: int): (g: SGroup)
    ensures g.index == -1 && g.atoms == [] && g.bonds == []
  {
    SGroup(kind, SubtypeNone, -1, -1, -1, [], [], 0, DisplayUndefined, 0, Plain)
  }

  function NewDataSGroup(): SGroup
  {
    NewSGroup(SGroupData).(variant := Data("", "", "", "", "", "", false, false, false, 0))
  }

  function NewSuperatom(labelText: string): SGroup
  {
    NewSGroup(SGroupSuperatom).(variant := Superatom(labelText, [], ""))
  }

  function NewMultipleGroup(multiplier: int): SGroup
  {
    NewSGroup(SGroupMultiple).(variant := Multiple(multiplier, []))
  }

  /** `NewSRUGroup`: the subscript starts as "n". */
  function NewSRUGroup(): SGroup
  {
    NewSGroup(SGroupSRU).(variant := Sru("n"))
  }

  function AddAtom(g: SGroup, atomIdx: int): (r: SGroup)
    ensures r.atoms == g.atoms + [atomIdx] && r.bonds == g.bonds
  {
    g.(atoms := g.atoms + [atomIdx])
  }

  function AddBond(g: SGroup, bondIdx: int): (r: SGroup)
    ensures r.bonds == g.bonds + [bondIdx] && r.atoms == g.atoms
  {
    g.(bonds := g.bonds + [bondIdx])
  }

  /** `HasAtom`: a linear search of the atom list. */
  method HasAtom(g: SGroup, atomIdx: int) returns (r: bool)
    ensures r <==> atomIdx in g.atoms
  {
    var k := 0;
    while k < |g.atoms|
      invariant 0 <= k <= |g.atoms|
      invariant atomIdx !in g.atoms[..k]
    {
      if g.atoms[k] == atomIdx {
        return true;
      }
      assert g.atoms[..k + 1] == g.atoms[..k] + [g.atoms[k]];
      k := k + 1;
    }
    assert g.atoms[..k] == g.atoms;
    return false;
  }

  // ---------------------------------------------------------------------
  // Type names

  /** `TypeString`: the three-letter molfile name, "UNKNOWN" outside the
      fifteen types. */
  function TypeString(kind: int): (s: string)
    ensures 0 <= kind <= 14 <==> s != "UNKNOWN"
    ensures 0 <= kind <= 14 ==> |s| == 3
  {
    if kind == SGroupGeneric then "GEN"
    else if kind == SGroupData then "DAT"
    else if kind == SGroupSuperatom then "SUP"
    else if kind == SGroupSRU then "SRU"
    else if kind == SGroupMultiple then "MUL"
    else if kind == SGroupMonomer then "MON"
    else if kind == SGroupMer then "MER"
    else if kind == SGroupCopolymer then "COP"
    else if kind == SGroupCrosslink then "CRO"
    else if kind == SGroupModified then "MOD"
    else if kind == SGroupGraft then "GRA"
    else if kind == SGroupComponent then "COM"
    else if kind == SGroupMixture then "MIX"
    else if kind == SGroupFormulation then "FOR"
    else if kind == SGroupAny then "ANY"
    else "UNKNOWN"
  }

  /** `ParseSGroupTypeString`: unknown names give the generic type. */
  function ParseSGroupTypeString(s: string): (kind: int)
    ensures 0 <= kind <= 14
  {
    if s == "GEN" then SGroupGeneric
    else if s == "DAT" then SGroupData
    else if s == "SUP" then SGroupSuperatom
    else if s == "SRU" then SGroupSRU
    else if s == "MUL" then SGroupMultiple
    else if s == "MON" then SGroupMonomer
    else if s == "MER" then SGroupMer
    else if s == "COP" then SGroupCopolymer
    else if s == "CRO" then SGroupCrosslink
    else if s == "MOD" then SGroupModified
    else if s == "GRA" then SGroupGraft
    else if s == "COM" then SGroupComponent
    else if s == "MIX" then SGroupMixture
    else if s == "FOR" then SGroupFormulation
    else if s == "ANY" then SGroupAny
    else SGroupGeneric
  }

  /** Parsing a written type name gives the type back. */
  lemma TypeStringRoundTrip(kind: int)
    requires 0 <= kind <= 14
    ensures ParseSGroupTypeString(TypeString(kind)) == kind
  {
  }

  /** Writing a parsed name gives the name back exactly for the fifteen
      known names; anything else reads as generic. */
  lemma ParseRoundTrip(s: string)
    ensures TypeString(ParseSGroupTypeString(s)) == s || ParseSGroupTypeString(s) == SGroupGeneric
  {
  }

  // ---------------------------------------------------------------------
  // Atom removal

  /** The atoms that `RemoveAtomsFromSGroups` keeps, in order. */
  function Survivors(atoms: seq<int>, removed: set<int>): (r: seq<int>)
    ensures |r| <= |atoms|
  {
    if atoms == [] then []
    else Survivors(atoms[..|atoms| - 1], removed) +
         (if atoms[|atoms| - 1] in removed then [] else [atoms[|atoms| - 1]])
  }

  /** The survivors are exactly the listed atoms that were not removed. */
  lemma {:induction false} SurvivorsMembers(atoms: seq<int>, removed: set<int>)
    ensures forall a :: a in Survivors(atoms, removed) <==> a in atoms && a !in removed
  {
    if atoms != [] {
      var init := atoms[..|atoms| - 1];
      SurvivorsMembers(init, removed);
      assert atoms == init + [atoms[|atoms| - 1]];
    }
  }

  /** Every survivor is one of the listed atoms. */
  lemma SurvivorsInAtoms(atoms: seq<int>, removed: set<int>)
    ensures forall k :: 0 <= k < |Survivors(atoms, removed)| ==> Survivors(atoms, removed)[k] in atoms
  {
    SurvivorsMembers(atoms, removed);
    var s := Survivors(atoms, removed);
    forall k | 0 <= k < |s| ensures s[k] in atoms {
      assert s[k] in s;
    }
  }

  /** One more atom looked at: the survivors grow by that atom unless it
      was removed. */
  lemma SurvivorsSnoc(atoms: seq<int>, removed: set<int>, k: nat)
    requires k < |atoms|
    ensures Survivors(atoms[..k + 1], removed) ==
              Survivors(atoms[..k], removed) + (if atoms[k] in removed then [] else [atoms[k]])
  {
    assert atoms[..k + 1][..k] == atoms[..k];
  }

  /** The new index of a kept atom: its mapping entry when there is a
      non-negative one, otherwise unchanged. */
  function Remap(a: int, mapping: seq<int>): int
    requires 0 <= a || |mapping| == 0
  {
    if |mapping| > 0 && a < |mapping| && mapping[a] >= 0 then mapping[a] else a
  }

  /** The atom list after `RemoveAtomsFromSGroups`. */
  function RemapAtoms(atoms: seq<int>, removed: set<int>, mapping: seq<int>): (r: seq<int>)
    requires |mapping| > 0 ==> forall a :: a in atoms ==> a >= 0
    ensures |r| == |Survivors(atoms, removed)|
  {
    SurvivorsInAtoms(atoms, removed);
    var s := Survivors(atoms, removed);
    seq(|s|, k requires 0 <= k < |s| => Remap(s[k], mapping))
  }

  /** Without a mapping, removal keeps exactly the atoms not listed. */
  lemma RemapWithoutMapping(atoms: seq<int>, removed: set<int>)
    ensures RemapAtoms(atoms, removed, []) == Survivors(atoms, removed)
    ensures forall a :: a in RemapAtoms(atoms, removed, []) <==> a in atoms && a !in removed
  {
    SurvivorsMembers(atoms, removed);
  }

  /** Every kept atom either has a non-negative mapping entry and is
      renumbered to it, or keeps its number. */
  lemma RemapAtomsEntries(atoms: seq<int>, removed: set<int>, mapping: seq<int>, k: int)
    requires |mapping| > 0 ==> forall a :: a in atoms ==> a >= 0
    requires 0 <= k < |RemapAtoms(atoms, removed, mapping)|
    ensures var a := Survivors(atoms, removed)[k];
            a in atoms && a !in removed &&
            RemapAtoms(atoms, removed, mapping)[k] == (if 0 <= a < |mapping| && mapping[a] >= 0 then mapping[a] else a)
  {
    var s := Survivors(atoms, removed);
    SurvivorsMembers(atoms, removed);
    assert s[k] in s;
  }

  /** The atoms `RemoveAtomsFromSGroups` must be able to look up: with a
      mapping, a kept atom is used as an index, so it must not be negative. */
  predicate RemapDefined(entries: seq<Entry>, mapping: seq<int>)
  {
    |mapping| > 0 ==> forall i, a :: 0 <= i < |entries| && entries[i].Known? && a in entries[i].group.atoms ==> a >= 0
  }

  /** An entry after `RemoveAtomsFromSGroups`. */
  function RemapEntry(e: Entry, removed: set<int>, mapping: seq<int>): Entry
    requires e.Known? && |mapping| > 0 ==> forall a :: a in e.group.atoms ==> a >= 0
  {
    if e.Foreign? then e else Known(e.group.(atoms := RemapAtoms(e.group.atoms, removed, mapping)))
  }

  /** Every S-group sits at the position its `Index` names. */
  predicate Indexed(entries: seq<Entry>)
  {
    forall i :: 0 <= i < |entries| && entries[i].Known? ==> entries[i].group.index == i
  }

  /** The entry with its position recorded, as `Add` and `Remove` do. */
  function AtPosition(e: Entry, i: int): (r: Entry)
    ensures r.Known? == e.Known?
  {
    if e.Known? then Known(e.group.(index := i)) else e
  }

  // ---------------------------------------------------------------------
  // The container

  class MoleculeSGroups {
    var groups: seq<Entry>

    predicate Valid()
      reads this
    {
      Indexed(groups)
    }

    /** `NewMoleculeSGroups`. */
    constructor ()
      ensures Valid() && groups == []
    {
      groups := [];
    }

    method Clear()
      modifies this
      ensures Valid() && groups == []
    {
      groups := [];
    }

    function Count(): (n: int)
      reads this
      ensures n == |groups|
    {
      |groups|
    }

    /** `Add`: the entry goes last and learns its position, which is
        returned. */
    method Add(e: Entry) returns (idx: int)
      requires Valid()
      modifies this
      ensures Valid()
      ensures idx == |old(groups)|
      ensures groups == old(groups) + [AtPosition(e, idx)]
    {
      idx := |groups|;
      groups := groups + [AtPosition(e, idx)];
    }

    /** `Get`: the entry at a position, or an error outside the list. */
    function Get(idx: int): (r: Result<Entry>)
      reads this
      ensures r.Ok? <==> 0 <= idx < |groups|
      ensures r.Ok? ==> r.value == groups[idx]
    {
      if idx < 0 || idx >= |groups| then Err("S-Group index " + Text.IntToString(idx) + " out of range")
      else Ok(groups[idx])
    }

    /** `Remove`: nothing for a bad position; otherwise the entry is cut out
        and every later S-group learns its new position. */
    method Remove(idx: int)
      requires Valid()
      modifies this
      ensures Valid()
      ensures !(0 <= idx < |old(groups)|) ==> groups == old(groups)
      ensures 0 <= idx < |old(groups)| ==>
                |groups| == |old(groups)| - 1 &&
                groups[..idx] == old(groups)[..idx] &&
                forall i :: idx <= i < |groups| ==> groups[i] == AtPosition(old(groups)[i + 1], i)
    {
      if idx < 0 || idx >= |groups| {
        return;
      }
      groups := groups[..idx] + groups[idx + 1..];
      var i := idx;
      while i < |groups|
        invariant idx <= i <= |groups| == |old(groups)| - 1
        invariant groups[..idx] == old(groups)[..idx]
        invariant forall j :: idx <= j < i ==> groups[j] == AtPosition(old(groups)[j + 1], j)
        invariant forall j :: i <= j < |groups| ==> groups[j] == old(groups)[j + 1]
      {
        groups := groups[i := AtPosition(groups[i], i)];
        i := i + 1;
      }
    }

    /** `FindByType`: the positions of the S-groups of one type, in
        increasing order. */
    method FindByType(kind: int) returns (result: seq<int>)
      ensures forall k :: 0 <= k < |result| ==> 0 <= result[k] < |groups|
      ensures forall j, k :: 0 <= j < k < |result| ==> result[j] < result[k]
      ensures forall i :: i in result <==> 0 <= i < |groups| && groups[i].Known? && groups[i].group.kind == kind
    {
      result := [];
      var i := 0;
      while i < |groups|
        invariant 0 <= i <= |groups|
        invariant forall k :: 0 <= k < |result| ==> 0 <= result[k] < i
        invariant forall j, k :: 0 <= j < k < |result| ==> result[j] < result[k]
        invariant forall x :: x in result <==> 0 <= x < i && groups[x].Known? && groups[x].group.kind == kind
      {
        if groups[i].Known? && groups[i].group.kind == kind {
          result := result + [i];
        }
        i := i + 1;
      }
    }

    /** `GetSuperatoms`, `GetDataSGroups` and `GetSRUGroups`: the S-groups
        of one concrete type, in list order. */
    method GroupsWhere(superatoms: bool, data: bool, sru: bool) returns (result: seq<SGroup>)
      ensures result == SelectGroups(groups, superatoms, data, sru)
    {
      result := [];
      var i := 0;
      while i < |groups|
        invariant 0 <= i <= |groups|
        invariant result == SelectGroups(groups[..i], superatoms, data, sru)
      {
        assert groups[..i + 1][..i] == groups[..i];
        if groups[i].Known? && Selected(groups[i].group, superatoms, data, sru) {
          result := result + [groups[i].group];
        }
        i := i + 1;
      }
      assert groups[..i] == groups;
    }

    /** `RemoveAtomsFromSGroups`: every S-group drops the listed atoms and
        renumbers the rest through `mapping` (empty for no mapping). */
    method RemoveAtomsFromSGroups(atomIndices: seq<int>, mapping: seq<int>)
      requires Valid() && RemapDefined(groups, mapping)
      modifies this
      ensures Valid()
      ensures |groups| == |old(groups)|
      ensures forall i :: 0 <= i < |groups| ==>
                groups[i] == RemapEntry(old(groups)[i], (set a | a in atomIndices), mapping)
    {
      var removed: set<int> := set a | a in atomIndices;
      var i := 0;
      while i < |groups|
        invariant 0 <= i <= |groups| == |old(groups)|
        invariant forall j :: 0 <= j < i ==> groups[j] == RemapEntry(old(groups)[j], removed, mapping)
        invariant forall j :: i <= j < |groups| ==> groups[j] == old(groups)[j]
      {
        if groups[i].Known? {
          var g := groups[i].group;
          var newAtoms := RemapList(g.atoms, removed, mapping);
          groups := groups[i := Known(g.(atoms := newAtoms))];
        }
        i := i + 1;
      }
    }

    /** `FindAtomsInSGroups`: every atom of every S-group. */
    method FindAtomsInSGroups() returns (atoms: set<int>)
      ensures forall a :: a in atoms <==> exists i :: 0 <= i < |groups| && groups[i].Known? && a in groups[i].group.atoms
    {
      atoms := {};
      var i := 0;
      while i < |groups|
        invariant 0 <= i <= |groups|
        invariant forall a :: a in atoms <==> exists j :: 0 <= j < i && groups[j].Known? && a in groups[j].group.atoms
      {
        if groups[i].Known? {
          atoms := atoms + set a | a in groups[i].group.atoms;
        }
        i := i + 1;
      }
    }
  }

  /** Whether `g` has one of the selected concrete types. */
  predicate Selected(g: SGroup, superatoms: bool, data: bool, sru: bool)
  {
    (superatoms && g.variant.Superatom?) || (data && g.variant.Data?) || (sru && g.variant.Sru?)
  }

  /** The S-groups of the selected concrete types, in list order. */
  function SelectGroups(entries: seq<Entry>, superatoms: bool, data: bool, sru: bool): (r: seq<SGroup>)
    ensures forall g :: g in r ==> Selected(g, superatoms, data, sru)
    ensures forall i :: 0 <= i < |entries| && entries[i].Known? && Selected(entries[i].group, superatoms, data, sru) ==>
              entries[i].group in r
  {
    if entries == [] then []
    else
      var last := entries[|entries| - 1];
      SelectGroups(entries[..|entries| - 1], superatoms, data, sru) +
      (if last.Known? && Selected(last.group, superatoms, data, sru) then [last.group] else [])
  }

  /** The inner loop of `RemoveAtomsFromSGroups` over one atom list. */
  method RemapList(atoms: seq<int>, removed: set<int>, mapping: seq<int>) returns (r: seq<int>)
    requires |mapping| > 0 ==> forall a :: a in atoms ==> a >= 0
    ensures r == RemapAtoms(atoms, removed, mapping)
  {
    r := [];
    ghost var kept: seq<int> := [];
    var k := 0;
    while k < |atoms|
      invariant 0 <= k <= |atoms|
      invariant kept == Survivors(atoms[..k], removed) && |r| == |kept|
      invariant forall j :: 0 <= j < |r| ==> (0 <= kept[j] || |mapping| == 0) && r[j] == Remap(kept[j], mapping)
    {
      SurvivorsSnoc(atoms, removed, k);
      var a := atoms[k];
      assert a in atoms;
      if a !in removed {
        var newIdx := a;
        if |mapping| > 0 && a < |mapping| && mapping[a] >= 0 {
          newIdx := mapping[a];
        }
        r := r + [newIdx];
        kept := kept + [a];
      }
      k := k + 1;
    }
    assert atoms[..k] == atoms;
  }
}
