/** A reaction (reaction/base_reaction.go): one list of molecules, each on a
    side given by a bit flag, with a counter per side, plus reaction blocks,
    special conditions, properties and metadata. */
module BaseReactions {
  import opened Wrappers
  import opened BaseMolecules
  import opened ReactionTypes

  /** Reaction side flags (src/reaction/constants.go). */
  const Reactant: int := 1
  const Product: int := 2
  const Intermediate: int := 4
  const Undefined: int := 8
  const Catalyst: int := 16

  /** `Reactant|Product|Catalyst|Intermediate|Undefined`, the mask of the
      whole-reaction iteration. */
  const AllSides: int := 31

  predicate IsSide(t: int)
  {
    t == Reactant || t == Product || t == Intermediate || t == Undefined || t == Catalyst
  }

  function Pow2(k: nat): (p: int)
    ensures p >= 1
  {
    if k == 0 then 1 else 2 * Pow2(k - 1)
  }

  /** Bit `k` of `a` in two's complement (Dafny's `/` floors for a positive
      divisor, as an arithmetic shift does). */
  predicate Bit(a: int, k: nat)
  {
    (a / Pow2(k)) % 2 == 1
  }

  /** Go's `a & b != 0` on 64-bit ints: some bit is set in both. */
  predicate Overlaps(a: int, b: int)
  {
    exists k :: 0 <= k < 64 && Bit(a, k) && Bit(b, k)
  }

  /** Every side answers to the whole-reaction mask, and to its own flag. */
  lemma SideFlags(t: int)
    requires IsSide(t)
    ensures Overlaps(t, AllSides) && Overlaps(t, t)
  {
    var k := if t == Reactant then 0 else if t == Product then 1
      else if t == Intermediate then 2 else if t == Undefined then 3 else 4;
    assert Pow2(k) == t;
    assert Bit(t, k) && Bit(AllSides, k);
  }

  /** Each of the five side counters equals the number of molecules on its
      side. */
  predicate CountsMatch(types: seq<int>, reactants: int, products: int, intermediates: int,
                        undefineds: int, catalysts: int)
  {
    reactants == multiset(types)[Reactant]
    && products == multiset(types)[Product]
    && intermediates == multiset(types)[Intermediate]
    && undefineds == multiset(types)[Undefined]
    && catalysts == multiset(types)[Catalyst]
  }

  /** A counter after a molecule of side `t` leaves (`delta` -1) or
      arrives (`delta` 1): only the counter of side `t` moves. */
  function Moved(count: int, t: int, side: int, delta: int): int
  {
    if t == side then count + delta else count
  }

  /** Taking out entry `i` moves exactly the counter of its side down. */
  lemma RemoveKeepsCounts(types: seq<int>, i: int, reactants: int, products: int,
                          intermediates: int, undefineds: int, catalysts: int)
    requires 0 <= i < |types|
    requires CountsMatch(types, reactants, products, intermediates, undefineds, catalysts)
    ensures var t := types[i];
      CountsMatch(types[..i] + types[i + 1..], Moved(reactants, t, Reactant, -1),
                  Moved(products, t, Product, -1), Moved(intermediates, t, Intermediate, -1),
                  Moved(undefineds, t, Undefined, -1), Moved(catalysts, t, Catalyst, -1))
  {
    assert types == types[..i] + [types[i]] + types[i + 1..];
    assert multiset(types[..i] + types[i + 1..]) == multiset(types) - multiset{types[i]};
  }

  /** Appending a molecule of side `t` moves exactly its counter up. */
  lemma AppendKeepsCounts(types: seq<int>, t: int, reactants: int, products: int,
                          intermediates: int, undefineds: int, catalysts: int)
    requires CountsMatch(types, reactants, products, intermediates, undefineds, catalysts)
    ensures CountsMatch(types + [t], Moved(reactants, t, Reactant, 1),
                        Moved(products, t, Product, 1), Moved(intermediates, t, Intermediate, 1),
                        Moved(undefineds, t, Undefined, 1), Moved(catalysts, t, Catalyst, 1))
  {
    assert multiset(types + [t]) == multiset(types) + multiset{t};
  }

  /** Everything a `BaseMolecule` holds, for comparing a copy with its
      original. */
  ghost function Contents(m: BaseMolecule): (seq<int>, seq<int>, seq<int>, bool, seq<bool>)
    reads m
  {
    (m.atomMapping, m.bondReactingCenter, m.atomInversion, m.haveXYZ, m.selected)
  }

  /** `ReactionBlock`: molecule indices grouped into one reaction step. */
  datatype ReactionBlock = ReactionBlock(reactants: seq<int>, products: seq<int>, catalysts: seq<int>)

  /** A block the reaction iteration stops at: it has a reactant or a
      product. */
  predicate Populated(b: ReactionBlock)
  {
    |b.products| > 0 || |b.reactants| > 0
  }

  /** `ZeroMapping`: the inner loop of `ClearAAM` on one molecule. */
  method ZeroMapping(mol: BaseMolecule)
    modifies mol`atomMapping
    ensures mol.atomMapping == Zeros(|old(mol.atomMapping)|)
  {
    var j := 0;
    while j < |mol.atomMapping|
      invariant 0 <= j <= |mol.atomMapping| == |old(mol.atomMapping)|
      invariant forall k :: 0 <= k < j ==> mol.atomMapping[k] == 0
    {
      mol.atomMapping := mol.atomMapping[j := 0];
      j := j + 1;
    }
  }

  class BaseReaction {
    var allMolecules: seq<BaseMolecule>
    var reactionBlocks: seq<ReactionBlock>
    var types: seq<int>
    var specialConditions: seq<SpecialCondition>
    const properties: PropertiesMap
    const meta: MetaDataStorage
    var name: string
    var originalFormat: int
    var isRetrosynthetic: bool
    var reactantCount: int
    var productCount: int
    var catalystCount: int
    var intermediateCount: int
    var undefinedCount: int

    /** One side per molecule, every side one of the five flags, and each
        counter equal to the number of molecules on its side. */
    predicate Valid()
      reads this
    {
      |types| == |allMolecules|
      && (forall i :: 0 <= i < |types| ==> IsSide(types[i]))
      && CountsMatch(types, reactantCount, productCount, intermediateCount, undefinedCount, catalystCount)
    }

    /** `NewBaseReaction`: no molecules, blocks or conditions, empty name,
        fresh property and metadata stores. */
    constructor ()
      ensures Valid()
      ensures allMolecules == [] && reactionBlocks == [] && specialConditions == []
      ensures name == "" && originalFormat == 0 && !isRetrosynthetic
      ensures fresh(properties) && fresh(meta)
      ensures properties.properties == map[] && meta.data == map[]
    {
      allMolecules := [];
      reactionBlocks := [];
      types := [];
      specialConditions := [];
      properties := new PropertiesMap();
      meta := new MetaDataStorage();
      name := "";
      originalFormat := 0;
      isRetrosynthetic := false;
      reactantCount := 0;
      productCount := 0;
      catalystCount := 0;
      intermediateCount := 0;
      undefinedCount := 0;
    }

    /** `Clear`: every list and counter emptied and the name reset; the
        property and metadata stores and the retrosynthetic flag stay. */
    method Clear()
      modifies this`allMolecules, this`reactionBlocks, this`types, this`specialConditions, this`name
      modifies this`reactantCount, this`productCount, this`catalystCount
      modifies this`intermediateCount, this`undefinedCount
      ensures Valid()
      ensures allMolecules == [] && reactionBlocks == [] && specialConditions == [] && name == ""
    {
      reactantCount := 0;
      productCount := 0;
      catalystCount := 0;
      intermediateCount := 0;
      undefinedCount := 0;
      allMolecules := [];
      reactionBlocks := [];
      specialConditions := [];
      types := [];
      name := "";
    }

    /** `End` and `Count`: one past the last molecule. */
    function End(): (n: int)
      reads this
      ensures n == |allMolecules|
    {
      |allMolecules|
    }

    /** `GetSideType`: the side of a molecule, 0 for a bad index. */
    function GetSideType(index: int): (t: int)
      reads this
      ensures Valid() && 0 <= index < |allMolecules| ==> IsSide(t) && t == types[index]
      ensures !(0 <= index < |types|) ==> t == 0
    {
      if index < 0 || index >= |types| then 0 else types[index]
    }

    /** `ReactantsCount`: the molecules on the reactant side. */
    function ReactantsCount(): (n: int)
      reads this
      ensures Valid() ==> n == multiset(types)[Reactant]
    {
      reactantCount
    }

    /** `ProductsCount`. */
    function ProductsCount(): (n: int)
      reads this
      ensures Valid() ==> n == multiset(types)[Product]
    {
      productCount
    }

    /** `CatalystCount`. */
    function CatalystCount(): (n: int)
      reads this
      ensures Valid() ==> n == multiset(types)[Catalyst]
    {
      catalystCount
    }

    /** `IntermediateCount`. */
    function IntermediateCount(): (n: int)
      reads this
      ensures Valid() ==> n == multiset(types)[Intermediate]
    {
      intermediateCount
    }

    /** `UndefinedCount`. */
    function UndefinedCount(): (n: int)
      reads this
      ensures Valid() ==> n == multiset(types)[Undefined]
    {
      undefinedCount
    }

    /** Molecule `i` is on a side the mask `typ` selects. */
    predicate Flagged(i: int, typ: int)
      reads this
    {
      0 <= i < |types| && Overlaps(types[i], typ)
    }

    /** `nextElement`: from the molecule after `index` (or from the first
        when `index` is -1), the first one whose side shares a bit with
        `typ`, or the end when there is none. A start at or past the end is
        returned as it is. Go indexes `types` with the start, so an `index`
        below -1 panics there. */
    method NextElement(typ: int, index: int) returns (r: int)
      requires index >= -1
      ensures var start := if index == -1 then 0 else index + 1;
        start <= r
        && (r < |allMolecules| ==> Flagged(r, typ))
        && (forall j :: start <= j < r ==> !Flagged(j, typ))
        && (r >= |allMolecules| ==> r == if start > |allMolecules| then start else |allMolecules|)
    {
      r := if index == -1 then 0 else index + 1;
      while r < |allMolecules|
        invariant forall j :: (if index == -1 then 0 else index + 1) <= j < r ==> !Flagged(j, typ)
        invariant (if index == -1 then 0 else index + 1) <= r
        invariant r > (if index == -1 then 0 else index + 1) ==> r <= |allMolecules|
        decreases |allMolecules| - r
      {
        if r < |types| && Overlaps(types[r], typ) {
          break;
        }
        r := r + 1;
      }
    }

    /** `Begin`: every molecule is on some side, so iteration starts at 0. */
    method Begin() returns (r: int)
      requires Valid()
      ensures r == 0
    {
      r := NextElement(AllSides, -1);
      if 0 < |allMolecules| {
        SideFlags(types[0]);
        assert Flagged(0, AllSides);
      }
    }

    /** `Next`: the whole-reaction iteration visits every molecule in turn. */
    method Next(i: int) returns (r: int)
      requires Valid() && -1 <= i < |allMolecules|
      ensures r == i + 1
    {
      r := NextElement(AllSides, i);
      if i + 1 < |allMolecules| {
        SideFlags(types[i + 1]);
        assert Flagged(i + 1, AllSides);
      }
    }

    /** The side switch of `Remove` (`delta` -1) and `addedBaseMolecule`
        (`delta` 1): the counter of `side` moves by `delta`; a value that is
        not a side moves nothing. */
    method MoveCounter(side: int, delta: int)
      modifies this`reactantCount, this`productCount, this`catalystCount
      modifies this`intermediateCount, this`undefinedCount
      ensures reactantCount == Moved(old(reactantCount), side, Reactant, delta)
      ensures productCount == Moved(old(productCount), side, Product, delta)
      ensures intermediateCount == Moved(old(intermediateCount), side, Intermediate, delta)
      ensures undefinedCount == Moved(old(undefinedCount), side, Undefined, delta)
      ensures catalystCount == Moved(old(catalystCount), side, Catalyst, delta)
    {
      if side == Reactant {
        reactantCount := reactantCount + delta;
      } else if side == Product {
        productCount := productCount + delta;
      } else if side == Intermediate {
        intermediateCount := intermediateCount + delta;
      } else if side == Undefined {
        undefinedCount := undefinedCount + delta;
      } else if side == Catalyst {
        catalystCount := catalystCount + delta;
      }
    }

    /** `Remove`: a bad index is an error and changes nothing; otherwise the
        molecule's side loses one and both lists close up over the gap. */
    method Remove(i: int) returns (r: Outcome)
      requires Valid()
      modifies this`allMolecules, this`types
      modifies this`reactantCount, this`productCount, this`catalystCount
      modifies this`intermediateCount, this`undefinedCount
      ensures Valid()
      ensures !(0 <= i < old(|allMolecules|)) ==>
        r == Fail("index out of range") && allMolecules == old(allMolecules) && types == old(types)
      ensures 0 <= i < old(|allMolecules|) ==>
        r == Pass
        && allMolecules == old(allMolecules[..i] + allMolecules[i + 1..])
        && types == old(types[..i] + types[i + 1..])
    {
      if i < 0 || i >= |allMolecules| {
        return Fail("index out of range");
      }
      var side := types[i];
      MoveCounter(side, -1);
      RemoveKeepsCounts(types, i, old(reactantCount), old(productCount), old(intermediateCount),
                        old(undefinedCount), old(catalystCount));
      allMolecules := allMolecules[..i] + allMolecules[i + 1..];
      types := types[..i] + types[i + 1..];
      r := Pass;
    }

    /** The loop in `addedBaseMolecule` that pads `types` with zeros until
        `idx` is an index of it. */
    static method GrowTypes(ts: seq<int>, idx: int) returns (grown: seq<int>)
      ensures |grown| == if |ts| <= idx then idx + 1 else |ts|
      ensures grown[..|ts|] == ts
      ensures forall k :: |ts| <= k < |grown| ==> grown[k] == 0
    {
      grown := ts;
      while |grown| <= idx
        invariant |ts| <= |grown| && (|ts| <= idx ==> |grown| <= idx + 1) && (idx < |ts| ==> grown == ts)
        invariant grown[..|ts|] == ts
        invariant forall k :: |ts| <= k < |grown| ==> grown[k] == 0
        decreases idx + 1 - |grown|
      {
        assert (grown + [0])[..|ts|] == grown[..|ts|];
        grown := grown + [0];
      }
    }

    /** `addedBaseMolecule`: the side's counter goes up and `types` grows
        to cover the new index, which gets the side. */
    method AddedBaseMolecule(idx: int, side: int)
      requires IsSide(side) && idx == |types| && |allMolecules| == idx + 1
      requires forall i :: 0 <= i < |types| ==> IsSide(types[i])
      requires CountsMatch(types, reactantCount, productCount, intermediateCount, undefinedCount, catalystCount)
      modifies this`types
      modifies this`reactantCount, this`productCount, this`catalystCount
      modifies this`intermediateCount, this`undefinedCount
      ensures Valid() && types == old(types) + [side]
    {
      MoveCounter(side, 1);
      var grown := GrowTypes(types, idx);
      assert grown == types + [0];
      ghost var before := types;
      types := grown[idx := side];
      assert types == before + [side];
      AppendKeepsCounts(before, side, old(reactantCount), old(productCount), old(intermediateCount),
                        old(undefinedCount), old(catalystCount));
    }

    /** `addBaseMolecule` (behind `AddReactant`, `AddProduct`, `AddCatalyst`,
        `AddIntermediate` and `AddUndefined`): a new empty molecule is
        appended on `side` and its index, the old count, returned. */
    method AddBaseMolecule(side: int) returns (idx: int)
      requires Valid() && IsSide(side)
      modifies this`allMolecules, this`types
      modifies this`reactantCount, this`productCount, this`catalystCount
      modifies this`intermediateCount, this`undefinedCount
      ensures Valid()
      ensures idx == old(|allMolecules|) && |allMolecules| == idx + 1
      ensures allMolecules[..idx] == old(allMolecules) && types == old(types) + [side]
      ensures fresh(allMolecules[idx]) && allMolecules[idx].atomMapping == []
    {
      var mol := new BaseMolecule();
      idx := |allMolecules|;
      allMolecules := allMolecules + [mol];
      AddedBaseMolecule(idx, side);
    }

    /** `AddReactantCopy` and its four siblings: a fresh copy of `mol` is
        appended on `side`; `mol` itself is not touched. */
    method AddCopy(mol: BaseMolecule, side: int) returns (idx: int)
      requires Valid() && IsSide(side)
      modifies this`allMolecules, this`types
      modifies this`reactantCount, this`productCount, this`catalystCount
      modifies this`intermediateCount, this`undefinedCount
      ensures Valid()
      ensures idx == old(|allMolecules|) && |allMolecules| == idx + 1
      ensures allMolecules[..idx] == old(allMolecules) && types == old(types) + [side]
      ensures fresh(allMolecules[idx]) && Contents(allMolecules[idx]) == old(Contents(mol))
    {
      idx := |allMolecules|;
      var newMol := new BaseMolecule();
      newMol.CloneFrom(mol);
      allMolecules := allMolecules + [newMol];
      AddedBaseMolecule(idx, side);
    }

    /** `GetBaseMolecule`: nothing for a bad index. */
    function GetBaseMolecule(index: int): (r: Option<BaseMolecule>)
      reads this
      ensures r.Some? <==> 0 <= index < |allMolecules|
      ensures r.Some? ==> r.value == allMolecules[index]
    {
      if index < 0 || index >= |allMolecules| then None else Some(allMolecules[index])
    }

    /** `GetAAM`: a mapping number, 0 when either index is out of range. */
    function GetAAM(index: int, atom: int): (r: int)
      reads this, allMolecules
      ensures !(0 <= index < |allMolecules|) ==> r == 0
      ensures 0 <= index < |allMolecules| ==>
        r == if 0 <= atom < |allMolecules[index].atomMapping| then allMolecules[index].atomMapping[atom] else 0
    {
      if index < 0 || index >= |allMolecules| then 0
      else
        var mol := allMolecules[index];
        if atom < 0 || atom >= |mol.atomMapping| then 0 else mol.atomMapping[atom]
    }

    /** `GetReactingCenter`: a bond's reacting-centre mark, 0 when either
        index is out of range. */
    function GetReactingCenter(index: int, bond: int): (r: int)
      reads this, allMolecules
      ensures !(0 <= index < |allMolecules|) ==> r == 0
      ensures 0 <= index < |allMolecules| ==>
        r == if 0 <= bond < |allMolecules[index].bondReactingCenter| then allMolecules[index].bondReactingCenter[bond] else 0
    {
      if index < 0 || index >= |allMolecules| then 0
      else
        var mol := allMolecules[index];
        if bond < 0 || bond >= |mol.bondReactingCenter| then 0 else mol.bondReactingCenter[bond]
    }

    /** `GetInversion`: an atom's inversion mark, 0 when either index is out
        of range. */
    function GetInversion(index: int, atom: int): (r: int)
      reads this, allMolecules
      ensures !(0 <= index < |allMolecules|) ==> r == 0
      ensures 0 <= index < |allMolecules| ==>
        r == if 0 <= atom < |allMolecules[index].atomInversion| then allMolecules[index].atomInversion[atom] else 0
    {
      if index < 0 || index >= |allMolecules| then 0
      else
        var mol := allMolecules[index];
        if atom < 0 || atom >= |mol.atomInversion| then 0 else mol.atomInversion[atom]
    }

    /** `GetAAMArray`: a molecule's whole mapping array, nil (empty) for a
        bad index. */
    function GetAAMArray(index: int): (r: seq<int>)
      reads this, allMolecules
      ensures 0 <= index < |allMolecules| ==> r == allMolecules[index].atomMapping
      ensures !(0 <= index < |allMolecules|) ==> r == []
    {
      if index < 0 || index >= |allMolecules| then [] else allMolecules[index].atomMapping
    }

    /** `ClearAAM`: every mapping number of every molecule becomes 0, and
        every mapping array keeps its length. */
    method ClearAAM()
      requires Valid()
      modifies allMolecules`atomMapping
      ensures forall k :: 0 <= k < |allMolecules| ==>
        allMolecules[k].atomMapping == Zeros(|old(allMolecules[k].atomMapping)|)
      ensures forall k, a :: 0 <= k < |allMolecules| ==> GetAAM(k, a) == 0
    {
      var i := Begin();
      while i != End()
        invariant 0 <= i <= |allMolecules|
        invariant forall k :: 0 <= k < |allMolecules| ==>
          |allMolecules[k].atomMapping| == |old(allMolecules[k].atomMapping)|
        invariant forall k :: 0 <= k < i ==>
          allMolecules[k].atomMapping == Zeros(|old(allMolecules[k].atomMapping)|)
        decreases |allMolecules| - i
      {
        ZeroMapping(allMolecules[i]);
        i := Next(i);
      }
    }

    /** `FindAtomByAAM`: the first atom of molecule `molIdx` (walking
        `VertexBegin`, `VertexNext` up to `VertexEnd`) with mapping number
        `aam`, or -1 when there is none or the molecule index is bad. */
    method FindAtomByAAM(molIdx: int, aam: int) returns (r: int)
      ensures r == -1 <==>
        !(0 <= molIdx < |allMolecules|)
        || forall i :: 0 <= i < |allMolecules[molIdx].atomMapping| ==> allMolecules[molIdx].atomMapping[i] != aam
      ensures r != -1 ==>
        0 <= molIdx < |allMolecules|
        && 0 <= r < |allMolecules[molIdx].atomMapping|
        && allMolecules[molIdx].atomMapping[r] == aam
        && forall j :: 0 <= j < r ==> allMolecules[molIdx].atomMapping[j] != aam
    {
      if molIdx < 0 || molIdx >= |allMolecules| {
        return -1;
      }
      var mol := allMolecules[molIdx];
      var i := mol.VertexBegin();
      while i < mol.VertexEnd()
        invariant 0 <= i <= |mol.atomMapping|
        invariant forall j :: 0 <= j < i ==> mol.atomMapping[j] != aam
      {
        if GetAAM(molIdx, i) == aam {
          return i;
        }
        i := mol.VertexNext(i);
      }
      return -1;
    }

    /** `FindMolecule`: the first position holding this very molecule
        object, or -1. */
    method FindMolecule(mol: BaseMolecule) returns (r: int)
      requires Valid()
      ensures r == -1 <==> mol !in allMolecules
      ensures r != -1 ==>
        (0 <= r < |allMolecules| && allMolecules[r] == mol
         && forall j :: 0 <= j < r ==> allMolecules[j] != mol)
    {
      var i := Begin();
      while i != End()
        invariant 0 <= i <= |allMolecules|
        invariant forall j :: 0 <= j < i ==> allMolecules[j] != mol
        decreases |allMolecules| - i
      {
        var found := GetBaseMolecule(i);
        if found == Some(mol) {
          return i;
        }
        i := Next(i);
      }
      return -1;
    }

    /** `FindAamNumber`: the mapping number of `atomNumber` in the first
        position holding `mol`; an error when `mol` is not in the
        reaction. */
    method FindAamNumber(mol: BaseMolecule, atomNumber: int) returns (r: Result<int>)
      requires Valid()
      ensures r.Err? <==> mol !in allMolecules
      ensures r.Err? ==> r.error == "cannot find aam number"
      ensures r.Ok? ==> exists i :: 0 <= i < |allMolecules| && allMolecules[i] == mol && r.value == GetAAM(i, atomNumber)
    {
      var i := Begin();
      while i < End()
        invariant 0 <= i <= |allMolecules|
        invariant forall j :: 0 <= j < i ==> allMolecules[j] != mol
        decreases |allMolecules| - i
      {
        if allMolecules[i] == mol {
          return Ok(GetAAM(i, atomNumber));
        }
        i := Next(i);
      }
      return Err("cannot find aam number");
    }

    /** `FindReactingCenter`: as `FindAamNumber`, for a bond's
        reacting-centre mark. */
    method FindReactingCenter(mol: BaseMolecule, bondNumber: int) returns (r: Result<int>)
      requires Valid()
      ensures r.Err? <==> mol !in allMolecules
      ensures r.Err? ==> r.error == "cannot find reacting center"
      ensures r.Ok? ==> exists i :: 0 <= i < |allMolecules| && allMolecules[i] == mol && r.value == GetReactingCenter(i, bondNumber)
    {
      var i := Begin();
      while i < End()
        invariant 0 <= i <= |allMolecules|
        invariant forall j :: 0 <= j < i ==> allMolecules[j] != mol
        decreases |allMolecules| - i
      {
        if allMolecules[i] == mol {
          return Ok(GetReactingCenter(i, bondNumber));
        }
        i := Next(i);
      }
      return Err("cannot find reacting center");
    }

    /** `HasSelection`: some molecule has a selected atom. */
    method HasSelection() returns (r: bool)
      requires Valid()
      ensures r <==> exists k, j :: 0 <= k < |allMolecules| && 0 <= j < |allMolecules[k].selected| && allMolecules[k].selected[j]
    {
      var i := Begin();
      while i < End()
        invariant 0 <= i <= |allMolecules|
        invariant forall k, j :: 0 <= k < i && 0 <= j < |allMolecules[k].selected| ==> !allMolecules[k].selected[j]
        decreases |allMolecules| - i
      {
        var sel := allMolecules[i].HasSelection();
        if sel {
          return true;
        }
        i := Next(i);
      }
      return false;
    }

    /** `ReactionBlocksCount` and `ReactionsCount`. */
    function ReactionBlocksCount(): (n: int)
      reads this
      ensures n == |reactionBlocks|
    {
      |reactionBlocks|
    }

    /** `ReactionBlock`: nothing for a bad index. */
    function ReactionBlockAt(index: int): (r: Option<ReactionBlock>)
      reads this
      ensures r.Some? <==> 0 <= index < |reactionBlocks|
      ensures r.Some? ==> r.value == reactionBlocks[index]
    {
      if index < 0 || index >= |reactionBlocks| then None else Some(reactionBlocks[index])
    }

    /** `AddReactionBlock`: an empty block is appended; its index is
        returned. */
    method AddReactionBlock() returns (idx: int)
      modifies this`reactionBlocks
      ensures idx == old(|reactionBlocks|)
      ensures reactionBlocks == old(reactionBlocks) + [ReactionBlock([], [], [])]
    {
      idx := |reactionBlocks|;
      reactionBlocks := reactionBlocks + [ReactionBlock([], [], [])];
    }

    /** `ClearReactionBlocks`. */
    method ClearReactionBlocks()
      modifies this`reactionBlocks
      ensures reactionBlocks == []
    {
      reactionBlocks := [];
    }

    /** `ReactionBegin`: the first populated block, or the block count. */
    method ReactionBegin() returns (r: int)
      ensures 0 <= r <= |reactionBlocks|
      ensures r < |reactionBlocks| ==> Populated(reactionBlocks[r])
      ensures forall j :: 0 <= j < r ==> !Populated(reactionBlocks[j])
    {
      r := 0;
      while r < |reactionBlocks|
        invariant 0 <= r <= |reactionBlocks|
        invariant forall j :: 0 <= j < r ==> !Populated(reactionBlocks[j])
      {
        if Populated(reactionBlocks[r]) {
          return;
        }
        r := r + 1;
      }
    }

    /** `ReactionEnd`: the block count, except that a reaction without
        blocks ends at 1, so that it reads as a single reaction. */
    function ReactionEnd(): (n: int)
      reads this
      ensures n >= 1
      ensures |reactionBlocks| > 0 ==> n == |reactionBlocks|
    {
      if |reactionBlocks| == 0 then 1 else |reactionBlocks|
    }

    /** `ReactionNext`: the next populated block after `i`, or the block
        count (or `i + 1` when that is already past it). Go indexes the
        blocks from `i + 1`, so an `i` below -1 panics. */
    method ReactionNext(i: int) returns (r: int)
      requires i >= -1
      ensures i + 1 <= r
      ensures r < |reactionBlocks| ==> Populated(reactionBlocks[r])
      ensures forall j :: i < j < r && j < |reactionBlocks| ==> !Populated(reactionBlocks[j])
      ensures r >= |reactionBlocks| ==> r == if i + 1 > |reactionBlocks| then i + 1 else |reactionBlocks|
    {
      r := i + 1;
      while r < |reactionBlocks|
        invariant i + 1 <= r
        invariant r > i + 1 ==> r <= |reactionBlocks|
        invariant forall j :: i < j < r ==> !Populated(reactionBlocks[j])
        decreases |reactionBlocks| - r
      {
        if Populated(reactionBlocks[r]) {
          break;
        }
        r := r + 1;
      }
    }

    /** `AddSpecialCondition`: appended; its index is returned. */
    method AddSpecialCondition(metaIdx: int, bbox: Rect2f) returns (idx: int)
      modifies this`specialConditions
      ensures idx == old(|specialConditions|)
      ensures specialConditions == old(specialConditions) + [SpecialCondition(metaIdx, bbox)]
    {
      specialConditions := specialConditions + [SpecialCondition(metaIdx, bbox)];
      idx := |specialConditions| - 1;
    }

    /** `ClearSpecialConditions`. */
    method ClearSpecialConditions()
      modifies this`specialConditions
      ensures specialConditions == []
    {
      specialConditions := [];
    }

    /** `SpecialCondition`: an error for a bad index. */
    function SpecialConditionAt(idx: int): (r: Result<SpecialCondition>)
      reads this
      ensures r.Ok? <==> 0 <= idx < |specialConditions|
      ensures r.Ok? ==> r.value == specialConditions[idx]
      ensures r.Err? ==> r.error == "index out of range"
    {
      if idx < 0 || idx >= |specialConditions| then Err("index out of range") else Ok(specialConditions[idx])
    }

    /** `SetIsRetrosyntetic`. */
    method SetIsRetrosynthetic()
      modifies this`isRetrosynthetic
      ensures isRetrosynthetic
    {
      isRetrosynthetic := true;
    }

    /** `MultitaleCount`: the length of the multi-tail arrow list in the
        metadata. */
    function MultitaleCount(): (n: int)
      reads this, meta
      ensures n >= 0
      ensures n > 0 ==> "ReactionMultitailArrowObject" in meta.data
    {
      meta.GetMetaCount("ReactionMultitailArrowObject")
    }

    /** One turn of the molecule loop of `Clone`: the switch on the side of
        molecule `i` of `other`, each of whose cases adds a copy on that
        side. */
    method CopyAt(other: BaseReaction, i: int, index: int) returns (newIndex: int)
      requires Valid() && other != this && other.Valid()
      requires 0 <= i < |other.allMolecules| && |allMolecules| == i && types == other.types[..i]
      modifies this`allMolecules, this`types
      modifies this`reactantCount, this`productCount, this`catalystCount
      modifies this`intermediateCount, this`undefinedCount
      ensures Valid() && newIndex == i && |allMolecules| == i + 1 && types == other.types[..i + 1]
      ensures allMolecules[..i] == old(allMolecules)
      ensures fresh(allMolecules[i]) && Contents(allMolecules[i]) == Contents(other.allMolecules[i])
    {
      newIndex := index;
      var rmol := other.allMolecules[i];
      var side := other.types[i];
      if IsSide(side) {
        newIndex := AddCopy(rmol, side);
      }
    }

    /** The molecule loop of `Clone`, run on a cleared reaction: a fresh
        copy of each molecule of `other` is added on its side, and the
        mapping records where each one went. */
    method CopyMolecules(other: BaseReaction, wantMapping: bool) returns (molMapping: seq<int>)
      requires Valid() && allMolecules == []
      requires other != this && other.Valid()
      modifies this`allMolecules, this`types
      modifies this`reactantCount, this`productCount, this`catalystCount
      modifies this`intermediateCount, this`undefinedCount
      ensures Valid()
      ensures types == other.types && |allMolecules| == |other.allMolecules|
      ensures forall k :: 0 <= k < |allMolecules| ==>
        fresh(allMolecules[k]) && Contents(allMolecules[k]) == Contents(other.allMolecules[k])
      ensures wantMapping ==> |molMapping| == |other.allMolecules| && forall k :: 0 <= k < |molMapping| ==> molMapping[k] == k
      ensures !wantMapping ==> molMapping == []
      ensures other.allMolecules == old(other.allMolecules) && other.types == old(other.types)
    {
      molMapping := [];
      if wantMapping {
        molMapping := seq(|other.allMolecules|, _ => -1);
      }
      var index := 0;
      var i := 0;
      while i < |other.allMolecules|
        invariant 0 <= i <= |other.allMolecules|
        invariant Valid() && |allMolecules| == i && types == other.types[..i]
        invariant forall k :: 0 <= k < i ==>
          fresh(allMolecules[k]) && Contents(allMolecules[k]) == Contents(other.allMolecules[k])
        invariant wantMapping ==> |molMapping| == |other.allMolecules| && forall k :: 0 <= k < i ==> molMapping[k] == k
        invariant !wantMapping ==> molMapping == []
      {
        index := CopyAt(other, i, index);
        if wantMapping {
          molMapping := molMapping[i := index];
        }
        i := i + 1;
      }
    }

    /** `Clone`: this reaction is cleared and refilled with fresh copies of
        the molecules of `other`, on the same sides and in the same order;
        `molMapping` (when asked for) sends each old index to its new one.
        Name, metadata, properties and the retrosynthetic flag are copied;
        reaction blocks and special conditions are not. Cloning a reaction
        from itself leaves it empty, as in Go. */
    method Clone(other: BaseReaction, wantMapping: bool) returns (molMapping: seq<int>)
      requires Valid() && other.Valid()
      modifies this, properties, meta
      ensures Valid()
      ensures types == other.types && |allMolecules| == |other.allMolecules|
      ensures forall k :: 0 <= k < |allMolecules| ==>
        fresh(allMolecules[k]) && Contents(allMolecules[k]) == Contents(other.allMolecules[k])
      ensures wantMapping ==> |molMapping| == |other.allMolecules| && forall k :: 0 <= k < |molMapping| ==> molMapping[k] == k
      ensures !wantMapping ==> molMapping == []
      ensures name == other.name && isRetrosynthetic == other.isRetrosynthetic
      ensures meta.data == other.meta.data && properties.properties == other.properties.properties
      ensures reactionBlocks == [] && specialConditions == []
      ensures other != this ==> other.allMolecules == old(other.allMolecules) && other.types == old(other.types)
      ensures other == this ==> allMolecules == []
    {
      Clear();
      if other != this {
        molMapping := CopyMolecules(other, wantMapping);
      } else {
        // Cleared first, the reaction has no molecules left to copy.
        molMapping := [];
      }
      name := other.name;
      meta.CloneFrom(other.meta);
      properties.Copy(other.properties);
      isRetrosynthetic := other.isRetrosynthetic;
    }
  }

  /** `HaveCoord`: every molecule of the reaction has coordinates. */
  method HaveCoord(reaction: BaseReaction) returns (r: bool)
    requires reaction.Valid()
    ensures r <==> forall k :: 0 <= k < |reaction.allMolecules| ==> reaction.allMolecules[k].haveXYZ
  {
    var i := reaction.Begin();
    while i < reaction.End()
      invariant 0 <= i <= |reaction.allMolecules|
      invariant forall k :: 0 <= k < i ==> reaction.allMolecules[k].haveXYZ
      decreases |reaction.allMolecules| - i
    {
      var mol := reaction.GetBaseMolecule(i);
      if !mol.value.haveXYZ {
        return false;
      }
      i := reaction.Next(i);
    }
    return true;
  }
}
