/** Tetrahedral stereocentres of a molecule
    (src/molecule/molecule_stereocenters.go): a map from atom index to the
    centre on that atom, with its type, group and substituent pyramid. */
module Stereocenters {
  import opened Wrappers
  import Elements
  import MoleculeGraph
  import Text

  const StereoAny: int := 1
  const StereoAnd: int := 2
  const StereoOr: int := 3
  const StereoAbs: int := 4

  /** Four substituent slots; -1 stands for an implicit hydrogen. */
  type Pyramid = p: seq<int> | |p| == 4 witness [-1, -1, -1, -1]

  const EmptyPyramid: Pyramid := [-1, -1, -1, -1]

  datatype Stereocenter = Stereocenter(
    atomIdx: int,
    kind: int,
    group: int,
    pyramid: Pyramid,
    isAtropisomeric: bool,
    isTetrahedral: bool)

  /** The pyramid with its first two slots exchanged, which inverts the
      handedness of the centre. */
  function SwapFirstTwo(p: Pyramid): (q: Pyramid)
    ensures q[0] == p[1] && q[1] == p[0] && q[2] == p[2] && q[3] == p[3]
  {
    [p[1], p[0], p[2], p[3]]
  }

  /** Inverting twice restores the pyramid. */
  lemma SwapFirstTwoInvolutive(p: Pyramid)
    ensures SwapFirstTwo(SwapFirstTwo(p)) == p
  {
  }

  /** The first (up to) four neighbours, padded with -1. */
  function PadPyramid(neighbors: seq<int>): (p: Pyramid)
  {
    seq(4, i requires 0 <= i < 4 => if i < |neighbors| then neighbors[i] else -1)
  }

  /** The padding keeps every neighbour that fits and fills the rest with
      implicit hydrogens. */
  lemma PadPyramidSlots(neighbors: seq<int>, i: int)
    requires 0 <= i < 4
    ensures i < |neighbors| ==> PadPyramid(neighbors)[i] == neighbors[i]
    ensures i >= |neighbors| ==> PadPyramid(neighbors)[i] == -1
  {
  }

  /** A map entry inserted with a new key grows the map by one; an existing
      key is overwritten in place. */
  lemma {:induction false} UpdateCardinality(m: map<int, Stereocenter>, k: int, v: Stereocenter)
    ensures |m[k := v]| == |m| + (if k in m then 0 else 1)
  {
    if k in m {
      assert m[k := v].Keys == m.Keys;
    } else {
      assert m[k := v].Keys == m.Keys + {k};
    }
  }

  /** Removing a key shrinks the map by one exactly when the key was there. */
  lemma {:induction false} RemoveCardinality(m: map<int, Stereocenter>, k: int)
    ensures |m - {k}| == |m| - (if k in m then 1 else 0)
  {
    if k in m {
      assert (m - {k}).Keys == m.Keys - {k};
    } else {
      assert (m - {k}).Keys == m.Keys;
    }
  }

  // ---------------------------------------------------------------------
  // Substituent test

  /** The scan of `hasDifferentSubstituents` as written: it stops with false
      when it meets a repeated atomic number while the set of numbers seen
      so far is exactly one short of the neighbour count, and otherwise
      asks at the end whether at least three numbers were seen. */
  function SeenScan(nums: seq<int>, seen: set<int>, total: int): bool
    decreases |nums|
  {
    if nums == [] then |seen| >= 3
    else if nums[0] in seen && total == |seen| + 1 then false
    else SeenScan(nums[1..], seen + {nums[0]}, total)
  }

  predicate DifferentAsWritten(nums: seq<int>)
  {
    |nums| >= 3 && SeenScan(nums, {}, |nums|)
  }

  /** All neighbour atomic numbers differ, and there are at least three. */
  predicate DistinctSubstituents(nums: seq<int>)
  {
    |nums| >= 3 && forall i, j :: 0 <= i < j < |nums| ==> nums[i] != nums[j]
  }

  /** The as-written scan depends on the order of the neighbours: a
      repeated number early in the list is let through. */
  lemma DifferentAsWrittenOrderDependent()
    ensures DifferentAsWritten([6, 6, 7, 8])
    ensures !DifferentAsWritten([6, 7, 8, 6])
    ensures !DistinctSubstituents([6, 6, 7, 8])
  {
    assert {6} + {7} == {6, 7};
    assert |{6, 7}| == 2;
    assert {6, 7} + {8} == {6, 7, 8};
    assert |{6, 7, 8}| == 3;
    assert [6, 6, 7, 8][1..] == [6, 7, 8];
    assert [6, 7, 8][1..] == [7, 8];
    assert [7, 8][1..] == [8];
    assert [6, 7, 8, 6][1..] == [7, 8, 6];
    assert [7, 8, 6][1..] == [8, 6];
    assert [8, 6][1..] == [6];
    assert {6} + {6} == {6};
    assert SeenScan([8], {6, 7}, 4);
    assert SeenScan([7, 8], {6}, 4);
    assert SeenScan([6, 7, 8], {6}, 4);
    assert !SeenScan([6], {6, 7, 8}, 4);
  }

  /** Numbers in a prefix without repeats are all collected by the scan. */
  lemma {:induction false} SeenScanDistinct(nums: seq<int>, seen: set<int>, total: int)
    requires forall i, j :: 0 <= i < j < |nums| ==> nums[i] != nums[j]
    requires forall i :: 0 <= i < |nums| ==> nums[i] !in seen
    ensures SeenScan(nums, seen, total) <==> |seen| + |nums| >= 3
    decreases |nums|
  {
    if nums != [] {
      assert |seen + {nums[0]}| == |seen| + 1;
      SeenScanDistinct(nums[1..], seen + {nums[0]}, total);
    }
  }

  /** The corrected test is never more permissive than the written one, and
      on three neighbours, the case of an implicit hydrogen or lone pair,
      the two agree. */
  lemma DistinctImpliesAsWritten(nums: seq<int>)
    ensures DistinctSubstituents(nums) ==> DifferentAsWritten(nums)
  {
    if DistinctSubstituents(nums) {
      SeenScanDistinct(nums, {}, |nums|);
    }
  }

  lemma AsWrittenOnThree(nums: seq<int>)
    requires |nums| == 3
    ensures DifferentAsWritten(nums) <==> DistinctSubstituents(nums)
  {
    var a, b, c := nums[0], nums[1], nums[2];
    assert nums[1..] == [b, c] && nums[1..][1..] == [c] && nums[1..][1..][1..] == [];
    if a == b {
      assert |{a}| == 1;
      assert SeenScan(nums, {}, 3) == SeenScan([b, c], {a}, 3);
      assert SeenScan([b, c], {a}, 3) == SeenScan([c], {a}, 3);
      assert !SeenScan([c], {a}, 3) by {
        if c == a {
        } else {
          assert {a} + {c} == {a, c};
          assert |{a, c}| == 2;
        }
      }
    } else if a == c || b == c {
      assert {a} + {b} == {a, b};
      assert |{a, b}| == 2;
      assert SeenScan(nums, {}, 3) == SeenScan([b, c], {a}, 3);
      assert SeenScan([b, c], {a}, 3) == SeenScan([c], {a, b}, 3);
      assert !SeenScan([c], {a, b}, 3);
    } else {
      DistinctImpliesAsWritten(nums);
    }
  }

  /** `hasDifferentSubstituents` with the evidently intended meaning: the
      scan over the neighbours' atomic numbers stops at the first repeat. */
  method HasDifferentSubstituents(nums: seq<int>) returns (r: bool)
    ensures r <==> DistinctSubstituents(nums)
  {
    if |nums| < 3 {
      return false;
    }
    var seen: set<int> := {};
    var k := 0;
    while k < |nums|
      invariant 0 <= k <= |nums|
      invariant seen == set i | 0 <= i < k :: nums[i]
      invariant forall i, j :: 0 <= i < j < k ==> nums[i] != nums[j]
    {
      if nums[k] in seen {
        return false;
      }
      seen := seen + {nums[k]};
      k := k + 1;
    }
    return true;
  }

  /** The atomic numbers of the listed atoms (-1 for a bad index). */
  function NumbersOf(atoms: seq<MoleculeGraph.Atom>, idxs: seq<int>): (nums: seq<int>)
    ensures |nums| == |idxs|
  {
    seq(|idxs|, k requires 0 <= k < |idxs| => if 0 <= idxs[k] < |atoms| then atoms[idxs[k]].number else -1)
  }

  /** What `IsPossibleStereocenter` answers: possible, possible with an
      implicit hydrogen, possible with a lone pair. */
  datatype Possibility = Possibility(possible: bool, implicitH: bool, lonePair: bool)

  /** The decision of `IsPossibleStereocenter` for an atom with atomic
      number `number` whose neighbours have atomic numbers `nums`. */
  function PossibleFor(number: int, nums: seq<int>): (p: Possibility)
    ensures |nums| < 3 ==> !p.possible
    ensures p.possible ==> DistinctSubstituents(nums) && |nums| <= 4
    ensures p.possible ==> number == Elements.ElemC || number == Elements.ElemN ||
                           number == Elements.ElemS || number == Elements.ElemP
    ensures p.lonePair ==> number == Elements.ElemN && p.possible
  {
    var n := |nums|;
    if n < 3 then Possibility(false, false, false)
    else if number == Elements.ElemC then
      Possibility(n <= 4 && DistinctSubstituents(nums), n == 3, false)
    else if number == Elements.ElemN then
      if n == 3 && DistinctSubstituents(nums) then Possibility(true, false, true)
      else Possibility(false, false, false)
    else if number == Elements.ElemS || number == Elements.ElemP then
      Possibility(n <= 4 && DistinctSubstituents(nums), false, false)
    else Possibility(false, false, false)
  }

  /** `IsPossibleStereocenter` over the molecule's sequences. */
  function PossibleAt(atoms: seq<MoleculeGraph.Atom>, bonds: seq<MoleculeGraph.Bond>,
                      vertices: seq<seq<int>>, atomIdx: int): (p: Possibility)
    ensures !(0 <= atomIdx < |atoms| && atomIdx < |vertices|) ==> p == Possibility(false, false, false)
    ensures 0 <= atomIdx < |atoms| && atomIdx < |vertices| && |vertices[atomIdx]| < 3 ==>
              p == Possibility(false, false, false)
  {
    if atomIdx < 0 || atomIdx >= |atoms| || atomIdx >= |vertices| then Possibility(false, false, false)
    else
      var ns := MoleculeGraph.NeighborList(bonds, vertices[atomIdx], atomIdx);
      PossibleFor(atoms[atomIdx].number, NumbersOf(atoms, ns))
  }

  /** Some bond on the edge list carries the given wedge direction. */
  predicate HasDirection(bonds: seq<MoleculeGraph.Bond>, edges: seq<int>, dir: int)
  {
    exists k :: 0 <= k < |edges| && 0 <= edges[k] < |bonds| && bonds[edges[k]].direction == dir
  }

  /** An atom `BuildFromBonds` turns into an absolute centre. */
  predicate WedgedCenter(atoms: seq<MoleculeGraph.Atom>, bonds: seq<MoleculeGraph.Bond>,
                         vertices: seq<seq<int>>, i: int)
  {
    0 <= i < |atoms| && i < |vertices| && PossibleAt(atoms, bonds, vertices, i).possible &&
    HasDirection(bonds, vertices[i], MoleculeGraph.BondUp) &&
    HasDirection(bonds, vertices[i], MoleculeGraph.BondDown)
  }

  /** The centre `BuildFromBonds` records on atom `i`. */
  function WedgedEntry(bonds: seq<MoleculeGraph.Bond>, vertices: seq<seq<int>>, i: int): Stereocenter
    requires 0 <= i < |vertices|
  {
    Stereocenter(i, StereoAbs, 1, PadPyramid(MoleculeGraph.NeighborList(bonds, vertices[i], i)), false, true)
  }

  /** The bonds reported by `BuildFromBonds` stay exactly the bonds of the
      centres found so far when one more atom is considered. */
  lemma SensibleStep(before: set<int>, after: set<int>, vertices: seq<seq<int>>,
                     sensible: seq<int>, added: seq<int>, i: int)
    requires 0 <= i < |vertices|
    requires forall b :: b in sensible <==> exists j :: j in before && 0 <= j < |vertices| && b in vertices[j]
    requires (after == before + {i} && added == vertices[i]) || (after == before && added == [])
    ensures forall b :: b in sensible + added <==> exists j :: j in after && 0 <= j < |vertices| && b in vertices[j]
  {
    forall b
      ensures b in sensible + added <==> exists j :: j in after && 0 <= j < |vertices| && b in vertices[j]
    {
      if b in added {
        assert i in after && b in vertices[i];
      }
      if exists j :: j in after && 0 <= j < |vertices| && b in vertices[j] {
        var j :| j in after && 0 <= j < |vertices| && b in vertices[j];
        if j != i {
          assert j in before;
        }
      }
    }
  }

  // ---------------------------------------------------------------------
  // The container

  class MoleculeStereocenters {
    var centers: map<int, Stereocenter>

    /** Every centre is filed under its own atom. */
    predicate Valid()
      reads this
    {
      forall k :: k in centers ==> centers[k].atomIdx == k
    }

    /** `NewMoleculeStereocenters`. */
    constructor ()
      ensures Valid() && centers == map[]
    {
      centers := map[];
    }

    method Clear()
      modifies this
      ensures Valid() && centers == map[]
    {
      centers := map[];
    }

    /** The number of stereocentres, one per distinct atom. */
    function Size(): (n: int)
      reads this
      ensures n == |centers.Keys|
    {
      |centers|
    }

    predicate Exists(atomIdx: int)
      reads this
    {
      atomIdx in centers
    }

    /** `Add`: a tetrahedral, non-atropisomeric centre replaces whatever
        was on the atom; every other atom keeps its centre. */
    method Add(atomIdx: int, stereoType: int, group: int, pyramid: Pyramid)
      requires Valid()
      modifies this
      ensures Valid()
      ensures centers == old(centers)[atomIdx := Stereocenter(atomIdx, stereoType, group, pyramid, false, true)]
      ensures Exists(atomIdx)
      ensures Size() == old(Size()) + (if old(Exists(atomIdx)) then 0 else 1)
    {
      UpdateCardinality(centers, atomIdx, Stereocenter(atomIdx, stereoType, group, pyramid, false, true));
      centers := centers[atomIdx := Stereocenter(atomIdx, stereoType, group, pyramid, false, true)];
    }

    /** `AddWithInversion`: the pyramid is the first four neighbours padded
        with -1, with slots 0 and 1 exchanged when asked to invert. */
    method AddWithInversion(atomIdx: int, stereoType: int, group: int, invertPyramid: bool, neighbors: seq<int>)
      requires Valid()
      modifies this
      ensures Valid()
      ensures centers == old(centers)[atomIdx := Stereocenter(atomIdx, stereoType, group,
                if invertPyramid then SwapFirstTwo(PadPyramid(neighbors)) else PadPyramid(neighbors), false, true)]
    {
      var pyramid: Pyramid := EmptyPyramid;
      var i := 0;
      while i < |neighbors| && i < 4
        invariant 0 <= i <= 4 && i <= |neighbors|
        invariant forall j :: 0 <= j < 4 ==> pyramid[j] == (if j < i then neighbors[j] else -1)
      {
        pyramid := pyramid[i := neighbors[i]];
        i := i + 1;
      }
      if |neighbors| < 4 {
        pyramid := pyramid[|neighbors| := -1];
      }
      assert pyramid == PadPyramid(neighbors);
      if invertPyramid {
        pyramid := [pyramid[1], pyramid[0], pyramid[2], pyramid[3]];
      }
      Add(atomIdx, stereoType, group, pyramid);
    }

    /** `Remove`: the atom is no longer a centre; the others stay. */
    method Remove(atomIdx: int)
      requires Valid()
      modifies this
      ensures Valid()
      ensures centers == old(centers) - {atomIdx}
      ensures !Exists(atomIdx)
      ensures Size() == old(Size()) - (if old(Exists(atomIdx)) then 1 else 0)
    {
      RemoveCardinality(centers, atomIdx);
      centers := centers - {atomIdx};
    }

    /** `Get`: the centre on the atom, or an error for an atom that is not
        a stereocentre. */
    function Get(atomIdx: int): (r: Result<Stereocenter>)
      reads this
      ensures r.Ok? <==> Exists(atomIdx)
      ensures r.Ok? ==> r.value == centers[atomIdx]
    {
      if atomIdx in centers then Ok(centers[atomIdx])
      else Err("atom " + Text.IntToString(atomIdx) + " is not a stereocenter")
    }

    /** `GetType`: -1 for an atom that is not a centre. */
    function GetType(atomIdx: int): (t: int)
      reads this
      ensures Get(atomIdx).Ok? ==> t == Get(atomIdx).value.kind
      ensures Get(atomIdx).Err? ==> t == -1
    {
      if atomIdx in centers then centers[atomIdx].kind else -1
    }

    /** `GetGroup`: -1 for an atom that is not a centre. */
    function GetGroup(atomIdx: int): (g: int)
      reads this
      ensures Get(atomIdx).Ok? ==> g == Get(atomIdx).value.group
      ensures Get(atomIdx).Err? ==> g == -1
    {
      if atomIdx in centers then centers[atomIdx].group else -1
    }

    /** `GetPyramid`: all -1 for an atom that is not a centre. */
    function GetPyramid(atomIdx: int): (p: Pyramid)
      reads this
      ensures Get(atomIdx).Ok? ==> p == Get(atomIdx).value.pyramid
      ensures Get(atomIdx).Err? ==> p == EmptyPyramid
    {
      if atomIdx in centers then centers[atomIdx].pyramid else EmptyPyramid
    }

    /** `SetType`: changes only the type of an existing centre. */
    method SetType(atomIdx: int, stereoType: int)
      requires Valid()
      modifies this
      ensures Valid()
      ensures centers == if old(Exists(atomIdx)) then old(centers)[atomIdx := old(centers)[atomIdx].(kind := stereoType)]
                         else old(centers)
    {
      if atomIdx in centers {
        centers := centers[atomIdx := centers[atomIdx].(kind := stereoType)];
      }
    }

    /** `SetGroup`: changes only the group of an existing centre. */
    method SetGroup(atomIdx: int, group: int)
      requires Valid()
      modifies this
      ensures Valid()
      ensures centers == if old(Exists(atomIdx)) then old(centers)[atomIdx := old(centers)[atomIdx].(group := group)]
                         else old(centers)
    {
      if atomIdx in centers {
        centers := centers[atomIdx := centers[atomIdx].(group := group)];
      }
    }

    /** `InvertPyramid`: swaps slots 0 and 1 of an existing centre. */
    method InvertPyramid(atomIdx: int)
      requires Valid()
      modifies this
      ensures Valid()
      ensures centers == if old(Exists(atomIdx))
                         then old(centers)[atomIdx := old(centers)[atomIdx].(pyramid := SwapFirstTwo(old(centers)[atomIdx].pyramid))]
                         else old(centers)
    {
      if atomIdx in centers {
        var c := centers[atomIdx];
        centers := centers[atomIdx := c.(pyramid := [c.pyramid[1], c.pyramid[0], c.pyramid[2], c.pyramid[3]])];
      }
    }

    /** `IsPossibleStereocenter`: nothing for a bad index or fewer than
        three neighbours; otherwise the element and substituent test. */
    method IsPossibleStereocenter(mol: MoleculeGraph.Molecule, atomIdx: int) returns (p: Possibility)
      requires mol.Valid()
      ensures p == PossibleAt(mol.atoms, mol.bonds, mol.vertices, atomIdx)
    {
      if atomIdx < 0 || atomIdx >= |mol.atoms| {
        return Possibility(false, false, false);
      }
      var number := mol.atoms[atomIdx].number;
      var neighbors := mol.GetNeighbors(atomIdx);
      if |neighbors| < 3 {
        return Possibility(false, false, false);
      }
      var nums := NeighborNumbers(mol, neighbors);
      var possibleImplicitH := false;
      if number == Elements.ElemC {
        if |neighbors| == 3 {
          possibleImplicitH := true;
        }
        if 3 <= |neighbors| <= 4 {
          var different := HasDifferentSubstituents(nums);
          if different {
            return Possibility(true, possibleImplicitH, false);
          }
        }
      } else if number == Elements.ElemN {
        if |neighbors| == 3 {
          var different := HasDifferentSubstituents(nums);
          if different {
            return Possibility(true, false, true);
          }
        }
      } else if number == Elements.ElemS || number == Elements.ElemP {
        if 3 <= |neighbors| <= 4 {
          var different := HasDifferentSubstituents(nums);
          if different {
            return Possibility(true, false, false);
          }
        }
      }
      return Possibility(false, possibleImplicitH, false);
    }

    /** `BuildFromBonds`: after clearing, exactly the possible centres that
        carry both an up and a down wedge become absolute centres of group
        1; the bonds of those centres are reported as sensible. */
    method BuildFromBonds(mol: MoleculeGraph.Molecule) returns (sensible: seq<int>)
      requires mol.Valid()
      modifies this
      ensures Valid()
      ensures forall i :: i in centers <==> WedgedCenter(mol.atoms, mol.bonds, mol.vertices, i)
      ensures forall i :: i in centers ==> 0 <= i < |mol.vertices| && centers[i] == WedgedEntry(mol.bonds, mol.vertices, i)
      ensures forall b :: b in sensible <==> exists i :: i in centers && 0 <= i < |mol.vertices| && b in mol.vertices[i]
    {
      Clear();
      sensible := [];
      var i := 0;
      while i < |mol.atoms|
        invariant 0 <= i <= |mol.atoms|
        invariant Valid()
        invariant forall j :: j in centers <==> j < i && WedgedCenter(mol.atoms, mol.bonds, mol.vertices, j)
        invariant forall j :: j in centers ==> 0 <= j < |mol.vertices| && centers[j] == WedgedEntry(mol.bonds, mol.vertices, j)
        invariant forall b :: b in sensible <==> exists j :: j in centers && 0 <= j < |mol.vertices| && b in mol.vertices[j]
      {
        ghost var before, sensibleBefore := centers, sensible;
        var added := ConsiderAtom(mol, i);
        sensible := sensible + added;
        forall j
          ensures j in centers <==> j < i + 1 && WedgedCenter(mol.atoms, mol.bonds, mol.vertices, j)
        {
          if j != i {
            assert j in centers <==> j in before;
          }
        }
        SensibleStep(before.Keys, centers.Keys, mol.vertices, sensibleBefore, added, i);
        i := i + 1;
      }
    }

    /** One step of `BuildFromBonds`: atom `i` becomes an absolute centre
        when it is a possible centre with both an up and a down wedge; its
        bonds are then returned. */
    method ConsiderAtom(mol: MoleculeGraph.Molecule, i: int) returns (added: seq<int>)
      requires mol.Valid() && Valid() && 0 <= i < |mol.atoms|
      modifies this
      ensures Valid()
      ensures centers == if WedgedCenter(mol.atoms, mol.bonds, mol.vertices, i)
                         then old(centers)[i := WedgedEntry(mol.bonds, mol.vertices, i)]
                         else old(centers)
      ensures added == if WedgedCenter(mol.atoms, mol.bonds, mol.vertices, i) then mol.vertices[i] else []
    {
      added := [];
      var possible := IsPossibleStereocenter(mol, i);
      if possible.possible {
        var neighbors := mol.GetNeighbors(i);
        var bonds := mol.GetNeighborBonds(i);
        var hasUp, hasDown := ScanWedges(mol, bonds);
        if hasUp && hasDown {
          Add(i, StereoAbs, 1, PadPyramid(neighbors));
          added := bonds;
        }
      }
    }

    /** `HaveAbs`: some centre is absolute. */
    method HaveAbs() returns (r: bool)
      ensures r <==> exists k :: k in centers && centers[k].kind == StereoAbs
    {
      var remaining := centers.Keys;
      while remaining != {}
        invariant remaining <= centers.Keys
        invariant forall k :: k in centers && k !in remaining ==> centers[k].kind != StereoAbs
        decreases |remaining|
      {
        SomeMember(remaining);
        var k :| k in remaining;
        if centers[k].kind == StereoAbs {
          return true;
        }
        remaining := remaining - {k};
      }
      return false;
    }

    /** `HaveAllAbs`: false when there are no centres, otherwise whether
        every centre is absolute. */
    method HaveAllAbs() returns (r: bool)
      ensures r <==> |centers| > 0 && forall k :: k in centers ==> centers[k].kind == StereoAbs
    {
      if |centers| == 0 {
        return false;
      }
      var remaining := centers.Keys;
      while remaining != {}
        invariant remaining <= centers.Keys
        invariant forall k :: k in centers && k !in remaining ==> centers[k].kind == StereoAbs
        decreases |remaining|
      {
        SomeMember(remaining);
        var k :| k in remaining;
        if centers[k].kind != StereoAbs {
          return false;
        }
        remaining := remaining - {k};
      }
      return true;
    }

    /** `GetAllCenters`: every centre's atom once, in map order. */
    method GetAllCenters() returns (result: seq<int>)
      ensures forall k :: k in result <==> k in centers
      ensures forall i, j :: 0 <= i < j < |result| ==> result[i] != result[j]
    {
      result := KeysWhere(centers.Keys, -1);
    }

    /** `GetAbsAtoms`: the atoms of the absolute centres, each once. */
    method GetAbsAtoms() returns (result: seq<int>)
      ensures forall k :: k in result <==> k in centers && centers[k].kind == StereoAbs
      ensures forall i, j :: 0 <= i < j < |result| ==> result[i] != result[j]
    {
      result := KeysWhere(centers.Keys, StereoAbs);
    }

    /** The keys of `keys` whose centre has type `kind` (any type for -1),
        in map order and without repeats. */
    method KeysWhere(keys: set<int>, kind: int) returns (result: seq<int>)
      requires keys <= centers.Keys
      ensures forall k :: k in result <==> k in keys && (kind == -1 || centers[k].kind == kind)
      ensures forall i, j :: 0 <= i < j < |result| ==> result[i] != result[j]
    {
      result := [];
      var remaining := keys;
      while remaining != {}
        invariant remaining <= keys
        invariant forall k :: k in result <==> k in keys && k !in remaining && (kind == -1 || centers[k].kind == kind)
        invariant forall i, j :: 0 <= i < j < |result| ==> result[i] != result[j]
        decreases |remaining|
      {
        SomeMember(remaining);
        var k :| k in remaining;
        if kind == -1 || centers[k].kind == kind {
          result := result + [k];
        }
        remaining := remaining - {k};
      }
    }

    /** `GetOrGroups`: the group numbers of the OR centres, each once. */
    method GetOrGroups() returns (result: seq<int>)
      ensures forall g :: g in result <==> exists k :: k in centers && centers[k].kind == StereoOr && centers[k].group == g
      ensures forall i, j :: 0 <= i < j < |result| ==> result[i] != result[j]
    {
      result := GroupsOf(StereoOr);
    }

    /** `GetAndGroups`: the group numbers of the AND centres, each once. */
    method GetAndGroups() returns (result: seq<int>)
      ensures forall g :: g in result <==> exists k :: k in centers && centers[k].kind == StereoAnd && centers[k].group == g
      ensures forall i, j :: 0 <= i < j < |result| ==> result[i] != result[j]
    {
      result := GroupsOf(StereoAnd);
    }

    /** The distinct group numbers of the centres of one type: collected
        into a set, then listed in set order. */
    method GroupsOf(kind: int) returns (result: seq<int>)
      ensures forall g :: g in result <==> exists k :: k in centers && centers[k].kind == kind && centers[k].group == g
      ensures forall i, j :: 0 <= i < j < |result| ==> result[i] != result[j]
    {
      var groups: set<int> := {};
      var remaining := centers.Keys;
      while remaining != {}
        invariant remaining <= centers.Keys
        invariant forall g :: g in groups <==> exists k :: k in centers && k !in remaining && centers[k].kind == kind && centers[k].group == g
        decreases |remaining|
      {
        SomeMember(remaining);
        var k :| k in remaining;
        if centers[k].kind == kind {
          groups := groups + {centers[k].group};
        }
        remaining := remaining - {k};
      }
      result := [];
      var left := groups;
      while left != {}
        invariant left <= groups
        invariant forall g :: g in result <==> g in groups && g !in left
        invariant forall i, j :: 0 <= i < j < |result| ==> result[i] != result[j]
        decreases |left|
      {
        SomeMember(left);
        var g :| g in left;
        result := result + [g];
        left := left - {g};
      }
    }
  }

  /** The atomic numbers of the neighbours, read one by one. */
  method NeighborNumbers(mol: MoleculeGraph.Molecule, neighbors: seq<int>) returns (nums: seq<int>)
    ensures nums == NumbersOf(mol.atoms, neighbors)
  {
    nums := [];
    var k := 0;
    while k < |neighbors|
      invariant 0 <= k <= |neighbors| && |nums| == k
      invariant forall j :: 0 <= j < k ==> nums[j] == NumbersOf(mol.atoms, neighbors)[j]
    {
      var n := neighbors[k];
      nums := nums + [if 0 <= n < |mol.atoms| then mol.atoms[n].number else -1];
      k := k + 1;
    }
  }

  /** The wedge scan of `BuildFromBonds` over an atom's bonds. */
  method ScanWedges(mol: MoleculeGraph.Molecule, edges: seq<int>) returns (hasUp: bool, hasDown: bool)
    ensures hasUp <==> HasDirection(mol.bonds, edges, MoleculeGraph.BondUp)
    ensures hasDown <==> HasDirection(mol.bonds, edges, MoleculeGraph.BondDown)
  {
    hasUp, hasDown := false, false;
    var k := 0;
    while k < |edges|
      invariant 0 <= k <= |edges|
      invariant hasUp <==> HasDirection(mol.bonds, edges[..k], MoleculeGraph.BondUp)
      invariant hasDown <==> HasDirection(mol.bonds, edges[..k], MoleculeGraph.BondDown)
    {
      var dir := mol.GetBondDirection(edges[k]);
      if dir == MoleculeGraph.BondUp {
        hasUp := true;
      } else if dir == MoleculeGraph.BondDown {
        hasDown := true;
      }
      assert edges[..k + 1] == edges[..k] + [edges[k]];
      k := k + 1;
    }
    assert edges[..k] == edges;
  }
}
