/** Cis/trans (E/Z) double bonds of a molecule
    (src/molecule/molecule_cis_trans.go): a map from bond index to the
    parity, the four substituents and an "ignored" mark. */
module CisTransBonds {
  import opened Wrappers
  import MoleculeGraph

  const Cis: int := 1
  const Trans: int := 2

  /** Four substituent slots, -1 where there is none: slots 0 and 1 belong to
      the begin atom, slots 2 and 3 to the end atom. */
  type Quad = q: seq<int> | |q| == 4 witness [-1, -1, -1, -1]

  const NoSubstituents: Quad := [-1, -1, -1, -1]

  datatype CisTrans = CisTrans(bondIdx: int, parity: int, substituents: Quad, ignored: bool)

  /** The entry `RegisterBond` and `Ignore` create. */
  function Blank(bondIdx: int, ignored: bool): CisTrans
  {
    CisTrans(bondIdx, 0, NoSubstituents, ignored)
  }

  // ---------------------------------------------------------------------
  // Substituents over plain sequences

  /** The neighbours in `ns` other than `x`, in order. */
  function Others(ns: seq<int>, x: int): (r: seq<int>)
    ensures |r| <= |ns|
    ensures forall n :: n in r <==> n in ns && n != x
  {
    if ns == [] then []
    else Others(ns[..|ns| - 1], x) + (if ns[|ns| - 1] != x then [ns[|ns| - 1]] else [])
  }

  /** The first two entries of `s`, padded with -1. */
  function FirstTwo(s: seq<int>): (r: seq<int>)
    ensures |r| == 2
  {
    [if |s| > 0 then s[0] else -1, if |s| > 1 then s[1] else -1]
  }

  /** The neighbours of atom `a`, or none for an atom that does not exist. */
  function NeighborsOf(bonds: seq<MoleculeGraph.Bond>, vertices: seq<seq<int>>, a: int): seq<int>
  {
    if 0 <= a < |vertices| then MoleculeGraph.NeighborList(bonds, vertices[a], a) else []
  }

  /** What `GetSubstituentsAll` returns: up to two neighbours of the begin
      atom other than the end atom, then up to two neighbours of the end
      atom other than the begin atom. */
  function SubstituentsAll(bonds: seq<MoleculeGraph.Bond>, vertices: seq<seq<int>>, bondIdx: int): Quad
  {
    if bondIdx < 0 || bondIdx >= |bonds| then NoSubstituents
    else
      var b := bonds[bondIdx];
      FirstTwo(Others(NeighborsOf(bonds, vertices, b.beg), b.end)) +
      FirstTwo(Others(NeighborsOf(bonds, vertices, b.end), b.beg))
  }

  /** A listed neighbour is bonded to its atom. */
  lemma NeighborConnected(atoms: seq<MoleculeGraph.Atom>, bonds: seq<MoleculeGraph.Bond>,
                          vertices: seq<seq<int>>, a: int, x: int)
    requires MoleculeGraph.WellFormed(atoms, bonds, vertices)
    requires x in NeighborsOf(bonds, vertices, a)
    ensures MoleculeGraph.Connected(bonds, a, x)
  {
    var ns := MoleculeGraph.NeighborList(bonds, vertices[a], a);
    var j :| 0 <= j < |ns| && ns[j] == x;
    var i := vertices[a][j];
    MoleculeGraph.EdgeListExact(atoms, bonds, vertices, a, i);
    assert MoleculeGraph.Joins(bonds[i], a, x);
  }

  /** A filled slot of `FirstTwo` comes from its input. */
  lemma FirstTwoMember(s: seq<int>, k: int)
    requires 0 <= k < 2 && FirstTwo(s)[k] != -1
    ensures FirstTwo(s)[k] in s
  {
  }

  /** Each filled slot of `SubstituentsAll` holds an atom bonded to its own
      end of the double bond and different from the other end. */
  lemma SubstituentsAllSides(atoms: seq<MoleculeGraph.Atom>, bonds: seq<MoleculeGraph.Bond>,
                             vertices: seq<seq<int>>, bondIdx: int, k: int)
    requires MoleculeGraph.WellFormed(atoms, bonds, vertices)
    requires 0 <= bondIdx < |bonds| && 0 <= k < 4
    requires SubstituentsAll(bonds, vertices, bondIdx)[k] != -1
    ensures k < 2 ==> SubstituentsAll(bonds, vertices, bondIdx)[k] != bonds[bondIdx].end &&
                      MoleculeGraph.Connected(bonds, bonds[bondIdx].beg, SubstituentsAll(bonds, vertices, bondIdx)[k])
    ensures k >= 2 ==> SubstituentsAll(bonds, vertices, bondIdx)[k] != bonds[bondIdx].beg &&
                       MoleculeGraph.Connected(bonds, bonds[bondIdx].end, SubstituentsAll(bonds, vertices, bondIdx)[k])
  {
    var b := bonds[bondIdx];
    var o1 := Others(NeighborsOf(bonds, vertices, b.beg), b.end);
    var o2 := Others(NeighborsOf(bonds, vertices, b.end), b.beg);
    if k < 2 {
      assert SubstituentsAll(bonds, vertices, bondIdx)[k] == FirstTwo(o1)[k];
      FirstTwoMember(o1, k);
      NeighborConnected(atoms, bonds, vertices, b.beg, FirstTwo(o1)[k]);
    } else {
      assert SubstituentsAll(bonds, vertices, bondIdx)[k] == FirstTwo(o2)[k - 2];
      FirstTwoMember(o2, k - 2);
      NeighborConnected(atoms, bonds, vertices, b.end, FirstTwo(o2)[k - 2]);
    }
  }

  /** Both substituents on one side have the same element. */
  predicate SameElements(atoms: seq<MoleculeGraph.Atom>, s: seq<int>)
  {
    |s| == 2 && 0 <= s[0] < |atoms| && 0 <= s[1] < |atoms| && atoms[s[0]].number == atoms[s[1]].number
  }

  /** What `IsGeomStereoBond` decides: a double bond whose ends have two or
      three neighbours, one or two of them other than the partner, and no
      side carries two substituents of the same element. */
  predicate GeomStereo(atoms: seq<MoleculeGraph.Atom>, bonds: seq<MoleculeGraph.Bond>,
                       vertices: seq<seq<int>>, bondIdx: int)
  {
    0 <= bondIdx < |bonds| && bonds[bondIdx].order == MoleculeGraph.BondDouble &&
    var b := bonds[bondIdx];
    var n1, n2 := NeighborsOf(bonds, vertices, b.beg), NeighborsOf(bonds, vertices, b.end);
    2 <= |n1| <= 3 && 2 <= |n2| <= 3 &&
    var s1, s2 := Others(n1, b.end), Others(n2, b.beg);
    1 <= |s1| <= 2 && 1 <= |s2| <= 2 &&
    !SameElements(atoms, s1) && !SameElements(atoms, s2)
  }

  /** The first non-zero wedge direction among the bonds of `edges` other
      than `skip`, or -1 when there is none. */
  function FirstDirection(bonds: seq<MoleculeGraph.Bond>, edges: seq<int>, skip: int): (d: int)
    ensures d == -1 || d != 0
  {
    if edges == [] then -1
    else
      var e := edges[0];
      if e != skip && 0 <= e < |bonds| && bonds[e].direction != 0 then bonds[e].direction
      else FirstDirection(bonds, edges[1..], skip)
  }

  /** The parity `determineParity` reads from the wedges on both ends: cis
      when they agree, trans when they differ, 0 without both.  With
      coordinates the decision is the floating-point one, passed in as
      `parity3D`, and 0 unless all four substituents exist. */
  function Parity(bonds: seq<MoleculeGraph.Bond>, vertices: seq<seq<int>>, haveXYZ: bool,
                  parity3D: int -> int, bondIdx: int, subst: Quad): (p: int)
    requires 0 <= bondIdx < |bonds|
    ensures !haveXYZ ==> p == 0 || p == Cis || p == Trans
  {
    if haveXYZ then
      if subst[0] < 0 || subst[1] < 0 || subst[2] < 0 || subst[3] < 0 then 0 else parity3D(bondIdx)
    else
      var b := bonds[bondIdx];
      var d1 := FirstDirection(bonds, if 0 <= b.beg < |vertices| then vertices[b.beg] else [], bondIdx);
      var d2 := FirstDirection(bonds, if 0 <= b.end < |vertices| then vertices[b.end] else [], bondIdx);
      if d1 > 0 && d2 > 0 then (if d1 == d2 then Cis else Trans) else 0
  }

  /** Wedges pointing the same way on both ends give cis, opposite ways
      trans. */
  lemma ParityFromWedges(bonds: seq<MoleculeGraph.Bond>, vertices: seq<seq<int>>, parity3D: int -> int,
                         bondIdx: int, subst: Quad)
    requires 0 <= bondIdx < |bonds|
    requires 0 <= bonds[bondIdx].beg < |vertices| && 0 <= bonds[bondIdx].end < |vertices|
    ensures var d1 := FirstDirection(bonds, vertices[bonds[bondIdx].beg], bondIdx);
            var d2 := FirstDirection(bonds, vertices[bonds[bondIdx].end], bondIdx);
            var p := Parity(bonds, vertices, false, parity3D, bondIdx, subst);
            (p == Cis <==> d1 > 0 && d1 == d2) && (p == Trans <==> d1 > 0 && d2 > 0 && d1 != d2)
  {
  }

  /** The entry `RegisterBondAndSubstituents` files for bond `i`. */
  function EntryFor(bonds: seq<MoleculeGraph.Bond>, vertices: seq<seq<int>>, haveXYZ: bool,
                    parity3D: int -> int, i: int): CisTrans
    requires 0 <= i < |bonds|
  {
    var s := SubstituentsAll(bonds, vertices, i);
    CisTrans(i, Parity(bonds, vertices, haveXYZ, parity3D, i, s), s, false)
  }

  /** `Substituents` with every occurrence of `from` replaced by `to`. */
  function Retarget(q: Quad, from: int, to: int): (r: Quad)
    ensures forall i :: 0 <= i < 4 ==> r[i] == (if q[i] == from then to else q[i])
  {
    seq(4, i requires 0 <= i < 4 => if q[i] == from then to else q[i])
  }

  /** After retargeting, `from` remains only when it is also `to`. */
  lemma RetargetRemoves(q: Quad, from: int, to: int)
    ensures from != to ==> from !in Retarget(q, from, to)
    ensures forall x :: x in q && x != from ==> x in Retarget(q, from, to)
  {
    forall x | x in q && x != from
      ensures x in Retarget(q, from, to)
    {
      var i :| 0 <= i < 4 && q[i] == x;
      assert Retarget(q, from, to)[i] == x;
    }
  }

  // ---------------------------------------------------------------------
  // Scans over a molecule

  /** `GetNeighbors` as `NeighborsOf` states it. */
  method NeighborsIn(mol: MoleculeGraph.Molecule, a: int) returns (ns: seq<int>)
    requires mol.Valid()
    ensures ns == NeighborsOf(mol.bonds, mol.vertices, a)
    ensures forall x :: x in ns ==> 0 <= x < |mol.atoms|
  {
    ns := mol.GetNeighbors(a);
  }

  /** The neighbours other than `x`, collected by a loop. */
  method CollectOthers(ns: seq<int>, x: int) returns (r: seq<int>)
    ensures r == Others(ns, x)
  {
    r := [];
    var k := 0;
    while k < |ns|
      invariant 0 <= k <= |ns|
      invariant r == Others(ns[..k], x)
    {
      assert ns[..k + 1][..k] == ns[..k];
      if ns[k] != x {
        r := r + [ns[k]];
      }
      k := k + 1;
    }
    assert ns[..k] == ns;
  }

  /** The first non-zero direction on an edge list, as `determineParity`
      searches it with an early break. */
  method ScanDirection(mol: MoleculeGraph.Molecule, edges: seq<int>, skip: int) returns (d: int)
    ensures d == FirstDirection(mol.bonds, edges, skip)
  {
    d := -1;
    var k := 0;
    while k < |edges|
      invariant 0 <= k <= |edges|
      invariant FirstDirection(mol.bonds, edges, skip) == FirstDirection(mol.bonds, edges[k..], skip)
    {
      assert edges[k..][1..] == edges[k + 1..];
      if edges[k] != skip {
        var dir := mol.GetBondDirection(edges[k]);
        if dir != 0 {
          d := dir;
          return;
        }
      }
      k := k + 1;
    }
  }

  // ---------------------------------------------------------------------
  // The container

  class MoleculeCisTrans {
    var bonds: map<int, CisTrans>

    /** Every entry is filed under its own bond. */
    predicate Valid()
      reads this
    {
      forall k :: k in bonds ==> bonds[k].bondIdx == k
    }

    /** `NewMoleculeCisTrans`. */
    constructor ()
      ensures Valid() && bonds == map[]
    {
      bonds := map[];
    }

    method Clear()
      modifies this
      ensures Valid() && bonds == map[]
    {
      bonds := map[];
    }

    /** `Exists`: some bond has cis/trans information. */
    predicate Exists()
      reads this
    {
      |bonds| > 0
    }

    /** `Count`: the number of registered bonds. */
    function Count(): (n: int)
      reads this
      ensures n == 0 <==> !Exists()
      ensures n == |bonds.Keys|
    {
      |bonds|
    }

    /** `GetParity`: 0 for a bond without an entry. */
    function GetParity(bondIdx: int): (p: int)
      reads this
      ensures bondIdx !in bonds ==> p == 0
      ensures bondIdx in bonds ==> p == bonds[bondIdx].parity
    {
      if bondIdx in bonds then bonds[bondIdx].parity else 0
    }

    /** `IsIgnored`: false for a bond without an entry. */
    predicate IsIgnored(bondIdx: int)
      reads this
    {
      bondIdx in bonds && bonds[bondIdx].ignored
    }

    /** `GetSubstituents`: all -1 for a bond without an entry. */
    function GetSubstituents(bondIdx: int): (q: Quad)
      reads this
      ensures bondIdx !in bonds ==> q == NoSubstituents
      ensures bondIdx in bonds ==> q == bonds[bondIdx].substituents
    {
      if bondIdx in bonds then bonds[bondIdx].substituents else NoSubstituents
    }

    /** `SetParity`: changes only the parity of an existing entry. */
    method SetParity(bondIdx: int, parity: int)
      requires Valid()
      modifies this
      ensures Valid()
      ensures bonds == if bondIdx in old(bonds) then old(bonds)[bondIdx := old(bonds)[bondIdx].(parity := parity)]
                       else old(bonds)
      ensures bondIdx in bonds ==> GetParity(bondIdx) == parity
    {
      if bondIdx in bonds {
        bonds := bonds[bondIdx := bonds[bondIdx].(parity := parity)];
      }
    }

    /** `Ignore`: marks an existing entry ignored, or creates an ignored
        blank entry. */
    method Ignore(bondIdx: int)
      requires Valid()
      modifies this
      ensures Valid()
      ensures bonds == old(bonds)[bondIdx := if bondIdx in old(bonds) then old(bonds)[bondIdx].(ignored := true)
                                             else Blank(bondIdx, true)]
      ensures IsIgnored(bondIdx)
    {
      if bondIdx in bonds {
        bonds := bonds[bondIdx := bonds[bondIdx].(ignored := true)];
      } else {
        bonds := bonds[bondIdx := Blank(bondIdx, true)];
      }
    }

    /** `RegisterBond`: a blank entry for a new bond; an existing entry is
        never overwritten, so registering twice is registering once. */
    method RegisterBond(bondIdx: int)
      requires Valid()
      modifies this
      ensures Valid()
      ensures bonds == if bondIdx in old(bonds) then old(bonds) else old(bonds)[bondIdx := Blank(bondIdx, false)]
      ensures bonds == RegisteredIn(old(bonds), bondIdx)
    {
      if bondIdx !in bonds {
        bonds := bonds[bondIdx := Blank(bondIdx, false)];
      }
    }

    /** `Add`: the new entry replaces any earlier one and is not ignored. */
    method Add(bondIdx: int, substituents: Quad, parity: int)
      requires Valid()
      modifies this
      ensures Valid()
      ensures bonds == old(bonds)[bondIdx := CisTrans(bondIdx, parity, substituents, false)]
      ensures !IsIgnored(bondIdx) && GetParity(bondIdx) == parity
    {
      bonds := bonds[bondIdx := CisTrans(bondIdx, parity, substituents, false)];
    }

    /** `String`: a name for the entry's state. */
    function Describe(bondIdx: int): (s: string)
      reads this
      ensures bondIdx !in bonds ==> s == "none"
      ensures IsIgnored(bondIdx) ==> s == "ignored"
      ensures bondIdx in bonds && !IsIgnored(bondIdx) ==>
                s == (if GetParity(bondIdx) == Cis then "cis (Z)"
                      else if GetParity(bondIdx) == Trans then "trans (E)" else "undefined")
    {
      if bondIdx !in bonds then "none"
      else if bonds[bondIdx].ignored then "ignored"
      else if bonds[bondIdx].parity == Cis then "cis (Z)"
      else if bonds[bondIdx].parity == Trans then "trans (E)"
      else "undefined"
    }

    /** `GetAllBonds`: every registered bond once, in map order. */
    method GetAllBonds() returns (result: seq<int>)
      ensures forall k :: k in result <==> k in bonds
      ensures forall i, j :: 0 <= i < j < |result| ==> result[i] != result[j]
    {
      result := [];
      var remaining := bonds.Keys;
      while remaining != {}
        invariant remaining <= bonds.Keys
        invariant forall k :: k in result <==> k in bonds && k !in remaining
        invariant forall i, j :: 0 <= i < j < |result| ==> result[i] != result[j]
        decreases |remaining|
      {
        SomeMember(remaining);
        var k :| k in remaining;
        result := result + [k];
        remaining := remaining - {k};
      }
    }

    /** `GetSubstituentsAll`: the substituent slots read off the molecule,
        all -1 for a bad bond index. */
    method GetSubstituentsAll(mol: MoleculeGraph.Molecule, bondIdx: int) returns (subst: Quad)
      requires mol.Valid()
      ensures subst == SubstituentsAll(mol.bonds, mol.vertices, bondIdx)
    {
      if bondIdx < 0 || bondIdx >= |mol.bonds| {
        return NoSubstituents;
      }
      var bond := mol.bonds[bondIdx];
      var neighbors1 := NeighborsIn(mol, bond.beg);
      var side1 := FillSide(neighbors1, bond.end);
      var neighbors2 := NeighborsIn(mol, bond.end);
      var side2 := FillSide(neighbors2, bond.beg);
      subst := side1 + side2;
    }

    /** `IsGeomStereoBond`, with the substituent comparison of
        `hasDistinctSubstituents`. */
    method IsGeomStereoBond(mol: MoleculeGraph.Molecule, bondIdx: int) returns (r: bool)
      requires mol.Valid()
      ensures r <==> GeomStereo(mol.atoms, mol.bonds, mol.vertices, bondIdx)
      ensures r ==> mol.bonds[bondIdx].order == MoleculeGraph.BondDouble
    {
      if bondIdx < 0 || bondIdx >= |mol.bonds| {
        return false;
      }
      var bond := mol.bonds[bondIdx];
      if bond.order != MoleculeGraph.BondDouble {
        return false;
      }
      var neighbors1 := NeighborsIn(mol, bond.beg);
      var neighbors2 := NeighborsIn(mol, bond.end);
      if |neighbors1| < 2 || |neighbors1| > 3 || |neighbors2| < 2 || |neighbors2| > 3 {
        return false;
      }
      var subs1 := CollectOthers(neighbors1, bond.end);
      var subs2 := CollectOthers(neighbors2, bond.beg);
      if |subs1| < 1 || |subs1| > 2 || |subs2| < 1 || |subs2| > 2 {
        return false;
      }
      return !SameElements(mol.atoms, subs1) && !SameElements(mol.atoms, subs2);
    }

    /** `Build`: after clearing, exactly the double bonds outside
        `excludeBonds` that pass `IsGeomStereoBond` get an entry, with the
        substituents and the parity read off the molecule. */
    method Build(mol: MoleculeGraph.Molecule, excludeBonds: seq<int>, parity3D: int -> int)
      requires mol.Valid()
      modifies this
      ensures Valid()
      ensures forall i :: i in bonds <==>
                (0 <= i < |mol.bonds| && i !in excludeBonds && GeomStereo(mol.atoms, mol.bonds, mol.vertices, i))
      ensures forall i :: i in bonds ==>
                (0 <= i < |mol.bonds| && bonds[i] == EntryFor(mol.bonds, mol.vertices, mol.haveXYZ, parity3D, i))
    {
      Clear();
      var exclude: set<int> := set b | b in excludeBonds;
      assert forall b :: b in exclude <==> b in excludeBonds;
      var i := 0;
      while i < |mol.bonds|
        invariant 0 <= i <= |mol.bonds|
        invariant Valid()
        invariant forall j :: j in bonds <==>
                    (0 <= j < i && j !in excludeBonds && GeomStereo(mol.atoms, mol.bonds, mol.vertices, j))
        invariant forall j :: j in bonds ==>
                    (0 <= j < |mol.bonds| && bonds[j] == EntryFor(mol.bonds, mol.vertices, mol.haveXYZ, parity3D, j))
      {
        ghost var before := bonds;
        ConsiderBond(mol, i, i in exclude, parity3D);
        forall j
          ensures j in bonds <==>
                    (0 <= j < i + 1 && j !in excludeBonds && GeomStereo(mol.atoms, mol.bonds, mol.vertices, j))
        {
          if j != i {
            assert j in bonds <==> j in before;
          }
        }
        i := i + 1;
      }
    }

    /** One step of `Build`: bond `i`, unless excluded, gets an entry when
        it is a double bond passing `IsGeomStereoBond`. */
    method ConsiderBond(mol: MoleculeGraph.Molecule, i: int, excluded: bool, parity3D: int -> int)
      requires mol.Valid() && Valid() && 0 <= i < |mol.bonds|
      modifies this
      ensures Valid()
      ensures bonds == if !excluded && GeomStereo(mol.atoms, mol.bonds, mol.vertices, i)
                       then old(bonds)[i := EntryFor(mol.bonds, mol.vertices, mol.haveXYZ, parity3D, i)]
                       else old(bonds)
    {
      if !excluded && mol.bonds[i].order == MoleculeGraph.BondDouble {
        var geom := IsGeomStereoBond(mol, i);
        if geom {
          RegisterBondAndSubstituents(mol, i, parity3D);
        }
      }
    }

    /** `RegisterBondAndSubstituents` for a bond index known to be valid. */
    method RegisterBondAndSubstituents(mol: MoleculeGraph.Molecule, bondIdx: int, parity3D: int -> int)
      requires mol.Valid() && Valid()
      requires 0 <= bondIdx < |mol.bonds|
      modifies this
      ensures Valid()
      ensures bonds == old(bonds)[bondIdx := EntryFor(mol.bonds, mol.vertices, mol.haveXYZ, parity3D, bondIdx)]
    {
      var subst := GetSubstituentsAll(mol, bondIdx);
      var parity := DetermineParity(mol, bondIdx, subst, parity3D);
      Add(bondIdx, subst, parity);
    }

    /** `FlipBond`: in every entry whose bond touches `atomParent`, the
        substituent `atomFrom` becomes `atomTo`.  Every key must be a bond
        of the molecule. */
    method FlipBond(mol: MoleculeGraph.Molecule, atomParent: int, atomFrom: int, atomTo: int)
      requires Valid()
      requires forall k :: k in bonds ==> 0 <= k < |mol.bonds|
      modifies this
      ensures Valid()
      ensures bonds.Keys == old(bonds).Keys
      ensures forall k :: k in bonds ==>
                bonds[k] == if MoleculeGraph.Incidence(mol.bonds[k], atomParent) > 0
                            then old(bonds)[k].(substituents := Retarget(old(bonds)[k].substituents, atomFrom, atomTo))
                            else old(bonds)[k]
    {
      var remaining := bonds.Keys;
      while remaining != {}
        invariant remaining <= bonds.Keys && bonds.Keys == old(bonds).Keys
        invariant Valid()
        invariant forall k :: k in bonds ==>
                    bonds[k] == if k !in remaining && MoleculeGraph.Incidence(mol.bonds[k], atomParent) > 0
                                then old(bonds)[k].(substituents := Retarget(old(bonds)[k].substituents, atomFrom, atomTo))
                                else old(bonds)[k]
        decreases |remaining|
      {
        SomeMember(remaining);
        var k :| k in remaining;
        var bond := mol.bonds[k];
        if bond.beg == atomParent || bond.end == atomParent {
          var ct := bonds[k];
          bonds := bonds[k := ct.(substituents := Retarget(ct.substituents, atomFrom, atomTo))];
        }
        remaining := remaining - {k};
      }
    }

    /** `Validate`: the entries whose bond fails `IsGeomStereoBond` are
        removed; the others are kept unchanged. */
    method Validate(mol: MoleculeGraph.Molecule)
      requires mol.Valid() && Valid()
      modifies this
      ensures Valid()
      ensures forall k :: k in bonds <==> k in old(bonds) && GeomStereo(mol.atoms, mol.bonds, mol.vertices, k)
      ensures forall k :: k in bonds ==> bonds[k] == old(bonds)[k]
    {
      var toRemove := CollectInvalid(mol);
      RemoveAll(toRemove);
    }

    /** The first pass of `Validate`: the entries that fail
        `IsGeomStereoBond`, in map order. */
    method CollectInvalid(mol: MoleculeGraph.Molecule) returns (toRemove: seq<int>)
      requires mol.Valid()
      ensures forall k :: k in toRemove <==> k in bonds && !GeomStereo(mol.atoms, mol.bonds, mol.vertices, k)
    {
      toRemove := [];
      var remaining := bonds.Keys;
      while remaining != {}
        invariant remaining <= bonds.Keys
        invariant forall k :: k in toRemove <==>
                    (k in bonds && k !in remaining && !GeomStereo(mol.atoms, mol.bonds, mol.vertices, k))
        decreases |remaining|
      {
        SomeMember(remaining);
        var k :| k in remaining;
        var geom := IsGeomStereoBond(mol, k);
        if !geom {
          toRemove := toRemove + [k];
        }
        remaining := remaining - {k};
      }
    }

    /** The second pass of `Validate`: every listed entry is deleted. */
    method RemoveAll(toRemove: seq<int>)
      requires Valid()
      modifies this
      ensures Valid()
      ensures forall k :: k in bonds <==> k in old(bonds) && k !in toRemove
      ensures forall k :: k in bonds ==> bonds[k] == old(bonds)[k]
    {
      var i := 0;
      while i < |toRemove|
        invariant 0 <= i <= |toRemove|
        invariant Valid()
        invariant forall k :: k in bonds <==> k in old(bonds) && k !in toRemove[..i]
        invariant forall k :: k in bonds ==> bonds[k] == old(bonds)[k]
      {
        assert toRemove[..i + 1] == toRemove[..i] + [toRemove[i]];
        bonds := bonds - {toRemove[i]};
        i := i + 1;
      }
      assert toRemove[..i] == toRemove;
    }
  }

  /** The two slots of one side: the neighbours other than `partner`, the
      first two kept, the rest padded with -1. */
  method FillSide(ns: seq<int>, partner: int) returns (side: seq<int>)
    ensures side == FirstTwo(Others(ns, partner))
  {
    side := [-1, -1];
    var idx := 0;
    var k := 0;
    while k < |ns|
      invariant 0 <= k <= |ns| && |side| == 2
      invariant idx == if |Others(ns[..k], partner)| < 2 then |Others(ns[..k], partner)| else 2
      invariant side == FirstTwo(Others(ns[..k], partner))
    {
      assert ns[..k + 1][..k] == ns[..k];
      if ns[k] != partner && idx < 2 {
        side := side[idx := ns[k]];
        idx := idx + 1;
      }
      k := k + 1;
    }
    assert ns[..k] == ns;
  }

  /** `determineParity`. */
  method DetermineParity(mol: MoleculeGraph.Molecule, bondIdx: int, subst: Quad, parity3D: int -> int) returns (p: int)
    requires mol.Valid() && 0 <= bondIdx < |mol.bonds|
    ensures p == Parity(mol.bonds, mol.vertices, mol.haveXYZ, parity3D, bondIdx, subst)
  {
    if mol.haveXYZ {
      if subst[0] < 0 || subst[1] < 0 || subst[2] < 0 || subst[3] < 0 {
        return 0;
      }
      return parity3D(bondIdx);
    }
    var bond := mol.bonds[bondIdx];
    var d1 := ScanDirection(mol, mol.GetNeighborBonds(bond.beg), bondIdx);
    var d2 := ScanDirection(mol, mol.GetNeighborBonds(bond.end), bondIdx);
    if d1 > 0 && d2 > 0 {
      if d1 == d2 {
        return Cis;
      }
      return Trans;
    }
    return 0;
  }

  /** The map after `RegisterBond`. */
  function RegisteredIn(m: map<int, CisTrans>, bondIdx: int): map<int, CisTrans>
  {
    if bondIdx in m then m else m[bondIdx := Blank(bondIdx, false)]
  }

  /** Registering is idempotent and keeps every entry already present. */
  lemma RegisterIdempotent(m: map<int, CisTrans>, bondIdx: int)
    ensures RegisteredIn(RegisteredIn(m, bondIdx), bondIdx) == RegisteredIn(m, bondIdx)
    ensures forall k :: k in m ==> k in RegisteredIn(m, bondIdx) && RegisteredIn(m, bondIdx)[k] == m[k]
  {
  }
}
