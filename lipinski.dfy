/** Lipinski-style counts (src/molecule/lipinski.go): rotatable bonds,
    hydrogen-bond acceptors and hydrogen-bond donors. Each count is a loop
    over the molecule; each is proved equal to a counting function, and the
    counting functions are related to simpler bounds. A nil molecule is a
    null reference and counts 0. */
module Lipinski {
  import opened MoleculeGraph
  import Elements

  /** `otherEnd`: the far end of `b` seen from `u`, or `u` itself when `u`
      is not an endpoint of `b`. */
  function FarEnd(b: Bond, u: int): (r: int)
    ensures Incidence(b, u) > 0 ==> Joins(b, u, r)
    ensures Incidence(b, u) == 0 ==> r == u
  {
    if b.beg == u then b.end else if b.end == u then b.beg else u
  }

  /** Edge lists name bonds (the part of `WellFormed` the counts need). */
  predicate Listed(bonds: seq<Bond>, vertices: seq<seq<int>>)
  {
    EdgesInRange(vertices, bonds) &&
    forall i :: 0 <= i < |bonds| ==> 0 <= bonds[i].beg < |vertices| && 0 <= bonds[i].end < |vertices|
  }

  // ---------------------------------------------------------------------
  // isLikelyRingEdge

  /** The `seen` set after the first `n` edges of `u`'s list. */
  function SeenEnds(bonds: seq<Bond>, edges: seq<int>, u: int, n: nat): set<int>
    requires n <= |edges| && forall k :: 0 <= k < |edges| ==> 0 <= edges[k] < |bonds|
  {
    if n == 0 then {} else SeenEnds(bonds, edges, u, n - 1) + {FarEnd(bonds[edges[n - 1]], u)}
  }

  /** `inter` after the first `n` edges of `v`'s list: how many of them lead
      to an atom in `seen`. */
  function SharedCount(bonds: seq<Bond>, edges: seq<int>, v: int, seen: set<int>, n: nat): nat
    requires n <= |edges| && forall k :: 0 <= k < |edges| ==> 0 <= edges[k] < |bonds|
  {
    if n == 0 then 0
    else SharedCount(bonds, edges, v, seen, n - 1) + (if FarEnd(bonds[edges[n - 1]], v) in seen then 1 else 0)
  }

  /** `isLikelyRingEdge(u, v)`: at least two of `v`'s bonds lead to an atom
      that one of `u`'s bonds leads to. */
  predicate LikelyRing(bonds: seq<Bond>, vertices: seq<seq<int>>, u: int, v: int)
    requires Listed(bonds, vertices) && 0 <= u < |vertices| && 0 <= v < |vertices|
  {
    SharedCount(bonds, vertices[v], v, SeenEnds(bonds, vertices[u], u, |vertices[u]|), |vertices[v]|) >= 2
  }

  /** In a well-formed graph the `seen` set of `u` is exactly the set of
      atoms bonded to `u`, so `LikelyRing` counts common neighbours. */
  lemma {:induction false} SeenEndsAreNeighbours(atoms: seq<Atom>, bonds: seq<Bond>, vertices: seq<seq<int>>, u: int, x: int)
    requires WellFormed(atoms, bonds, vertices) && 0 <= u < |atoms|
    ensures x in SeenEnds(bonds, vertices[u], u, |vertices[u]|) <==> Connected(bonds, u, x)
  {
    var edges := vertices[u];
    SeenEndsMembers(bonds, edges, u, x, |edges|);
    if Connected(bonds, u, x) {
      var i :| 0 <= i < |bonds| && Joins(bonds[i], u, x);
      EdgeListExact(atoms, bonds, vertices, u, i);
      var k :| 0 <= k < |edges| && edges[k] == i;
      assert FarEnd(bonds[edges[k]], u) == x;
    }
    if x in SeenEnds(bonds, edges, u, |edges|) {
      var k :| 0 <= k < |edges| && FarEnd(bonds[edges[k]], u) == x;
      EdgeListExact(atoms, bonds, vertices, u, edges[k]);
      assert Joins(bonds[edges[k]], u, x);
    }
  }

  lemma {:induction false} SeenEndsMembers(bonds: seq<Bond>, edges: seq<int>, u: int, x: int, n: nat)
    requires n <= |edges| && forall k :: 0 <= k < |edges| ==> 0 <= edges[k] < |bonds|
    ensures x in SeenEnds(bonds, edges, u, n) <==> exists k :: 0 <= k < n && FarEnd(bonds[edges[k]], u) == x
  {
    if n > 0 {
      SeenEndsMembers(bonds, edges, u, x, n - 1);
    }
  }

  /** `isLikelyRingEdge`: fills `seen` from `u`'s bonds, then counts `v`'s
      bonds that lead into it. */
  method IsLikelyRingEdge(m: Molecule, u: int, v: int) returns (r: bool)
    requires m.Valid() && 0 <= u < |m.atoms| && 0 <= v < |m.atoms|
    ensures r == LikelyRing(m.bonds, m.vertices, u, v)
  {
    var eu := m.vertices[u];
    var seen: set<int> := {};
    var k := 0;
    while k < |eu|
      invariant 0 <= k <= |eu|
      invariant seen == SeenEnds(m.bonds, eu, u, k)
    {
      seen := seen + {FarEnd(m.bonds[eu[k]], u)};
      k := k + 1;
    }
    var ev := m.vertices[v];
    var inter := 0;
    k := 0;
    while k < |ev|
      invariant 0 <= k <= |ev|
      invariant inter == SharedCount(m.bonds, ev, v, seen, k)
    {
      if FarEnd(m.bonds[ev[k]], v) in seen {
        inter := inter + 1;
      }
      k := k + 1;
    }
    r := inter >= 2;
  }

  // ---------------------------------------------------------------------
  // NumRotatableBonds

  /** An atom with at most one bond is terminal. */
  predicate Terminal(vertices: seq<seq<int>>, a: int)
    requires 0 <= a < |vertices|
  {
    |vertices[a]| <= 1
  }

  /** Bond `i` is counted by `NumRotatableBonds`: single, neither end
      terminal, and not a likely ring edge. */
  predicate Rotatable(bonds: seq<Bond>, vertices: seq<seq<int>>, i: int)
    requires Listed(bonds, vertices) && 0 <= i < |bonds|
  {
    bonds[i].order == BondSingle &&
    !Terminal(vertices, bonds[i].beg) && !Terminal(vertices, bonds[i].end) &&
    !LikelyRing(bonds, vertices, bonds[i].beg, bonds[i].end)
  }

  /** Rotatable bonds among the first `n`. */
  function RotatableCount(bonds: seq<Bond>, vertices: seq<seq<int>>, n: nat): nat
    requires Listed(bonds, vertices) && n <= |bonds|
  {
    if n == 0 then 0 else RotatableCount(bonds, vertices, n - 1) + (if Rotatable(bonds, vertices, n - 1) then 1 else 0)
  }

  /** Single bonds among the first `n`. */
  function SingleCount(bonds: seq<Bond>, n: nat): nat
    requires n <= |bonds|
  {
    if n == 0 then 0 else SingleCount(bonds, n - 1) + (if bonds[n - 1].order == BondSingle then 1 else 0)
  }

  /** Single bonds among the first `n` with neither end terminal. */
  function InnerSingleCount(bonds: seq<Bond>, vertices: seq<seq<int>>, n: nat): nat
    requires Listed(bonds, vertices) && n <= |bonds|
  {
    if n == 0 then 0
    else InnerSingleCount(bonds, vertices, n - 1) +
         (if bonds[n - 1].order == BondSingle && !Terminal(vertices, bonds[n - 1].beg) && !Terminal(vertices, bonds[n - 1].end)
          then 1 else 0)
  }

  /** `NumRotatableBonds`: 0 for a nil molecule, otherwise the number of
      rotatable bonds. */
  method NumRotatableBonds(m: Molecule?) returns (count: int)
    requires m != null ==> m.Valid()
    ensures m == null ==> count == 0
    ensures m != null ==> count == RotatableCount(m.bonds, m.vertices, |m.bonds|)
  {
    if m == null {
      return 0;
    }
    count := 0;
    var i := 0;
    while i < |m.bonds|
      invariant 0 <= i <= |m.bonds|
      invariant count == RotatableCount(m.bonds, m.vertices, i)
    {
      var order := BondOrderOf(m.bonds, i);
      var b := m.bonds[i];
      if order == BondSingle && |m.vertices[b.beg]| > 1 && |m.vertices[b.end]| > 1 {
        var ring := IsLikelyRingEdge(m, b.beg, b.end);
        if !ring {
          count := count + 1;
        }
      }
      i := i + 1;
    }
  }

  /** Terminal bonds are never counted: the count is at most the number of
      single bonds whose two ends both carry another bond, which is at most
      the number of single bonds. */
  lemma {:induction false} RotatableAtMostSingles(bonds: seq<Bond>, vertices: seq<seq<int>>, n: nat)
    requires Listed(bonds, vertices) && n <= |bonds|
    ensures RotatableCount(bonds, vertices, n) <= InnerSingleCount(bonds, vertices, n) <= SingleCount(bonds, n)
  {
    if n > 0 {
      RotatableAtMostSingles(bonds, vertices, n - 1);
    }
  }

  // ---------------------------------------------------------------------
  // NumHydrogenBondAcceptors and NumHydrogenBondDonors

  predicate IsOxygenOrNitrogen(n: int)
  {
    n == Elements.ElemO || n == Elements.ElemN
  }

  /** Atom `i` is an acceptor: O or N, not positively charged, and its
      bond connectivity (-1 when aromatic) at most 2 for O or 3 for N. */
  predicate Acceptor(atoms: seq<Atom>, bonds: seq<Bond>, vertices: seq<seq<int>>, i: int)
    requires |vertices| == |atoms| && 0 <= i < |atoms|
  {
    var n := atoms[i].number;
    var conn := AtomConnectivity(bonds, vertices, i);
    IsOxygenOrNitrogen(n) && atoms[i].charge <= 0 &&
    ((n == Elements.ElemO && conn <= 2) || (n == Elements.ElemN && conn <= 3))
  }

  /** Atom `i` is a donor: O or N, not negatively charged, with implicit
      hydrogens. */
  predicate Donor(atoms: seq<Atom>, bonds: seq<Bond>, vertices: seq<seq<int>>, i: int)
    requires |vertices| == |atoms| && 0 <= i < |atoms|
  {
    IsOxygenOrNitrogen(atoms[i].number) && atoms[i].charge >= 0 && ImplicitHOf(atoms, bonds, vertices, i) > 0
  }

  function AcceptorCount(atoms: seq<Atom>, bonds: seq<Bond>, vertices: seq<seq<int>>, n: nat): nat
    requires |vertices| == |atoms| && n <= |atoms|
  {
    if n == 0 then 0
    else AcceptorCount(atoms, bonds, vertices, n - 1) + (if Acceptor(atoms, bonds, vertices, n - 1) then 1 else 0)
  }

  function DonorCount(atoms: seq<Atom>, bonds: seq<Bond>, vertices: seq<seq<int>>, n: nat): nat
    requires |vertices| == |atoms| && n <= |atoms|
  {
    if n == 0 then 0
    else DonorCount(atoms, bonds, vertices, n - 1) + (if Donor(atoms, bonds, vertices, n - 1) then 1 else 0)
  }

  /** O and N atoms among the first `n`. */
  function HeteroCount(atoms: seq<Atom>, n: nat): nat
    requires n <= |atoms|
  {
    if n == 0 then 0 else HeteroCount(atoms, n - 1) + (if IsOxygenOrNitrogen(atoms[n - 1].number) then 1 else 0)
  }

  /** `NumHydrogenBondAcceptors`: 0 for a nil molecule, otherwise the
      number of acceptor atoms. Reading connectivity may fill its cache;
      nothing else changes. */
  method NumHydrogenBondAcceptors(m: Molecule?) returns (c: int)
    requires m != null ==> m.Valid()
    modifies m
    ensures m == null ==> c == 0
    ensures m != null ==> m.Valid() && c == AcceptorCount(m.atoms, m.bonds, m.vertices, |m.atoms|)
    ensures m != null ==> unchanged(m`atoms, m`bonds, m`vertices, m`bondOrders, m`aromaticity, m`implicitH, m`totalH, m`valence)
    ensures m != null ==> unchanged(m`name, m`ignoreBadValence, m`aromatized, m`haveXYZ, m`chiralFlag, m`editRevision)
  {
    if m == null {
      return 0;
    }
    c := CountAcceptors(m);
  }

  method CountAcceptors(m: Molecule) returns (c: int)
    requires m.Valid()
    modifies m`connectivity
    ensures m.Valid() && c == AcceptorCount(m.atoms, m.bonds, m.vertices, |m.atoms|)
  {
    c := 0;
    var i := 0;
    while i < |m.atoms|
      invariant 0 <= i <= |m.atoms| && m.Valid()
      invariant c == AcceptorCount(m.atoms, m.bonds, m.vertices, i)
    {
      var n := m.GetAtomNumber(i);
      if IsOxygenOrNitrogen(n) && m.atoms[i].charge <= 0 {
        var conn := m.GetAtomConnectivityNoImplH(i);
        if (n == Elements.ElemO && conn <= 2) || (n == Elements.ElemN && conn <= 3) {
          c := c + 1;
        }
      }
      i := i + 1;
    }
  }

  /** `NumHydrogenBondDonors`: 0 for a nil molecule, otherwise the number
      of donor atoms. Reading implicit hydrogens may fill the connectivity
      and implicit-H caches; nothing else changes. */
  method NumHydrogenBondDonors(m: Molecule?) returns (c: int)
    requires m != null ==> m.Valid()
    modifies m
    ensures m == null ==> c == 0
    ensures m != null ==> m.Valid() && c == DonorCount(m.atoms, m.bonds, m.vertices, |m.atoms|)
    ensures m != null ==> unchanged(m`atoms, m`bonds, m`vertices, m`bondOrders, m`aromaticity, m`totalH, m`valence)
    ensures m != null ==> unchanged(m`name, m`ignoreBadValence, m`aromatized, m`haveXYZ, m`chiralFlag, m`editRevision)
  {
    if m == null {
      return 0;
    }
    c := CountDonors(m);
  }

  method CountDonors(m: Molecule) returns (c: int)
    requires m.Valid()
    modifies m`connectivity, m`implicitH
    ensures m.Valid() && c == DonorCount(m.atoms, m.bonds, m.vertices, |m.atoms|)
  {
    c := 0;
    var i := 0;
    while i < |m.atoms|
      invariant 0 <= i <= |m.atoms| && m.Valid()
      invariant c == DonorCount(m.atoms, m.bonds, m.vertices, i)
    {
      var n := m.GetAtomNumber(i);
      if IsOxygenOrNitrogen(n) && m.atoms[i].charge >= 0 {
        var h := m.GetImplicitH(i);
        if h > 0 {
          c := c + 1;
        }
      }
      i := i + 1;
    }
  }

  /** Both counts are bounded by the number of O and N atoms. */
  lemma {:induction false} CountsAtMostHetero(atoms: seq<Atom>, bonds: seq<Bond>, vertices: seq<seq<int>>, n: nat)
    requires |vertices| == |atoms| && n <= |atoms|
    ensures AcceptorCount(atoms, bonds, vertices, n) <= HeteroCount(atoms, n)
    ensures DonorCount(atoms, bonds, vertices, n) <= HeteroCount(atoms, n)
  {
    if n > 0 {
      CountsAtMostHetero(atoms, bonds, vertices, n - 1);
    }
  }

  /** A donor is neutral: the implicit-hydrogen rule gives charged atoms
      none, so the `charge >= 0` test only ever lets charge 0 through. */
  lemma DonorIsNeutral(atoms: seq<Atom>, bonds: seq<Bond>, vertices: seq<seq<int>>, i: int)
    requires |vertices| == |atoms| && 0 <= i < |atoms|
    requires Donor(atoms, bonds, vertices, i)
    ensures atoms[i].charge == 0
  {
  }

  /** A neutral hydroxyl oxygen (one single bond) is both an acceptor and a
      donor. */
  lemma HydroxylBoth(atoms: seq<Atom>, bonds: seq<Bond>, vertices: seq<seq<int>>, i: int)
    requires |vertices| == |atoms| && 0 <= i < |atoms|
    requires atoms[i].number == Elements.ElemO && atoms[i].charge == 0
    requires |vertices[i]| == 1 && BondOrderOf(bonds, vertices[i][0]) == BondSingle
    ensures Acceptor(atoms, bonds, vertices, i) && Donor(atoms, bonds, vertices, i)
  {
    var edges := vertices[i];
    assert edges[..|edges| - 1] == [];
    assert EdgesConnectivity(bonds, edges[..|edges| - 1]) == 0;
    assert AtomConnectivity(bonds, vertices, i) == 1;
  }
}
