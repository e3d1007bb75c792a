/** The molecule graph (src/molecule/molecule.go): atoms, bonds, one edge
    list per atom, and the per-atom caches that edits invalidate. The graph
    facts are stated over plain sequences so that every other module can use
    them; the `Molecule` class holds those sequences as fields and updates
    them in place, as the Go struct does. */
module MoleculeGraph {
  import opened Wrappers
  import Elements

  const BondZero: int := 0
  const BondSingle: int := 1
  const BondDouble: int := 2
  const BondTriple: int := 3
  const BondAromatic: int := 4
  const BondSingleOrDouble: int := 5
  const BondSingleOrAromatic: int := 6
  const BondDoubleOrAromatic: int := 7
  const BondAny: int := 8
  const BondCoordination: int := 9
  const BondHydrogen: int := 10

  const BondUp: int := 1
  const BondDown: int := 2
  const BondEither: int := 3

  const AtomAliphatic: int := 0
  const AtomAromatic: int := 1

  /** An atom without its coordinates. */
  datatype Atom = Atom(
    number: int,
    charge: int,
    isotope: int,
    radical: int,
    explicitValence: int,
    explicitImplH: int,
    pseudoAtomValue: string,
    templateOccurIdx: int,
    rgroupBits: bv32,
    templateName: string)

  datatype Bond = Bond(beg: int, end: int, order: int, direction: int)

  /** The atom `AddAtom` appends. */
  function NewAtom(number: int): Atom
  {
    Atom(number, 0, 0, 0, -1, -1, "", 0, 0, "")
  }

  predicate IsSpecialNumber(n: int)
  {
    n == Elements.ElemPseudo || n == Elements.ElemRSite || n == Elements.ElemTemplate
  }

  // ---------------------------------------------------------------------
  // Graph facts over plain sequences

  /** How many of the two endpoints of `b` are atom `a` (2 for a loop). */
  function Incidence(b: Bond, a: int): nat
  {
    (if b.beg == a then 1 else 0) + (if b.end == a then 1 else 0)
  }

  /** Bond `b` joins atoms `x` and `y`, in either direction. */
  predicate Joins(b: Bond, x: int, y: int)
  {
    (b.beg == x && b.end == y) || (b.beg == y && b.end == x)
  }

  /** Some bond joins `x` and `y`. */
  predicate Connected(bonds: seq<Bond>, x: int, y: int)
  {
    exists i :: 0 <= i < |bonds| && Joins(bonds[i], x, y)
  }

  /** Bond endpoints are atoms. */
  predicate EndpointsInRange(atoms: seq<Atom>, bonds: seq<Bond>)
  {
    forall i :: 0 <= i < |bonds| ==> 0 <= bonds[i].beg < |atoms| && 0 <= bonds[i].end < |atoms|
  }

  /** Edge lists hold bond indices. */
  predicate EdgesInRange(vertices: seq<seq<int>>, bonds: seq<Bond>)
  {
    forall a, k :: 0 <= a < |vertices| && 0 <= k < |vertices[a]| ==> 0 <= vertices[a][k] < |bonds|
  }

  /** Atom `a`'s list holds bond `i` exactly as often as `a` is an endpoint
      of `i`. */
  predicate IncidenceExact(vertices: seq<seq<int>>, bonds: seq<Bond>)
  {
    forall a, i {:trigger multiset(vertices[a])[i]} :: 0 <= a < |vertices| && 0 <= i < |bonds| ==> multiset(vertices[a])[i] == Incidence(bonds[i], a)
  }

  /** The graph invariant: one edge list per atom, consistent with the bonds. */
  predicate WellFormed(atoms: seq<Atom>, bonds: seq<Bond>, vertices: seq<seq<int>>)
  {
    |vertices| == |atoms| && EndpointsInRange(atoms, bonds) &&
    EdgesInRange(vertices, bonds) && IncidenceExact(vertices, bonds)
  }

  /** `GetBondOrder`: -1 for an index that is not a bond. */
  function BondOrderOf(bonds: seq<Bond>, idx: int): (o: int)
    ensures 0 <= idx < |bonds| ==> o == bonds[idx].order
  {
    if idx < 0 || idx >= |bonds| then -1 else bonds[idx].order
  }

  /** What the loop of `getAtomConnectivityNoImplH` computes over an edge
      list: -1 as soon as an aromatic bond is met, otherwise the sum of the
      single, double and triple orders. */
  function EdgesConnectivity(bonds: seq<Bond>, edges: seq<int>): (c: int)
    ensures c >= -1
    ensures c == -1 <==> exists k :: 0 <= k < |edges| && BondOrderOf(bonds, edges[k]) == BondAromatic
  {
    if edges == [] then 0
    else
      var rest := EdgesConnectivity(bonds, edges[..|edges| - 1]);
      var o := BondOrderOf(bonds, edges[|edges| - 1]);
      assert forall k :: 0 <= k < |edges| - 1 ==> edges[..|edges| - 1][k] == edges[k];
      if rest == -1 || o == BondAromatic then -1
      else if o == BondSingle || o == BondDouble || o == BondTriple then rest + o
      else rest
  }

  /** Once an aromatic bond has been seen, the rest of the list is irrelevant. */
  lemma {:induction false} EdgesConnectivityStaysAromatic(bonds: seq<Bond>, edges: seq<int>, k: nat)
    requires k <= |edges| && EdgesConnectivity(bonds, edges[..k]) == -1
    ensures EdgesConnectivity(bonds, edges) == -1
  {
    var w :| 0 <= w < |edges[..k]| && BondOrderOf(bonds, edges[..k][w]) == BondAromatic;
    assert edges[w] == edges[..k][w];
  }

  /** The connectivity depends only on the orders of the listed bonds. */
  lemma {:induction false} EdgesConnectivitySameOrders(b1: seq<Bond>, b2: seq<Bond>, edges: seq<int>)
    requires forall k :: 0 <= k < |edges| ==> BondOrderOf(b1, edges[k]) == BondOrderOf(b2, edges[k])
    ensures EdgesConnectivity(b1, edges) == EdgesConnectivity(b2, edges)
    decreases |edges|
  {
    if edges != [] {
      var init := edges[..|edges| - 1];
      assert forall k :: 0 <= k < |init| ==> init[k] == edges[k];
      EdgesConnectivitySameOrders(b1, b2, init);
    }
  }

  /** `getAtomConnectivityNoImplH` without the cache. */
  function AtomConnectivity(bonds: seq<Bond>, vertices: seq<seq<int>>, idx: int): int
    requires 0 <= idx < |vertices|
  {
    EdgesConnectivity(bonds, vertices[idx])
  }

  /** `GetImplicitH` as written: carbon only gets hydrogens at connectivity
      2 and 3, nitrogen at 2 and oxygen at 1, so a methyl carbon gets none. */
  function ImplicitHAsWritten(number: int, charge: int, conn: int, degree: int): int
  {
    if number == 6 && charge == 0 then
      if conn == 4 then 0
      else if conn == 3 then 1
      else if conn == 2 then 2
      else if conn == -1 then (if degree == 2 then 1 else 0)
      else 0
    else if number == 7 && charge == 0 then
      if conn == 3 then 0 else if conn == 2 then 1 else 0
    else if number == 8 && charge == 0 then
      if conn == 2 then 0 else if conn == 1 then 1 else 0
    else 0
  }

  /** The implicit hydrogen count the model uses: a neutral C, N or O is
      filled up to its standard valence 4, 3 or 2; aromatic carbon keeps the
      degree rule and aromatic nitrogen gets none; every other atom none. */
  function ImplicitHydrogens(number: int, charge: int, conn: int, degree: int): (h: int)
    ensures h >= 0
    ensures number == 6 && charge == 0 && 0 <= conn <= 4 ==> conn + h == 4
    ensures number == 7 && charge == 0 && 0 <= conn <= 3 ==> conn + h == 3
    ensures number == 8 && charge == 0 && 0 <= conn <= 2 ==> conn + h == 2
    ensures !(charge == 0 && (number == 6 || number == 7 || number == 8)) ==> h == 0
    ensures conn == -1 ==> h == (if number == 6 && charge == 0 && degree == 2 then 1 else 0)
  {
    if number == 6 && charge == 0 then
      if 0 <= conn <= 4 then 4 - conn
      else if conn == -1 then (if degree == 2 then 1 else 0)
      else 0
    else if number == 7 && charge == 0 then
      if 0 <= conn <= 3 then 3 - conn else 0
    else if number == 8 && charge == 0 then
      if 0 <= conn <= 2 then 2 - conn else 0
    else 0
  }

  /** The code as written gives a methyl carbon (connectivity 1) no hydrogen
      at all, while the standard valence asks for three. */
  lemma ImplicitHMethylCarbon()
    ensures ImplicitHAsWritten(6, 0, 1, 1) == 0
    ensures ImplicitHydrogens(6, 0, 1, 1) == 3
  {
  }

  /** The two rules differ only below the lowest connectivity the code
      handles: carbon and nitrogen below 2, oxygen below 1. */
  lemma ImplicitHAgreement(number: int, charge: int, conn: int, degree: int)
    ensures ImplicitHAsWritten(number, charge, conn, degree) == ImplicitHydrogens(number, charge, conn, degree)
            <==> !(charge == 0 && ((number == 6 && 0 <= conn <= 1) || (number == 7 && 0 <= conn <= 1) ||
                                   (number == 8 && conn == 0)))
  {
  }

  /** `GetImplicitH` without the cache. */
  function ImplicitHOf(atoms: seq<Atom>, bonds: seq<Bond>, vertices: seq<seq<int>>, idx: int): (h: int)
    requires |vertices| == |atoms| && 0 <= idx < |atoms|
    ensures h >= 0
  {
    ImplicitHydrogens(atoms[idx].number, atoms[idx].charge, AtomConnectivity(bonds, vertices, idx), |vertices[idx]|)
  }

  /** Some listed bond is aromatic (the scan of `GetAtomAromaticity`). */
  predicate HasAromaticEdge(bonds: seq<Bond>, edges: seq<int>)
  {
    exists k :: 0 <= k < |edges| && BondOrderOf(bonds, edges[k]) == BondAromatic
  }

  /** Storing `v` at `idx` in a cache that grows with -1 entries as needed
      (`for len(c) <= idx { c = append(c, -1) }; c[idx] = v`). */
  function CacheStore(cache: seq<int>, idx: nat, v: int): (c: seq<int>)
    ensures |c| == if idx < |cache| then |cache| else idx + 1
    ensures c[idx] == v
    ensures forall j :: 0 <= j < |c| && j != idx ==> c[j] == if j < |cache| then cache[j] else -1
  {
    if idx < |cache| then cache[idx := v]
    else (cache + seq(idx + 1 - |cache|, _ => -1))[idx := v]
  }

  /** Marking entry `idx` as not cached, when the cache reaches it. */
  function CacheInvalidate(cache: seq<int>, idx: int): (c: seq<int>)
    ensures |c| == |cache|
    ensures forall j :: 0 <= j < |c| ==> c[j] == if j == idx then -1 else cache[j]
  {
    if 0 <= idx < |cache| then cache[idx := -1] else cache
  }

  /** Every non-negative cache entry holds the value `f` gives. */
  predicate CacheAgrees(cache: seq<int>, f: seq<int>)
  {
    forall i :: 0 <= i < |cache| && i < |f| && cache[i] >= 0 ==> cache[i] == f[i]
  }

  /** The first bond that joins `x` and `y`, or -1: the search of `FlipBond`. */
  function FirstJoining(bonds: seq<Bond>, x: int, y: int): (i: int)
    ensures i == -1 <==> !Connected(bonds, x, y)
    ensures i != -1 ==> 0 <= i < |bonds| && Joins(bonds[i], x, y) &&
                        forall j :: 0 <= j < i ==> !Joins(bonds[j], x, y)
    decreases |bonds|
  {
    if bonds == [] then -1
    else if Joins(bonds[0], x, y) then 0
    else
      var r := FirstJoining(bonds[1..], x, y);
      assert forall j :: 0 <= j < |bonds| - 1 ==> bonds[1..][j] == bonds[j + 1];
      if r == -1 then
        assert !Connected(bonds, x, y) by {
          forall j | 0 <= j < |bonds| ensures !Joins(bonds[j], x, y) {
            if j > 0 { assert bonds[j] == bonds[1..][j - 1]; }
          }
        }
        -1
      else r + 1
  }

  /** The list with its first occurrence of `x` removed (`removeEdgeRef`). */
  function RemoveFirst(s: seq<int>, x: int): (r: seq<int>)
    ensures x in s ==> multiset(r) == multiset(s) - multiset{x}
    ensures x !in s ==> r == s
  {
    if s == [] then []
    else if s[0] == x then
      assert s == [s[0]] + s[1..];
      s[1..]
    else
      assert s == [s[0]] + s[1..];
      [s[0]] + RemoveFirst(s[1..], x)
  }

  /** The bond after `FlipBond` moves its `from` end to `to`. */
  function Rewire(b: Bond, parent: int, from: int, to: int): Bond
  {
    if b.beg == parent && b.end == from then b.(end := to) else b.(beg := to)
  }

  /** The endpoint of `b` opposite `a` (the loop body of `GetNeighbors`). */
  function OtherEnd(b: Bond, a: int): int
  {
    if b.beg == a then b.end else b.beg
  }

  /** The first bond in the edge list `edges` that joins `x` and `y`, or -1. */
  function FirstJoiningEdge(bonds: seq<Bond>, edges: seq<int>, x: int, y: int): (r: int)
    ensures r == -1 || (r in edges && 0 <= r < |bonds| && Joins(bonds[r], x, y))
  {
    if edges == [] then -1
    else if 0 <= edges[0] < |bonds| && Joins(bonds[edges[0]], x, y) then edges[0]
    else FirstJoiningEdge(bonds, edges[1..], x, y)
  }

  /** What `FindBond` returns: the first bond in `beg`'s edge list that
      joins `beg` and `end`, or -1 (also for an index that is not an atom). */
  function FindBondIn(bonds: seq<Bond>, vertices: seq<seq<int>>, beg: int, end: int): int
  {
    if 0 <= beg < |vertices| then FirstJoiningEdge(bonds, vertices[beg], beg, end) else -1
  }

  /** The neighbours `GetNeighbors` lists: the far end of each bond in the
      edge list, in edge-list order. */
  function NeighborList(bonds: seq<Bond>, edges: seq<int>, a: int): (ns: seq<int>)
    ensures |ns| == |edges|
  {
    seq(|edges|, j requires 0 <= j < |edges| => if 0 <= edges[j] < |bonds| then OtherEnd(bonds[edges[j]], a) else -1)
  }

  /** A bond index in a well-formed edge list touches its atom, and every
      bond touching an atom is in that atom's list. */
  lemma EdgeListExact(atoms: seq<Atom>, bonds: seq<Bond>, vertices: seq<seq<int>>, a: int, i: int)
    requires WellFormed(atoms, bonds, vertices) && 0 <= a < |atoms| && 0 <= i < |bonds|
    ensures i in vertices[a] <==> bonds[i].beg == a || bonds[i].end == a
  {
    assert multiset(vertices[a])[i] == Incidence(bonds[i], a);
  }

  /** Hydrogens counted by `TotalHydrogensCount`: explicit H atoms plus every
      atom's implicit hydrogens, over the first `n` atoms. */
  function HydrogenTotal(atoms: seq<Atom>, bonds: seq<Bond>, vertices: seq<seq<int>>, n: nat): (t: int)
    requires |vertices| == |atoms| && n <= |atoms|
    ensures t >= 0
  {
    if n == 0 then 0
    else HydrogenTotal(atoms, bonds, vertices, n - 1) + (if atoms[n - 1].number == Elements.ElemH then 1 else 0)
         + ImplicitHOf(atoms, bonds, vertices, n - 1)
  }

  /** Every connectivity and implicit-H entry that is cached holds the value
      it would be recomputed to (implicit H only for the atoms it can be
      computed for), and neither cache is longer than the atom list. */
  predicate CachesCoherent(atoms: seq<Atom>, bonds: seq<Bond>, vertices: seq<seq<int>>,
                           connectivity: seq<int>, implicitH: seq<int>)
    requires |vertices| == |atoms|
  {
    |connectivity| <= |atoms| && |implicitH| <= |atoms| &&
    (forall i {:trigger connectivity[i]} :: 0 <= i < |connectivity| && connectivity[i] >= 0 ==>
       connectivity[i] == AtomConnectivity(bonds, vertices, i)) &&
    (forall i {:trigger implicitH[i]} :: 0 <= i < |implicitH| && implicitH[i] >= 0 && !IsSpecialNumber(atoms[i].number) ==>
       implicitH[i] == ImplicitHOf(atoms, bonds, vertices, i))
  }
  /** The invariant of a `Molecule`: the edge lists are consistent with
      the bonds, `BondOrders` is no longer than the bond list, and the
      caches are coherent. */
  predicate ValidState(atoms: seq<Atom>, bonds: seq<Bond>, vertices: seq<seq<int>>, bondOrders: seq<int>,
                       connectivity: seq<int>, implicitH: seq<int>)
  {
    WellFormed(atoms, bonds, vertices) && |bondOrders| <= |bonds| &&
    CachesCoherent(atoms, bonds, vertices, connectivity, implicitH)
  }

  /** `FlipBond`'s edit keeps the molecule invariant. */
  lemma FlipKeepsValid(atoms: seq<Atom>, bonds: seq<Bond>, vertices: seq<seq<int>>, bondOrders: seq<int>,
                       conn: seq<int>, implH: seq<int>, parent: int, from: int, to: int, i: int)
    requires ValidState(atoms, bonds, vertices, bondOrders, conn, implH)
    requires 0 <= i < |bonds| && Joins(bonds[i], parent, from) && 0 <= to < |atoms|
    ensures var v := vertices[from := RemoveFirst(vertices[from], i)];
            ValidState(atoms, bonds[i := Rewire(bonds[i], parent, from, to)], v[to := v[to] + [i]], bondOrders,
                       CacheInvalidate(CacheInvalidate(CacheInvalidate(conn, parent), from), to),
                       CacheInvalidate(CacheInvalidate(CacheInvalidate(implH, parent), from), to))
  {
    EdgeListExact(atoms, bonds, vertices, from, i);
    FlipKeepsWellFormed(atoms, bonds, vertices, parent, from, to, i);
    FlipKeepsCoherent(atoms, bonds, vertices, conn, implH, parent, from, to, i);
  }

  // ---------------------------------------------------------------------
  // How each edit keeps the graph invariant and the caches coherent

  /** Dropping one atom's entries keeps the caches coherent. */
  lemma InvalidateKeepsCoherent(atoms: seq<Atom>, bonds: seq<Bond>, vertices: seq<seq<int>>,
                                conn: seq<int>, implH: seq<int>, idx: int)
    requires |vertices| == |atoms| && CachesCoherent(atoms, bonds, vertices, conn, implH)
    ensures CachesCoherent(atoms, bonds, vertices, CacheInvalidate(conn, idx), CacheInvalidate(implH, idx))
  {
  }

  /** An appended atom with an empty edge list changes no other atom's view. */
  lemma AddAtomKeepsValid(atoms: seq<Atom>, bonds: seq<Bond>, vertices: seq<seq<int>>,
                          conn: seq<int>, implH: seq<int>, a: Atom)
    requires WellFormed(atoms, bonds, vertices) && CachesCoherent(atoms, bonds, vertices, conn, implH)
    ensures WellFormed(atoms + [a], bonds, vertices + [[]])
    ensures CachesCoherent(atoms + [a], bonds, vertices + [[]], conn, implH)
  {
    var atoms2, vertices2 := atoms + [a], vertices + [[]];
    assert forall i :: 0 <= i < |vertices| ==> vertices2[i] == vertices[i];
    assert forall i :: 0 <= i < |atoms| ==> atoms2[i] == atoms[i];
    forall x, i | 0 <= x < |vertices2| && 0 <= i < |bonds|
      ensures multiset(vertices2[x])[i] == Incidence(bonds[i], x)
    {
      if x == |vertices| {
        assert Incidence(bonds[i], x) == 0;
      }
    }
  }

  /** Listing bond `idx` on both endpoints of `b` adds it to atom `a`'s
      list once per time `a` is an endpoint. */
  lemma AddBondListAt(vertices: seq<seq<int>>, b: Bond, idx: int, v2: seq<seq<int>>, a: int)
    requires 0 <= b.beg < |vertices| && 0 <= b.end < |vertices| && 0 <= a < |vertices|
    requires v2 == vertices[b.beg := vertices[b.beg] + [idx]][b.end := vertices[b.beg := vertices[b.beg] + [idx]][b.end] + [idx]]
    ensures multiset(v2[a]) == multiset(vertices[a]) + multiset(seq(Incidence(b, a), _ => idx))
  {
    if a == b.beg && a == b.end {
      assert v2[a] == vertices[a] + [idx] + [idx];
      assert seq(Incidence(b, a), _ => idx) == [idx, idx];
    } else if a == b.beg {
      assert v2[a] == vertices[a] + [idx];
      assert seq(Incidence(b, a), _ => idx) == [idx];
    } else if a == b.end {
      assert v2[a] == vertices[a] + [idx];
      assert seq(Incidence(b, a), _ => idx) == [idx];
    } else {
      assert seq(Incidence(b, a), _ => idx) == [];
    }
  }

  /** A new bond listed on both endpoints keeps the graph well formed. */
  lemma AddBondKeepsWellFormed(atoms: seq<Atom>, bonds: seq<Bond>, vertices: seq<seq<int>>, b: Bond)
    requires WellFormed(atoms, bonds, vertices)
    requires 0 <= b.beg < |atoms| && 0 <= b.end < |atoms|
    ensures var v := vertices[b.beg := vertices[b.beg] + [|bonds|]];
            WellFormed(atoms, bonds + [b], v[b.end := v[b.end] + [|bonds|]])
  {
    var idx := |bonds|;
    var bonds2 := bonds + [b];
    var v1 := vertices[b.beg := vertices[b.beg] + [idx]];
    var v2 := v1[b.end := v1[b.end] + [idx]];
    forall a | 0 <= a < |v2|
      ensures multiset(v2[a]) == multiset(vertices[a]) + multiset(seq(Incidence(b, a), _ => idx))
    {
      AddBondListAt(vertices, b, idx, v2, a);
    }
    forall a, k | 0 <= a < |v2| && 0 <= k < |v2[a]|
      ensures 0 <= v2[a][k] < |bonds2|
    {
      AddBondEntryInRange(vertices, bonds, b, v2[a], a, k);
    }
    forall a, i | 0 <= a < |v2| && 0 <= i < |bonds2|
      ensures multiset(v2[a])[i] == Incidence(bonds2[i], a)
    {
      AddBondIncidence(vertices, bonds, b, v2[a], a, i);
    }
  }

  lemma AddBondEntryInRange(vertices: seq<seq<int>>, bonds: seq<Bond>, b: Bond, list: seq<int>, a: int, k: int)
    requires EdgesInRange(vertices, bonds) && 0 <= a < |vertices| && 0 <= k < |list|
    requires multiset(list) == multiset(vertices[a]) + multiset(seq(Incidence(b, a), _ => |bonds|))
    ensures 0 <= list[k] <= |bonds|
  {
    assert list[k] in multiset(list);
    if list[k] in multiset(vertices[a]) {
      var j :| 0 <= j < |vertices[a]| && vertices[a][j] == list[k];
    }
  }

  lemma AddBondIncidence(vertices: seq<seq<int>>, bonds: seq<Bond>, b: Bond, list: seq<int>, a: int, i: int)
    requires EdgesInRange(vertices, bonds) && IncidenceExact(vertices, bonds) && 0 <= a < |vertices| && 0 <= i <= |bonds|
    requires multiset(list) == multiset(vertices[a]) + multiset(seq(Incidence(b, a), _ => |bonds|))
    ensures multiset(list)[i] == Incidence((bonds + [b])[i], a)
  {
    if i < |bonds| {
      assert (bonds + [b])[i] == bonds[i];
      assert i !in multiset(seq(Incidence(b, a), _ => |bonds|));
    } else {
      assert |bonds| !in multiset(vertices[a]);
      var extra := seq(Incidence(b, a), _ => |bonds|);
      if Incidence(b, a) == 0 {
        assert extra == [];
      } else if Incidence(b, a) == 1 {
        assert extra == [|bonds|];
      } else {
        assert extra == [|bonds|, |bonds|];
      }
    }
  }

  /** Replacing one atom keeps the caches coherent when the atom's entries
      are dropped, when its element and charge are unchanged, or when it
      becomes an atom the implicit-H rule does not cover. */
  lemma AtomEditKeepsCoherent(atoms: seq<Atom>, bonds: seq<Bond>, vertices: seq<seq<int>>,
                              conn: seq<int>, implH: seq<int>, idx: int, a: Atom, dropped: bool)
    requires |vertices| == |atoms| && 0 <= idx < |atoms| && CachesCoherent(atoms, bonds, vertices, conn, implH)
    requires !dropped ==> IsSpecialNumber(a.number) ||
                          (a.number == atoms[idx].number && a.charge == atoms[idx].charge)
    ensures var c := if dropped then CacheInvalidate(conn, idx) else conn;
            var h := if dropped then CacheInvalidate(implH, idx) else implH;
            CachesCoherent(atoms[idx := a], bonds, vertices, c, h)
  {
  }

  /** Replacing one bond by one with the same endpoints keeps the graph well
      formed; the caches stay coherent when the order is kept, or when both
      endpoints' entries are dropped. */
  lemma BondEditKeepsValid(atoms: seq<Atom>, bonds: seq<Bond>, vertices: seq<seq<int>>,
                           conn: seq<int>, implH: seq<int>, idx: int, b: Bond)
    requires WellFormed(atoms, bonds, vertices) && CachesCoherent(atoms, bonds, vertices, conn, implH)
    requires 0 <= idx < |bonds| && b.beg == bonds[idx].beg && b.end == bonds[idx].end
    ensures WellFormed(atoms, bonds[idx := b], vertices)
    ensures b.order == bonds[idx].order ==> CachesCoherent(atoms, bonds[idx := b], vertices, conn, implH)
    ensures CachesCoherent(atoms, bonds[idx := b], vertices,
                           CacheInvalidate(CacheInvalidate(conn, b.beg), b.end),
                           CacheInvalidate(CacheInvalidate(implH, b.beg), b.end))
  {
    var bonds2 := bonds[idx := b];
    forall a | 0 <= a < |atoms| && (b.order == bonds[idx].order || (a != b.beg && a != b.end))
      ensures AtomConnectivity(bonds2, vertices, a) == AtomConnectivity(bonds, vertices, a)
    {
      forall k | 0 <= k < |vertices[a]|
        ensures BondOrderOf(bonds2, vertices[a][k]) == BondOrderOf(bonds, vertices[a][k])
      {
        if vertices[a][k] == idx {
          EdgeListExact(atoms, bonds, vertices, a, idx);
        }
      }
      EdgesConnectivitySameOrders(bonds2, bonds, vertices[a]);
    }
    forall a, i | 0 <= a < |vertices| && 0 <= i < |bonds2|
      ensures multiset(vertices[a])[i] == Incidence(bonds2[i], a)
    {
      assert Incidence(bonds2[i], a) == Incidence(bonds[i], a);
    }
  }

  /** After `FlipBond` moves bond `i`, every atom other than the three
      involved sees the same edge list with the same orders, so dropping
      those three atoms' entries keeps the caches coherent. */
  lemma FlipKeepsCoherent(atoms: seq<Atom>, bonds: seq<Bond>, vertices: seq<seq<int>>,
                          conn: seq<int>, implH: seq<int>, parent: int, from: int, to: int, i: int)
    requires |vertices| == |atoms| && CachesCoherent(atoms, bonds, vertices, conn, implH)
    requires 0 <= i < |bonds| && 0 <= from < |atoms| && 0 <= to < |atoms|
    ensures var b2 := bonds[i := Rewire(bonds[i], parent, from, to)];
            var v := vertices[from := RemoveFirst(vertices[from], i)];
            var v2 := v[to := v[to] + [i]];
            CachesCoherent(atoms, b2, v2,
                           CacheInvalidate(CacheInvalidate(CacheInvalidate(conn, parent), from), to),
                           CacheInvalidate(CacheInvalidate(CacheInvalidate(implH, parent), from), to))
  {
    var b2 := bonds[i := Rewire(bonds[i], parent, from, to)];
    var v := vertices[from := RemoveFirst(vertices[from], i)];
    var v2 := v[to := v[to] + [i]];
    forall a | 0 <= a < |atoms| && a != from && a != to
      ensures AtomConnectivity(b2, v2, a) == AtomConnectivity(bonds, vertices, a)
    {
      assert v2[a] == vertices[a];
      EdgesConnectivitySameOrders(b2, bonds, vertices[a]);
    }
  }

  /** Storing an atom's connectivity keeps the caches coherent. */
  lemma StoreConnectivityKeepsCoherent(atoms: seq<Atom>, bonds: seq<Bond>, vertices: seq<seq<int>>,
                                       conn: seq<int>, implH: seq<int>, idx: int)
    requires |vertices| == |atoms| && 0 <= idx < |atoms| && CachesCoherent(atoms, bonds, vertices, conn, implH)
    ensures CachesCoherent(atoms, bonds, vertices, CacheStore(conn, idx, AtomConnectivity(bonds, vertices, idx)), implH)
  {
  }

  /** Storing an atom's implicit hydrogens keeps the caches coherent. */
  lemma StoreImplicitHKeepsCoherent(atoms: seq<Atom>, bonds: seq<Bond>, vertices: seq<seq<int>>,
                                    conn: seq<int>, implH: seq<int>, idx: int)
    requires |vertices| == |atoms| && 0 <= idx < |atoms| && CachesCoherent(atoms, bonds, vertices, conn, implH)
    requires !IsSpecialNumber(atoms[idx].number)
    ensures CachesCoherent(atoms, bonds, vertices, conn, CacheStore(implH, idx, ImplicitHOf(atoms, bonds, vertices, idx)))
  {
  }

  // ---------------------------------------------------------------------
  // The mutable molecule

  class Molecule {
    var atoms: seq<Atom>
    var bonds: seq<Bond>
    var vertices: seq<seq<int>>

    /** Cached copies and per-atom caches; -1 means "not cached". */
    var bondOrders: seq<int>
    var connectivity: seq<int>
    var aromaticity: seq<int>
    var implicitH: seq<int>
    var totalH: seq<int>
    var valence: seq<int>

    var name: string
    var ignoreBadValence: bool
    var aromatized: bool
    var haveXYZ: bool
    var chiralFlag: int

    /** Bumped by every edit that goes through the API. */
    var editRevision: int

    /** The edge lists are consistent with the bonds, and every connectivity
        and implicit-H entry that is cached holds the value it would be
        recomputed to (implicit H only for atoms it can be computed for). */
    predicate Valid()
      reads this`atoms, this`bonds, this`vertices, this`bondOrders, this`connectivity, this`implicitH
    {
      ValidState(atoms, bonds, vertices, bondOrders, connectivity, implicitH)
    }

    /** `NewMolecule`: empty, chiral flag unset. */
    constructor ()
      ensures Valid()
      ensures atoms == [] && bonds == [] && vertices == [] && bondOrders == []
      ensures connectivity == [] && aromaticity == [] && implicitH == [] && totalH == [] && valence == []
      ensures name == "" && !ignoreBadValence && !aromatized && !haveXYZ
      ensures chiralFlag == -1 && editRevision == 0
    {
      atoms, bonds, vertices, bondOrders := [], [], [], [];
      connectivity, aromaticity, implicitH, totalH, valence := [], [], [], [], [];
      name := "";
      ignoreBadValence, aromatized, haveXYZ := false, false, false;
      chiralFlag := -1;
      editRevision := 0;
    }

    /** `Clone`: atoms, bonds, edge lists and flags are copied into a new
        molecule; the caches and `BondOrders` are not, and the revision
        starts again at 0. */
    method Clone() returns (c: Molecule)
      requires Valid()
      ensures fresh(c) && c.Valid()
      ensures c.atoms == atoms && c.bonds == bonds && c.vertices == vertices
      ensures c.bondOrders == [] && c.connectivity == [] && c.aromaticity == []
      ensures c.implicitH == [] && c.totalH == [] && c.valence == []
      ensures c.name == name && c.ignoreBadValence == ignoreBadValence && c.aromatized == aromatized
      ensures c.haveXYZ == haveXYZ && c.chiralFlag == chiralFlag && c.editRevision == 0
    {
      c := new Molecule();
      c.CopyGraph(atoms, bonds, vertices);
      c.CopyMetadata(name, ignoreBadValence, aromatized, haveXYZ, chiralFlag);
    }

    method CopyGraph(a: seq<Atom>, b: seq<Bond>, v: seq<seq<int>>)
      modifies this`atoms, this`bonds, this`vertices
      ensures atoms == a && bonds == b && vertices == v
    {
      atoms, bonds, vertices := a, b, v;
    }

    method CopyMetadata(n: string, ignore: bool, arom: bool, xyz: bool, chiral: int)
      modifies this`name, this`ignoreBadValence, this`aromatized, this`haveXYZ, this`chiralFlag
      ensures name == n && ignoreBadValence == ignore && aromatized == arom && haveXYZ == xyz && chiralFlag == chiral
    {
      name, ignoreBadValence, aromatized, haveXYZ, chiralFlag := n, ignore, arom, xyz, chiral;
    }

    method UpdateEditRevision()
      modifies this`editRevision
      ensures editRevision == old(editRevision) + 1
    {
      editRevision := editRevision + 1;
    }

    /** `Clear`: no atoms, bonds or caches, default flags, and one more
        revision. */
    method Clear()
      modifies this
      ensures Valid()
      ensures atoms == [] && bonds == [] && vertices == [] && bondOrders == []
      ensures connectivity == [] && aromaticity == [] && implicitH == [] && totalH == [] && valence == []
      ensures name == "" && !aromatized && !ignoreBadValence && !haveXYZ && chiralFlag == -1
      ensures editRevision == old(editRevision) + 1
    {
      CopyGraph([], [], []);
      bondOrders := [];
      InvalidateCache();
      CopyMetadata("", false, false, false, -1);
      UpdateEditRevision();
    }

    /** `AddAtom`: appends an atom with an empty edge list and returns its
        index, the old atom count. */
    method AddAtom(number: int) returns (idx: int)
      requires Valid()
      modifies this`atoms, this`vertices, this`editRevision
      ensures Valid()
      ensures idx == |old(atoms)|
      ensures atoms == old(atoms) + [NewAtom(number)] && vertices == old(vertices) + [[]]
      ensures editRevision == old(editRevision) + 1
    {
      AddAtomKeepsValid(atoms, bonds, vertices, connectivity, implicitH, NewAtom(number));
      idx := |atoms|;
      atoms := atoms + [NewAtom(number)];
      vertices := vertices + [[]];
      UpdateEditRevision();
    }

    /** `AddBond`: appends the bond and its order, lists it on both
        endpoints, and drops every cache. Go panics on an endpoint that is
        not an atom; here that is a precondition. */
    method AddBond(beg: int, end: int, order: int) returns (idx: int)
      requires Valid()
      requires 0 <= beg < |atoms| && 0 <= end < |atoms|
      modifies this`bonds, this`bondOrders, this`vertices, this`editRevision
      modifies this`connectivity, this`aromaticity, this`implicitH, this`totalH, this`valence, this`aromatized
      ensures Valid()
      ensures idx == |old(bonds)|
      ensures bonds == old(bonds) + [Bond(beg, end, order, 0)]
      ensures bondOrders == old(bondOrders) + [order]
      ensures var v := old(vertices)[beg := old(vertices)[beg] + [idx]];
              vertices == v[end := v[end] + [idx]]
      ensures connectivity == [] && aromaticity == [] && implicitH == [] && totalH == [] && valence == []
      ensures !aromatized && editRevision == old(editRevision) + 1
    {
      idx := |bonds|;
      AppendBond(Bond(beg, end, order, 0));
      InvalidateCache();
      UpdateEditRevision();
    }

    method AppendBond(b: Bond)
      requires WellFormed(atoms, bonds, vertices) && |bondOrders| <= |bonds|
      requires 0 <= b.beg < |atoms| && 0 <= b.end < |atoms|
      modifies this`bonds, this`bondOrders, this`vertices
      ensures WellFormed(atoms, bonds, vertices) && |bondOrders| <= |bonds|
      ensures bonds == old(bonds) + [b] && bondOrders == old(bondOrders) + [b.order]
      ensures var v := old(vertices)[b.beg := old(vertices)[b.beg] + [|old(bonds)|]];
              vertices == v[b.end := v[b.end] + [|old(bonds)|]]
    {
      AddBondKeepsWellFormed(atoms, bonds, vertices, b);
      var idx := |bonds|;
      var v1 := vertices[b.beg := vertices[b.beg] + [idx]];
      vertices := v1[b.end := v1[b.end] + [idx]];
      bonds := bonds + [b];
      bondOrders := bondOrders + [b.order];
    }

    /** `invalidateCache`: every per-atom cache is dropped. */
    method InvalidateCache()
      modifies this`connectivity, this`aromaticity, this`implicitH, this`totalH, this`valence, this`aromatized
      ensures connectivity == [] && aromaticity == [] && implicitH == [] && totalH == [] && valence == []
      ensures !aromatized
    {
      connectivity, aromaticity, implicitH, totalH, valence := [], [], [], [], [];
      aromatized := false;
    }

    /** `invalidateAtomCache`: the implicit-H, total-H, connectivity and
        valence entries of one atom are marked not cached. */
    method InvalidateAtomCache(idx: int)
      modifies this`implicitH, this`totalH, this`connectivity, this`valence
      ensures implicitH == CacheInvalidate(old(implicitH), idx)
      ensures totalH == CacheInvalidate(old(totalH), idx)
      ensures connectivity == CacheInvalidate(old(connectivity), idx)
      ensures valence == CacheInvalidate(old(valence), idx)
    {
      implicitH := CacheInvalidate(implicitH, idx);
      totalH := CacheInvalidate(totalH, idx);
      connectivity := CacheInvalidate(connectivity, idx);
      valence := CacheInvalidate(valence, idx);
    }

    /** The search of `FlipBond`: the first bond joining `x` and `y`, or -1. */
    method FindJoining(x: int, y: int) returns (r: int)
      ensures r == FirstJoining(bonds, x, y)
    {
      r := -1;
      var i := 0;
      while i < |bonds|
        invariant 0 <= i <= |bonds|
        invariant forall j :: 0 <= j < i ==> !Joins(bonds[j], x, y)
      {
        if (bonds[i].beg == x && bonds[i].end == y) || (bonds[i].beg == y && bonds[i].end == x) {
          return i;
        }
        i := i + 1;
      }
    }

    /** `FlipBond`: the first bond joining `atomParent` and `atomFrom` is
        moved so that its `atomFrom` end becomes `atomTo`; the edge lists
        follow, the three atoms' caches are invalidated and the aromaticity
        cache is dropped. Without such a bond it fails and changes nothing.
        Once the bond is found Go indexes the edge list of `atomTo`
        unchecked, hence the precondition on that case. */
    method FlipBond(atomParent: int, atomFrom: int, atomTo: int) returns (r: Outcome)
      requires Valid()
      requires Connected(bonds, atomParent, atomFrom) ==> 0 <= atomTo < |atoms|
      modifies this`bonds, this`vertices, this`connectivity, this`implicitH, this`totalH
      modifies this`aromaticity, this`aromatized
      ensures Valid()
      ensures r.Fail? <==> !Connected(old(bonds), atomParent, atomFrom)
      ensures r.Fail? ==> unchanged(this)
      ensures r.Pass? ==>
                var i := FirstJoining(old(bonds), atomParent, atomFrom);
                var v := old(vertices)[atomFrom := RemoveFirst(old(vertices)[atomFrom], i)];
                bonds == old(bonds)[i := Rewire(old(bonds)[i], atomParent, atomFrom, atomTo)] &&
                vertices == v[atomTo := v[atomTo] + [i]] &&
                connectivity == CacheInvalidate(CacheInvalidate(CacheInvalidate(old(connectivity), atomParent), atomFrom), atomTo) &&
                implicitH == CacheInvalidate(CacheInvalidate(CacheInvalidate(old(implicitH), atomParent), atomFrom), atomTo) &&
                totalH == CacheInvalidate(CacheInvalidate(CacheInvalidate(old(totalH), atomParent), atomFrom), atomTo) &&
                aromaticity == [] && !aromatized
    {
      var bondIdx := FindJoining(atomParent, atomFrom);
      if bondIdx == -1 {
        return Fail("no bond between atoms");
      }
      FlipAt(bondIdx, atomParent, atomFrom, atomTo);
      r := Pass;
    }

    /** The edit `FlipBond` makes once it has found bond `i`. */
    method FlipAt(i: int, parent: int, from: int, to: int)
      requires Valid()
      requires 0 <= i < |bonds| && Joins(bonds[i], parent, from) && 0 <= to < |atoms|
      modifies this`bonds, this`vertices, this`connectivity, this`implicitH, this`totalH
      modifies this`aromaticity, this`aromatized
      ensures Valid()
      ensures var v := old(vertices)[from := RemoveFirst(old(vertices)[from], i)];
              bonds == old(bonds)[i := Rewire(old(bonds)[i], parent, from, to)] &&
              vertices == v[to := v[to] + [i]]
      ensures connectivity == CacheInvalidate(CacheInvalidate(CacheInvalidate(old(connectivity), parent), from), to)
      ensures implicitH == CacheInvalidate(CacheInvalidate(CacheInvalidate(old(implicitH), parent), from), to)
      ensures totalH == CacheInvalidate(CacheInvalidate(CacheInvalidate(old(totalH), parent), from), to)
      ensures aromaticity == [] && !aromatized
    {
      FlipKeepsValid(atoms, bonds, vertices, bondOrders, connectivity, implicitH, parent, from, to, i);
      var b2 := bonds[i := Rewire(bonds[i], parent, from, to)];
      var v1 := vertices[from := RemoveFirst(vertices[from], i)];
      var v2 := v1[to := v1[to] + [i]];
      var c2 := CacheInvalidate(CacheInvalidate(CacheInvalidate(connectivity, parent), from), to);
      var h2 := CacheInvalidate(CacheInvalidate(CacheInvalidate(implicitH, parent), from), to);
      var t2 := CacheInvalidate(CacheInvalidate(CacheInvalidate(totalH, parent), from), to);
      SetFlipped(b2, v2, c2, h2, t2);
    }

    method SetFlipped(b: seq<Bond>, v: seq<seq<int>>, c: seq<int>, h: seq<int>, t: seq<int>)
      modifies this`bonds, this`vertices, this`connectivity, this`implicitH, this`totalH
      modifies this`aromaticity, this`aromatized
      ensures bonds == b && vertices == v && connectivity == c && implicitH == h && totalH == t
      ensures aromaticity == [] && !aromatized
    {
      bonds, vertices, connectivity, implicitH, totalH := b, v, c, h, t;
      aromaticity, aromatized := [], false;
    }

    /** `SetAtomCharge`: out-of-range indices change nothing; otherwise the
        charge is set, the atom's caches are invalidated and the revision
        moves on. */
    method SetAtomCharge(idx: int, charge: int)
      requires Valid()
      modifies this`atoms, this`implicitH, this`totalH, this`connectivity, this`valence, this`editRevision
      ensures Valid()
      ensures !(0 <= idx < |old(atoms)|) ==> unchanged(this)
      ensures 0 <= idx < |old(atoms)| ==>
                atoms == old(atoms)[idx := old(atoms)[idx].(charge := charge)] &&
                implicitH == CacheInvalidate(old(implicitH), idx) && totalH == CacheInvalidate(old(totalH), idx) &&
                connectivity == CacheInvalidate(old(connectivity), idx) && valence == CacheInvalidate(old(valence), idx) &&
                editRevision == old(editRevision) + 1
    {
      if idx < 0 || idx >= |atoms| {
        return;
      }
      var a := atoms[idx].(charge := charge);
      AtomEditKeepsCoherent(atoms, bonds, vertices, connectivity, implicitH, idx, a, true);
      atoms := atoms[idx := a];
      InvalidateAtomCache(idx);
      UpdateEditRevision();
    }

    /** `SetAtomIsotope`: only the isotope and the revision change. */
    method SetAtomIsotope(idx: int, isotope: int)
      requires Valid()
      modifies this`atoms, this`editRevision
      ensures Valid()
      ensures !(0 <= idx < |old(atoms)|) ==> unchanged(this)
      ensures 0 <= idx < |old(atoms)| ==>
                atoms == old(atoms)[idx := old(atoms)[idx].(isotope := isotope)] &&
                editRevision == old(editRevision) + 1
    {
      if idx < 0 || idx >= |atoms| {
        return;
      }
      var a := atoms[idx].(isotope := isotope);
      AtomEditKeepsCoherent(atoms, bonds, vertices, connectivity, implicitH, idx, a, false);
      atoms := atoms[idx := a];
      UpdateEditRevision();
    }

    /** `SetAtomRadical`: like `SetAtomCharge`, for the radical state. */
    method SetAtomRadical(idx: int, radical: int)
      requires Valid()
      modifies this`atoms, this`implicitH, this`totalH, this`connectivity, this`valence, this`editRevision
      ensures Valid()
      ensures !(0 <= idx < |old(atoms)|) ==> unchanged(this)
      ensures 0 <= idx < |old(atoms)| ==>
                atoms == old(atoms)[idx := old(atoms)[idx].(radical := radical)] &&
                implicitH == CacheInvalidate(old(implicitH), idx) && totalH == CacheInvalidate(old(totalH), idx) &&
                connectivity == CacheInvalidate(old(connectivity), idx) && valence == CacheInvalidate(old(valence), idx) &&
                editRevision == old(editRevision) + 1
    {
      if idx < 0 || idx >= |atoms| {
        return;
      }
      var a := atoms[idx].(radical := radical);
      AtomEditKeepsCoherent(atoms, bonds, vertices, connectivity, implicitH, idx, a, true);
      atoms := atoms[idx := a];
      InvalidateAtomCache(idx);
      UpdateEditRevision();
    }

    /** `SetPseudoAtom`: the atom becomes a pseudo atom with the given label.
        Go indexes the atom unchecked and touches neither the caches nor the
        revision. */
    method SetPseudoAtom(idx: int, text: string)
      requires Valid() && 0 <= idx < |atoms|
      modifies this`atoms
      ensures Valid()
      ensures atoms == old(atoms)[idx := old(atoms)[idx].(number := Elements.ElemPseudo, pseudoAtomValue := text)]
    {
      var a := atoms[idx].(number := Elements.ElemPseudo, pseudoAtomValue := text);
      AtomEditKeepsCoherent(atoms, bonds, vertices, connectivity, implicitH, idx, a, false);
      atoms := atoms[idx := a];
    }

    /** `SetAtomXYZ`: coordinates are not part of the model; what remains is
        that storing them on an existing atom raises `HaveXYZ` and bumps the
        revision, and an out-of-range index changes nothing. */
    method SetAtomXYZ(idx: int)
      modifies this`haveXYZ, this`editRevision
      ensures !(0 <= idx < |atoms|) ==> haveXYZ == old(haveXYZ) && editRevision == old(editRevision)
      ensures 0 <= idx < |atoms| ==> haveXYZ && editRevision == old(editRevision) + 1
    {
      if idx < 0 || idx >= |atoms| {
        return;
      }
      haveXYZ := true;
      UpdateEditRevision();
    }

    /** `SetAtomXY`: as `SetAtomXYZ` for the 2D position, which leaves
        `HaveXYZ` alone. */
    method SetAtomXY(idx: int)
      modifies this`editRevision
      ensures !(0 <= idx < |atoms|) ==> editRevision == old(editRevision)
      ensures 0 <= idx < |atoms| ==> editRevision == old(editRevision) + 1
    {
      if idx < 0 || idx >= |atoms| {
        return;
      }
      UpdateEditRevision();
    }

    /** `GetPseudoAtom`: the label of a pseudo atom, an error for any other. */
    function GetPseudoAtom(idx: int): (r: Result<string>)
      reads this
      requires 0 <= idx < |atoms|
      ensures r.Ok? <==> atoms[idx].number == Elements.ElemPseudo
      ensures r.Ok? ==> r.value == atoms[idx].pseudoAtomValue
    {
      if atoms[idx].number != Elements.ElemPseudo then Err("atom is not a pseudoatom")
      else Ok(atoms[idx].pseudoAtomValue)
    }

    /** `GetAtomNumber`: -1 for an index that is not an atom. */
    function GetAtomNumber(idx: int): (n: int)
      reads this
      ensures !(0 <= idx < |atoms|) ==> n == -1
      ensures 0 <= idx < |atoms| ==> n == atoms[idx].number
    {
      if idx < 0 || idx >= |atoms| then -1 else atoms[idx].number
    }

    /** `SetBondOrder`: sets the order in the bond and, when it reaches that
        far, in `BondOrders`; invalidates both endpoints and clears
        `Aromatized`. Out-of-range indices change nothing. */
    method SetBondOrder(idx: int, order: int)
      requires Valid()
      modifies this`bonds, this`bondOrders, this`implicitH, this`totalH, this`connectivity, this`valence
      modifies this`aromatized, this`editRevision
      ensures Valid()
      ensures !(0 <= idx < |old(bonds)|) ==> unchanged(this)
      ensures 0 <= idx < |old(bonds)| ==>
                var b := old(bonds)[idx];
                bonds == old(bonds)[idx := b.(order := order)] &&
                bondOrders == (if idx < |old(bondOrders)| then old(bondOrders)[idx := order] else old(bondOrders)) &&
                implicitH == CacheInvalidate(CacheInvalidate(old(implicitH), b.beg), b.end) &&
                connectivity == CacheInvalidate(CacheInvalidate(old(connectivity), b.beg), b.end) &&
                totalH == CacheInvalidate(CacheInvalidate(old(totalH), b.beg), b.end) &&
                valence == CacheInvalidate(CacheInvalidate(old(valence), b.beg), b.end) &&
                !aromatized && editRevision == old(editRevision) + 1
    {
      if idx < 0 || idx >= |bonds| {
        return;
      }
      var b := bonds[idx].(order := order);
      BondEditKeepsValid(atoms, bonds, vertices, connectivity, implicitH, idx, b);
      SetBondEntry(idx, b);
      InvalidateAtomCache(b.beg);
      InvalidateAtomCache(b.end);
      aromatized := false;
      UpdateEditRevision();
    }

    method SetBondEntry(idx: int, b: Bond)
      requires 0 <= idx < |bonds| && |bondOrders| <= |bonds|
      modifies this`bonds, this`bondOrders
      ensures bonds == old(bonds)[idx := b] && |bondOrders| <= |bonds|
      ensures bondOrders == (if idx < |old(bondOrders)| then old(bondOrders)[idx := b.order] else old(bondOrders))
    {
      bonds := bonds[idx := b];
      if idx < |bondOrders| {
        bondOrders := bondOrders[idx := b.order];
      }
    }

    /** `GetBondDirection`: 0 for an index that is not a bond. */
    function GetBondDirection(idx: int): (d: int)
      reads this
      ensures !(0 <= idx < |bonds|) ==> d == 0
      ensures 0 <= idx < |bonds| ==> d == bonds[idx].direction
    {
      if idx < 0 || idx >= |bonds| then 0 else bonds[idx].direction
    }

    /** `SetBondDirection`: only the direction and the revision change. */
    method SetBondDirection(idx: int, dir: int)
      requires Valid()
      modifies this`bonds, this`editRevision
      ensures Valid()
      ensures !(0 <= idx < |old(bonds)|) ==> unchanged(this)
      ensures 0 <= idx < |old(bonds)| ==>
                bonds == old(bonds)[idx := old(bonds)[idx].(direction := dir)] &&
                editRevision == old(editRevision) + 1
    {
      if idx < 0 || idx >= |bonds| {
        return;
      }
      var b := bonds[idx].(direction := dir);
      BondEditKeepsValid(atoms, bonds, vertices, connectivity, implicitH, idx, b);
      bonds := bonds[idx := b];
      UpdateEditRevision();
    }

    /** `setBondOrderInternal` as written: only `BondOrders` changes, and the
        bond keeps its order, so `GetBondOrder` (which reads the bond) still
        reports the old order; both endpoints lose their connectivity and
        implicit-H entries, and the aromaticity cache is dropped. Indices
        outside `BondOrders` change nothing. */
    method SetBondOrderInternalAsWritten(bondIdx: int, order: int)
      requires Valid()
      modifies this`bondOrders, this`connectivity, this`implicitH, this`aromaticity, this`aromatized
      ensures Valid()
      ensures !(0 <= bondIdx < |old(bondOrders)|) ==> unchanged(this)
      ensures 0 <= bondIdx < |old(bondOrders)| ==>
                var b := old(bonds)[bondIdx];
                bondOrders == old(bondOrders)[bondIdx := order] &&
                connectivity == CacheInvalidate(CacheInvalidate(old(connectivity), b.beg), b.end) &&
                implicitH == CacheInvalidate(CacheInvalidate(old(implicitH), b.beg), b.end) &&
                aromaticity == [] && !aromatized
      ensures BondOrderOf(bonds, bondIdx) == BondOrderOf(old(bonds), bondIdx)
    {
      if bondIdx < 0 || bondIdx >= |bondOrders| {
        return;
      }
      var e := bonds[bondIdx];
      InvalidateKeepsCoherent(atoms, bonds, vertices, connectivity, implicitH, e.beg);
      InvalidateKeepsCoherent(atoms, bonds, vertices, CacheInvalidate(connectivity, e.beg), CacheInvalidate(implicitH, e.beg), e.end);
      bondOrders := bondOrders[bondIdx := order];
      InvalidateEnds(e.beg, e.end);
    }

    /** `setBondOrderInternal` with the order stored in the bond as well as
        in `BondOrders`, as `SetBondOrder` does, so that `GetBondOrder`
        reports what the aromatiser and dearomatiser wrote. Indices outside
        `BondOrders` change nothing. */
    method SetBondOrderInternal(bondIdx: int, order: int)
      requires Valid()
      modifies this`bonds, this`bondOrders, this`connectivity, this`implicitH, this`aromaticity, this`aromatized
      ensures Valid()
      ensures !(0 <= bondIdx < |old(bondOrders)|) ==> unchanged(this)
      ensures 0 <= bondIdx < |old(bondOrders)| ==>
                var b := old(bonds)[bondIdx];
                bonds == old(bonds)[bondIdx := b.(order := order)] &&
                bondOrders == old(bondOrders)[bondIdx := order] &&
                connectivity == CacheInvalidate(CacheInvalidate(old(connectivity), b.beg), b.end) &&
                implicitH == CacheInvalidate(CacheInvalidate(old(implicitH), b.beg), b.end) &&
                aromaticity == [] && !aromatized
      ensures 0 <= bondIdx < |old(bondOrders)| ==> BondOrderOf(bonds, bondIdx) == order
    {
      if bondIdx < 0 || bondIdx >= |bondOrders| {
        return;
      }
      var b := bonds[bondIdx].(order := order);
      BondEditKeepsValid(atoms, bonds, vertices, connectivity, implicitH, bondIdx, b);
      SetBondEntry(bondIdx, b);
      InvalidateEnds(b.beg, b.end);
    }

    method InvalidateEnds(x: int, y: int)
      modifies this`connectivity, this`implicitH, this`aromaticity, this`aromatized
      ensures connectivity == CacheInvalidate(CacheInvalidate(old(connectivity), x), y)
      ensures implicitH == CacheInvalidate(CacheInvalidate(old(implicitH), x), y)
      ensures aromaticity == [] && !aromatized
    {
      connectivity := CacheInvalidate(CacheInvalidate(connectivity, x), y);
      implicitH := CacheInvalidate(CacheInvalidate(implicitH, x), y);
      aromaticity := [];
      aromatized := false;
    }

    /** `getAtomConnectivityNoImplH`: the cached value when there is one;
        otherwise the scan of the atom's bonds, cached unless it found an
        aromatic bond. */
    method GetAtomConnectivityNoImplH(idx: int) returns (conn: int)
      requires Valid() && 0 <= idx < |atoms|
      modifies this`connectivity
      ensures Valid()
      ensures conn == AtomConnectivity(bonds, vertices, idx)
      ensures connectivity == old(connectivity) ||
              (conn >= 0 && connectivity == CacheStore(old(connectivity), idx, conn))
    {
      if idx < |connectivity| && connectivity[idx] >= 0 {
        return connectivity[idx];
      }
      var edges := vertices[idx];
      conn := 0;
      var k := 0;
      while k < |edges|
        invariant 0 <= k <= |edges|
        invariant conn == EdgesConnectivity(bonds, edges[..k]) && conn >= 0
      {
        assert edges[..k + 1][..k] == edges[..k];
        var order := BondOrderOf(bonds, edges[k]);
        if order == BondAromatic {
          EdgesConnectivityStaysAromatic(bonds, edges, k + 1);
          return -1;
        }
        if order == BondSingle || order == BondDouble || order == BondTriple {
          conn := conn + order;
        }
        k := k + 1;
      }
      assert edges[..k] == edges;
      StoreConnectivityKeepsCoherent(atoms, bonds, vertices, connectivity, implicitH, idx);
      connectivity := CacheStore(connectivity, idx, conn);
    }

    /** `GetImplicitH`: the cached value when there is one, otherwise the
        value of the rule for the atom's element, charge and connectivity,
        which is then cached. Go panics on an uncached pseudo, R-site or
        template atom. */
    method GetImplicitH(idx: int) returns (h: int)
      requires Valid() && 0 <= idx < |atoms|
      requires (idx < |implicitH| && implicitH[idx] >= 0) || !IsSpecialNumber(atoms[idx].number)
      modifies this`connectivity, this`implicitH
      ensures Valid()
      ensures h >= 0
      ensures !IsSpecialNumber(atoms[idx].number) ==> h == ImplicitHOf(atoms, bonds, vertices, idx)
      ensures old(idx < |implicitH| && implicitH[idx] >= 0) ==>
                h == old(implicitH[idx]) && implicitH == old(implicitH) && connectivity == old(connectivity)
      ensures !old(idx < |implicitH| && implicitH[idx] >= 0) ==> implicitH == CacheStore(old(implicitH), idx, h)
      ensures connectivity == old(connectivity) ||
              connectivity == CacheStore(old(connectivity), idx, AtomConnectivity(bonds, vertices, idx))
    {
      if idx < |implicitH| && implicitH[idx] >= 0 {
        return implicitH[idx];
      }
      var atom := atoms[idx];
      var conn := GetAtomConnectivityNoImplH(idx);
      h := ImplicitHydrogens(atom.number, atom.charge, conn, |vertices[idx]|);
      StoreImplicitHKeepsCoherent(atoms, bonds, vertices, connectivity, implicitH, idx);
      implicitH := CacheStore(implicitH, idx, h);
    }

    /** `GetAtomConnectivity`: bonds' orders plus implicit hydrogens. */
    method GetAtomConnectivity(idx: int) returns (c: int)
      requires Valid() && 0 <= idx < |atoms| && !IsSpecialNumber(atoms[idx].number)
      modifies this`connectivity, this`implicitH
      ensures Valid()
      ensures c == AtomConnectivity(bonds, vertices, idx) + ImplicitHOf(atoms, bonds, vertices, idx)
    {
      var conn := GetAtomConnectivityNoImplH(idx);
      var h := GetImplicitH(idx);
      c := conn + h;
    }

    /** `GetAtomAromaticity`: the cached value when there is one, otherwise
        aromatic exactly when one of the atom's bonds is aromatic, cached. */
    method GetAtomAromaticity(idx: int) returns (r: int)
      requires Valid() && 0 <= idx < |atoms|
      modifies this`aromaticity
      ensures Valid()
      ensures old(idx < |aromaticity| && aromaticity[idx] >= 0) ==>
                r == old(aromaticity[idx]) && aromaticity == old(aromaticity)
      ensures !old(idx < |aromaticity| && aromaticity[idx] >= 0) ==>
                r == (if HasAromaticEdge(bonds, vertices[idx]) then AtomAromatic else AtomAliphatic) &&
                aromaticity == CacheStore(old(aromaticity), idx, r)
    {
      if idx < |aromaticity| && aromaticity[idx] >= 0 {
        return aromaticity[idx];
      }
      var edges := vertices[idx];
      var k := 0;
      while k < |edges|
        invariant 0 <= k <= |edges|
        invariant forall j :: 0 <= j < k ==> BondOrderOf(bonds, edges[j]) != BondAromatic
      {
        if BondOrderOf(bonds, edges[k]) == BondAromatic {
          aromaticity := CacheStore(aromaticity, idx, AtomAromatic);
          return AtomAromatic;
        }
        k := k + 1;
      }
      aromaticity := CacheStore(aromaticity, idx, AtomAliphatic);
      r := AtomAliphatic;
    }

    /** `GetNeighbors`: the atoms across the bonds of `atomIdx`, in edge-list
        order; exactly the atoms some bond joins to it. Empty for an index
        that is not an atom. */
    method GetNeighbors(atomIdx: int) returns (ns: seq<int>)
      requires Valid()
      ensures !(0 <= atomIdx < |atoms|) ==> ns == []
      ensures 0 <= atomIdx < |atoms| ==> |ns| == |vertices[atomIdx]|
      ensures forall k :: 0 <= k < |ns| ==> 0 <= ns[k] < |atoms| && Connected(bonds, atomIdx, ns[k])
      ensures 0 <= atomIdx < |atoms| ==> forall x :: Connected(bonds, atomIdx, x) ==> x in ns
      ensures 0 <= atomIdx < |atoms| ==> ns == NeighborList(bonds, vertices[atomIdx], atomIdx)
    {
      if atomIdx < 0 || atomIdx >= |vertices| {
        return [];
      }
      var edges := vertices[atomIdx];
      ns := [];
      var k := 0;
      while k < |edges|
        invariant 0 <= k <= |edges| && |ns| == k
        invariant forall j :: 0 <= j < k ==> ns[j] == OtherEnd(bonds[edges[j]], atomIdx)
      {
        var bond := bonds[edges[k]];
        if bond.beg == atomIdx {
          ns := ns + [bond.end];
        } else {
          ns := ns + [bond.beg];
        }
        k := k + 1;
      }
      forall j | 0 <= j < |ns|
        ensures 0 <= ns[j] < |atoms| && Connected(bonds, atomIdx, ns[j])
      {
        var i := edges[j];
        EdgeListExact(atoms, bonds, vertices, atomIdx, i);
        assert Joins(bonds[i], atomIdx, ns[j]);
      }
      forall x | Connected(bonds, atomIdx, x)
        ensures x in ns
      {
        var i :| 0 <= i < |bonds| && Joins(bonds[i], atomIdx, x);
        EdgeListExact(atoms, bonds, vertices, atomIdx, i);
        var j :| 0 <= j < |edges| && edges[j] == i;
        assert ns[j] == x;
      }
    }

    /** `GetNeighborBonds`: a copy of the edge list; its entries are exactly
        the bonds with `atomIdx` as an endpoint. */
    function GetNeighborBonds(atomIdx: int): (r: seq<int>)
      reads this
      requires Valid()
      ensures !(0 <= atomIdx < |atoms|) ==> r == []
      ensures 0 <= atomIdx < |atoms| ==>
                forall i :: i in r <==> 0 <= i < |bonds| && (bonds[i].beg == atomIdx || bonds[i].end == atomIdx)
    {
      if atomIdx < 0 || atomIdx >= |vertices| then []
      else
        assert forall i :: 0 <= i < |bonds| ==> (i in vertices[atomIdx] <==> bonds[i].beg == atomIdx || bonds[i].end == atomIdx) by {
          forall i | 0 <= i < |bonds| ensures i in vertices[atomIdx] <==> bonds[i].beg == atomIdx || bonds[i].end == atomIdx {
            EdgeListExact(atoms, bonds, vertices, atomIdx, i);
          }
        }
        vertices[atomIdx]
    }

    /** `GetOtherBondEnd`: the endpoint across the bond, or -1 for an index
        that is not a bond or an atom that is not on it. */
    function GetOtherBondEnd(bondIdx: int, atomIdx: int): (r: int)
      reads this
      ensures 0 <= bondIdx < |bonds| && Incidence(bonds[bondIdx], atomIdx) > 0 ==> Joins(bonds[bondIdx], atomIdx, r)
      ensures !(0 <= bondIdx < |bonds|) || Incidence(bonds[bondIdx], atomIdx) == 0 ==> r == -1
    {
      if bondIdx < 0 || bondIdx >= |bonds| then -1
      else if bonds[bondIdx].beg == atomIdx then bonds[bondIdx].end
      else if bonds[bondIdx].end == atomIdx then bonds[bondIdx].beg
      else -1
    }

    /** Crossing a bond twice comes back to the start. */
    lemma OtherBondEndInvolutive(bondIdx: int, atomIdx: int)
      requires 0 <= bondIdx < |bonds| && Incidence(bonds[bondIdx], atomIdx) > 0
      ensures GetOtherBondEnd(bondIdx, GetOtherBondEnd(bondIdx, atomIdx)) == atomIdx
    {
    }

    /** `FindBond`: a bond joining `beg` and `end` (the first in `beg`'s
        edge list), or -1 exactly when no bond joins them. */
    method FindBond(beg: int, end: int) returns (r: int)
      requires Valid()
      ensures r == -1 <==> !Connected(bonds, beg, end)
      ensures r != -1 ==> 0 <= r < |bonds| && Joins(bonds[r], beg, end)
      ensures r == FindBondIn(bonds, vertices, beg, end)
    {
      if beg < 0 || beg >= |vertices| {
        return -1;
      }
      var edges := vertices[beg];
      var k := 0;
      while k < |edges|
        invariant 0 <= k <= |edges|
        invariant forall j :: 0 <= j < k ==> !Joins(bonds[edges[j]], beg, end)
        invariant FirstJoiningEdge(bonds, edges, beg, end) == FirstJoiningEdge(bonds, edges[k..], beg, end)
      {
        assert edges[k..][1..] == edges[k + 1..];
        var bond := bonds[edges[k]];
        if (bond.beg == beg && bond.end == end) || (bond.beg == end && bond.end == beg) {
          return edges[k];
        }
        k := k + 1;
      }
      forall i | 0 <= i < |bonds|
        ensures !Joins(bonds[i], beg, end)
      {
        EdgeListExact(atoms, bonds, vertices, beg, i);
        if i in edges {
          var j :| 0 <= j < |edges| && edges[j] == i;
        }
      }
      assert edges[k..] == [];
      r := -1;
    }

    /** `TotalHydrogensCount`: explicit hydrogen atoms plus all implicit
        hydrogens. Every atom must admit the implicit-H rule. */
    method TotalHydrogensCount() returns (count: int)
      requires Valid()
      requires forall i :: 0 <= i < |atoms| ==> !IsSpecialNumber(atoms[i].number)
      modifies this`connectivity, this`implicitH
      ensures Valid()
      ensures count == HydrogenTotal(atoms, bonds, vertices, |atoms|)
    {
      count := 0;
      var i := 0;
      while i < |atoms|
        invariant Valid() && 0 <= i <= |atoms|
        invariant count == HydrogenTotal(atoms, bonds, vertices, i)
      {
        if atoms[i].number == Elements.ElemH {
          count := count + 1;
        }
        var h := GetImplicitH(i);
        count := count + h;
        i := i + 1;
      }
    }

  }

  lemma RewireIncidence(b: Bond, parent: int, from: int, to: int, a: int)
    requires Joins(b, parent, from)
    ensures Incidence(Rewire(b, parent, from, to), a) + (if a == from then 1 else 0)
            == Incidence(b, a) + (if a == to then 1 else 0)
  {
  }

  /** The edge lists after `FlipBond`, as multisets: `from` loses one
      occurrence of the bond and `to` gains one. */
  lemma FlipEdgeLists(vertices: seq<seq<int>>, from: int, to: int, i: int, a: int)
    requires 0 <= from < |vertices| && 0 <= to < |vertices| && 0 <= a < |vertices| && i in vertices[from]
    ensures var v := vertices[from := RemoveFirst(vertices[from], i)];
            multiset(v[to := v[to] + [i]][a]) + (if a == from then multiset{i} else multiset{})
            == multiset(vertices[a]) + (if a == to then multiset{i} else multiset{})
  {
    var v := vertices[from := RemoveFirst(vertices[from], i)];
    assert multiset(v[from]) == multiset(vertices[from]) - multiset{i};
    if a == to {
      assert multiset(v[to] + [i]) == multiset(v[to]) + multiset{i};
    }
  }

  /** Moving one end of a bond, with the matching edge-list edit, keeps the
      graph well formed. */
  lemma FlipKeepsWellFormed(atoms: seq<Atom>, bonds: seq<Bond>, vertices: seq<seq<int>>,
                            parent: int, from: int, to: int, i: int)
    requires WellFormed(atoms, bonds, vertices)
    requires 0 <= i < |bonds| && Joins(bonds[i], parent, from) && 0 <= to < |atoms|
    ensures var v := vertices[from := RemoveFirst(vertices[from], i)];
            WellFormed(atoms, bonds[i := Rewire(bonds[i], parent, from, to)], v[to := v[to] + [i]])
  {
    EdgeListExact(atoms, bonds, vertices, from, i);
    FlipKeepsEdgesInRange(bonds, vertices, parent, from, to, i);
    FlipKeepsIncidence(bonds, vertices, parent, from, to, i);
  }

  lemma FlipKeepsEdgesInRange(bonds: seq<Bond>, vertices: seq<seq<int>>, parent: int, from: int, to: int, i: int)
    requires EdgesInRange(vertices, bonds)
    requires 0 <= i < |bonds| && 0 <= from < |vertices| && 0 <= to < |vertices| && i in vertices[from]
    ensures var v := vertices[from := RemoveFirst(vertices[from], i)];
            EdgesInRange(v[to := v[to] + [i]], bonds[i := Rewire(bonds[i], parent, from, to)])
  {
    var v1 := vertices[from := RemoveFirst(vertices[from], i)];
    var v2 := v1[to := v1[to] + [i]];
    forall a, k | 0 <= a < |v2| && 0 <= k < |v2[a]|
      ensures 0 <= v2[a][k] < |bonds|
    {
      FlipEdgeLists(vertices, from, to, i, a);
      assert v2[a][k] in multiset(v2[a]);
      assert v2[a][k] in multiset(vertices[a]) || v2[a][k] == i;
    }
  }

  lemma FlipKeepsIncidence(bonds: seq<Bond>, vertices: seq<seq<int>>, parent: int, from: int, to: int, i: int)
    requires IncidenceExact(vertices, bonds)
    requires 0 <= i < |bonds| && Joins(bonds[i], parent, from)
    requires 0 <= from < |vertices| && 0 <= to < |vertices| && i in vertices[from]
    ensures var v := vertices[from := RemoveFirst(vertices[from], i)];
            IncidenceExact(v[to := v[to] + [i]], bonds[i := Rewire(bonds[i], parent, from, to)])
  {
    var v := vertices[from := RemoveFirst(vertices[from], i)];
    var v2, b2 := v[to := v[to] + [i]], bonds[i := Rewire(bonds[i], parent, from, to)];
    forall a, j | 0 <= a < |v2| && 0 <= j < |b2|
      ensures multiset(v2[a])[j] == Incidence(b2[j], a)
    {
      FlipIncidenceAt(bonds, vertices, parent, from, to, i, a, j);
    }
  }

  /** One entry of `FlipKeepsIncidence`. */
  lemma FlipIncidenceAt(bonds: seq<Bond>, vertices: seq<seq<int>>, parent: int, from: int, to: int, i: int,
                        a: int, j: int)
    requires 0 <= i < |bonds| && Joins(bonds[i], parent, from)
    requires 0 <= from < |vertices| && 0 <= to < |vertices| && i in vertices[from]
    requires 0 <= a < |vertices| && 0 <= j < |bonds| && multiset(vertices[a])[j] == Incidence(bonds[j], a)
    ensures var v := vertices[from := RemoveFirst(vertices[from], i)];
            multiset(v[to := v[to] + [i]][a])[j] == Incidence(bonds[i := Rewire(bonds[i], parent, from, to)][j], a)
  {
    FlipEdgeLists(vertices, from, to, i, a);
    if j == i {
      RewireIncidence(bonds[i], parent, from, to, a);
    }
  }

}
