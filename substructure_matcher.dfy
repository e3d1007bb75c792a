/** Backtracking substructure search
    (src/molecule/molecule_substructure_matcher.go). The search keeps a
    partial mapping from query atoms to target atoms in `mapping` (-1 for an
    unmapped atom) and the set of target atoms already taken in `used`; both
    are arrays that `recursiveMatch` marks, and unmarks when it backtracks.
    The search is proved to keep the mapping injective and every mapped pair
    compatible, to restore both arrays when it fails, and (in the corrected
    search) to succeed only with every query atom mapped. */
module SubstructureMatch {
  import opened Wrappers
  import opened MoleculeGraph

  /** `MatchResult`: query atom -> target atom and query bond -> target
      bond, with -1 for "no image". */
  datatype MatchResult = MatchResult(atomMapping: seq<int>, bondMapping: seq<int>)

  /** The parts of a molecule the search reads. */
  datatype View = View(atoms: seq<Atom>, bonds: seq<Bond>, vertices: seq<seq<int>>)

  function ViewOf(m: Molecule): (g: View)
    reads m`atoms, m`bonds, m`vertices
    ensures g.atoms == m.atoms && g.bonds == m.bonds && g.vertices == m.vertices
  {
    View(m.atoms, m.bonds, m.vertices)
  }

  predicate Shaped(g: View)
  {
    WellFormed(g.atoms, g.bonds, g.vertices)
  }

  // ---------------------------------------------------------------------
  // Compatibility tests

  /** `atomsMatch`: the same element, the same charge, and a target atom
      with at least as many bonds as the query atom. */
  predicate AtomsMatch(q: View, t: View, qi: int, ti: int)
    requires 0 <= qi < |q.atoms| && 0 <= qi < |q.vertices| && 0 <= ti < |t.atoms| && 0 <= ti < |t.vertices|
  {
    q.atoms[qi].number == t.atoms[ti].number && q.atoms[qi].charge == t.atoms[ti].charge &&
    |t.vertices[ti]| >= |q.vertices[qi]|
  }

  /** `shouldHaveBond`: no constraint when the query atoms are not bonded;
      otherwise the target atoms are bonded too, with the same order. */
  predicate BondAgrees(q: View, t: View, qx: int, qy: int, tx: int, ty: int)
  {
    var qb := FindBondIn(q.bonds, q.vertices, qx, qy);
    var tb := FindBondIn(t.bonds, t.vertices, tx, ty);
    qb == -1 || (tb != -1 && BondOrderOf(q.bonds, qb) == BondOrderOf(t.bonds, tb))
  }

  /** One test of `hasRequiredConnections`: bonded in the query exactly when
      bonded in the target, with the same order. */
  predicate PairAgrees(q: View, t: View, qx: int, qy: int, tx: int, ty: int)
  {
    var qb := FindBondIn(q.bonds, q.vertices, qx, qy);
    var tb := FindBondIn(t.bonds, t.vertices, tx, ty);
    (qb == -1 <==> tb == -1) && (qb != -1 ==> BondOrderOf(q.bonds, qb) == BondOrderOf(t.bonds, tb))
  }

  /** `hasRequiredConnections`: every already-mapped query neighbour of
      `qi` agrees, through its image, with `ti`. */
  predicate RequiredConnections(q: View, t: View, qi: int, ti: int, mapping: seq<int>)
    requires 0 <= qi < |q.vertices|
  {
    var ns := NeighborList(q.bonds, q.vertices[qi], qi);
    forall k :: 0 <= k < |ns| && 0 <= ns[k] < |mapping| && mapping[ns[k]] != -1 ==>
      PairAgrees(q, t, qi, ns[k], ti, mapping[ns[k]])
  }

  /** A bond listed in an edge list is found by the edge-list search. */
  lemma {:induction false} FirstJoiningEdgeFinds(bonds: seq<Bond>, edges: seq<int>, x: int, y: int, i: int)
    requires i in edges && 0 <= i < |bonds| && Joins(bonds[i], x, y)
    ensures FirstJoiningEdge(bonds, edges, x, y) != -1
  {
    if !(0 <= edges[0] < |bonds| && Joins(bonds[edges[0]], x, y)) {
      FirstJoiningEdgeFinds(bonds, edges[1..], x, y, i);
    }
  }

  /** In a well-formed molecule `FindBond` reports -1 exactly when the two
      atoms are not bonded, and otherwise a bond that joins them. */
  lemma FindBondInMeans(g: View, x: int, y: int)
    requires Shaped(g)
    ensures FindBondIn(g.bonds, g.vertices, x, y) == -1 <==> !Connected(g.bonds, x, y)
    ensures FindBondIn(g.bonds, g.vertices, x, y) != -1 ==>
      0 <= FindBondIn(g.bonds, g.vertices, x, y) < |g.bonds| && Joins(g.bonds[FindBondIn(g.bonds, g.vertices, x, y)], x, y)
  {
    if Connected(g.bonds, x, y) {
      var i :| 0 <= i < |g.bonds| && Joins(g.bonds[i], x, y);
      EdgeListExact(g.atoms, g.bonds, g.vertices, x, i);
      FirstJoiningEdgeFinds(g.bonds, g.vertices[x], x, y, i);
    }
  }

  /** What `shouldHaveBond` promises: query atoms that are not bonded
      impose nothing, and bonded query atoms need bonded target atoms whose
      first bond has the order of the query's first bond. */
  lemma BondAgreesMeans(q: View, t: View, qx: int, qy: int, tx: int, ty: int)
    requires Shaped(q) && Shaped(t)
    ensures !Connected(q.bonds, qx, qy) ==> BondAgrees(q, t, qx, qy, tx, ty)
    ensures Connected(q.bonds, qx, qy) ==>
      (BondAgrees(q, t, qx, qy, tx, ty) <==>
        Connected(t.bonds, tx, ty) &&
        BondOrderOf(q.bonds, FindBondIn(q.bonds, q.vertices, qx, qy)) == BondOrderOf(t.bonds, FindBondIn(t.bonds, t.vertices, tx, ty)))
  {
    FindBondInMeans(q, qx, qy);
    FindBondInMeans(t, tx, ty);
  }

  /** What `hasRequiredConnections` promises for one mapped neighbour `qn`
      of `qi`: the target atoms are bonded, by a bond of the query bond's
      order. */
  lemma RequiredConnectionsMeans(q: View, t: View, qi: int, ti: int, mapping: seq<int>, k: int)
    requires Shaped(q) && Shaped(t) && 0 <= qi < |q.atoms|
    requires RequiredConnections(q, t, qi, ti, mapping)
    requires 0 <= k < |q.vertices[qi]|
    ensures var qn := NeighborList(q.bonds, q.vertices[qi], qi)[k];
            0 <= qn < |mapping| && mapping[qn] != -1 ==>
              Connected(t.bonds, ti, mapping[qn]) &&
              BondOrderOf(q.bonds, FindBondIn(q.bonds, q.vertices, qi, qn)) ==
              BondOrderOf(t.bonds, FindBondIn(t.bonds, t.vertices, ti, mapping[qn]))
  {
    var ns := NeighborList(q.bonds, q.vertices[qi], qi);
    var qn := ns[k];
    var e := q.vertices[qi][k];
    assert 0 <= e < |q.bonds|;
    EdgeListExact(q.atoms, q.bonds, q.vertices, qi, e);
    assert Joins(q.bonds[e], qi, qn);
    FindBondInMeans(q, qi, qn);
    if 0 <= qn < |mapping| && mapping[qn] != -1 {
      FindBondInMeans(t, ti, mapping[qn]);
    }
  }

  // ---------------------------------------------------------------------
  // The search state

  /** The mapping is injective on its mapped entries. */
  predicate Injective(mapping: seq<int>)
  {
    forall i, j :: 0 <= i < |mapping| && 0 <= j < |mapping| && i != j && mapping[i] != -1 ==> mapping[i] != mapping[j]
  }

  /** A partial match: one entry per query atom, each -1 or a compatible
      target atom, no target atom used twice. */
  predicate SoundMapping(q: View, t: View, mapping: seq<int>)
  {
    |mapping| == |q.atoms| == |q.vertices| && |t.atoms| == |t.vertices| &&
    (forall i :: 0 <= i < |mapping| ==> mapping[i] == -1 || (0 <= mapping[i] < |t.atoms| && AtomsMatch(q, t, i, mapping[i]))) &&
    Injective(mapping)
  }

  /** The search state: a sound mapping whose images are all marked used. */
  predicate Partial(q: View, t: View, mapping: seq<int>, used: seq<bool>)
  {
    SoundMapping(q, t, mapping) && |used| == |t.atoms| &&
    forall i :: 0 <= i < |mapping| && mapping[i] != -1 ==> used[mapping[i]]
  }

  /** Every query atom is mapped. */
  predicate Complete(mapping: seq<int>)
  {
    forall i :: 0 <= i < |mapping| ==> mapping[i] != -1
  }

  /** `after` keeps every entry `before` had mapped. */
  predicate Extends(before: seq<int>, after: seq<int>)
  {
    |before| == |after| && forall i :: 0 <= i < |before| && before[i] != -1 ==> after[i] == before[i]
  }

  /** The number of unmapped query atoms. */
  function Unmapped(mapping: seq<int>): (n: nat)
    ensures n <= |mapping|
  {
    if mapping == [] then 0
    else Unmapped(mapping[..|mapping| - 1]) + (if mapping[|mapping| - 1] == -1 then 1 else 0)
  }

  /** Mapping one unmapped atom leaves one fewer unmapped. */
  lemma {:induction false} UnmappedMark(mapping: seq<int>, i: int, v: int)
    requires 0 <= i < |mapping| && mapping[i] == -1 && v != -1
    ensures Unmapped(mapping[i := v]) == Unmapped(mapping) - 1
  {
    var n := |mapping| - 1;
    var marked := mapping[i := v];
    assert marked[..n] == if i < n then mapping[..n][i := v] else mapping[..n];
    if i < n {
      UnmappedMark(mapping[..n], i, v);
    }
  }

  /** Marking a compatible, unused target atom for an unmapped query atom
      keeps the state a partial match. */
  lemma MarkKeepsPartial(q: View, t: View, mapping: seq<int>, used: seq<bool>, qi: int, ti: int)
    requires Partial(q, t, mapping, used)
    requires 0 <= qi < |mapping| && mapping[qi] == -1 && 0 <= ti < |used| && !used[ti]
    requires AtomsMatch(q, t, qi, ti)
    ensures Partial(q, t, mapping[qi := ti], used[ti := true])
    ensures Extends(mapping, mapping[qi := ti])
  {
    var m2 := mapping[qi := ti];
    forall i, j | 0 <= i < |m2| && 0 <= j < |m2| && i != j && m2[i] != -1
      ensures m2[i] != m2[j]
    {
      if i == qi {
        assert mapping[j] == -1 || used[mapping[j]];
      } else if j == qi {
        assert used[mapping[i]];
      }
    }
  }

  /** `Extends` is transitive. */
  lemma ExtendsTrans(a: seq<int>, b: seq<int>, c: seq<int>)
    requires Extends(a, b) && Extends(b, c)
    ensures Extends(a, c)
  {
  }

  // ---------------------------------------------------------------------
  // Embeddings: what the corrected search is complete for

  /** An embedding of the query in the target: a complete sound mapping
      under which every pair of query atoms passes `shouldHaveBond` with
      their images. */
  predicate Embedding(q: View, t: View, e: seq<int>)
  {
    SoundMapping(q, t, e) && Complete(e) &&
    forall x, y :: 0 <= x < |e| && 0 <= y < |e| ==> BondAgrees(q, t, x, y, e[x], e[y])
  }

  /** Only images of mapped query atoms are marked used. */
  predicate UsedExact(mapping: seq<int>, used: seq<bool>)
  {
    forall x :: 0 <= x < |used| && used[x] ==> x in mapping
  }

  /** Some embedding keeps every pair the mapping has fixed. */
  ghost predicate Extendable(q: View, t: View, m: seq<int>)
  {
    exists e :: Embedding(q, t, e) && Extends(m, e)
  }

  /** ... and maps query atom `i` to `lo` or above. */
  ghost predicate ExtendableAbove(q: View, t: View, m: seq<int>, i: int, lo: int)
  {
    exists e :: Embedding(q, t, e) && Extends(m, e) && 0 <= i < |e| && e[i] >= lo
  }

  /** Some embedding maps query atom 0 to `s`. */
  ghost predicate EmbeddingFrom(q: View, t: View, s: int)
  {
    exists e :: Embedding(q, t, e) && |e| > 0 && e[0] == s
  }

  lemma ExtendableStart(q: View, t: View, m: seq<int>, i: int)
    requires 0 <= i < |m|
    ensures Extendable(q, t, m) ==> ExtendableAbove(q, t, m, i, 0)
  {
    if Extendable(q, t, m) {
      var e :| Embedding(q, t, e) && Extends(m, e);
      assert e[i] != -1;
    }
  }

  /** No embedding maps an atom past the last target atom. */
  lemma NoImageBeyond(q: View, t: View, m: seq<int>, i: int)
    ensures !ExtendableAbove(q, t, m, i, |t.atoms|)
  {
    forall e | Embedding(q, t, e) && Extends(m, e) && 0 <= i < |e|
      ensures e[i] < |t.atoms|
    {
      assert e[i] != -1;
    }
  }

  /** A mapped atom keeps its image in every extension, so a compatible
      pair is the only one an embedding can extend. */
  lemma ExtendableMatches(q: View, t: View, m: seq<int>, qi: int, ti: int)
    requires 0 <= qi < |m| && 0 <= ti
    ensures Extendable(q, t, m[qi := ti]) ==>
              0 <= ti < |t.atoms| && 0 <= qi < |q.vertices| && ti < |t.vertices| && AtomsMatch(q, t, qi, ti)
  {
    if Extendable(q, t, m[qi := ti]) {
      var e :| Embedding(q, t, e) && Extends(m[qi := ti], e);
      assert e[qi] == ti;
    }
  }

  /** In an embedding that extends the state, an unmapped atom's image is
      not used yet. */
  lemma ImageUnused(q: View, t: View, m: seq<int>, used: seq<bool>, e: seq<int>, i: int)
    requires Partial(q, t, m, used) && UsedExact(m, used)
    requires Embedding(q, t, e) && Extends(m, e) && 0 <= i < |m| && m[i] == -1
    ensures 0 <= e[i] < |used| && !used[e[i]]
  {
    forall j | 0 <= j < |m| && m[j] != -1
      ensures m[j] != e[i]
    {
      assert e[j] == m[j] && j != i;
    }
    assert e[i] !in m;
  }

  /** A query atom that is a neighbour of `qi` is bonded to it. */
  lemma NeighbourBonded(q: View, qi: int, k: int)
    requires Shaped(q) && 0 <= qi < |q.atoms| && 0 <= k < |q.vertices[qi]|
    ensures FindBondIn(q.bonds, q.vertices, qi, NeighborList(q.bonds, q.vertices[qi], qi)[k]) != -1
  {
    var qn := NeighborList(q.bonds, q.vertices[qi], qi)[k];
    var b := q.vertices[qi][k];
    EdgeListExact(q.atoms, q.bonds, q.vertices, qi, b);
    assert Joins(q.bonds[b], qi, qn);
    FindBondInMeans(q, qi, qn);
  }

  /** In an embedding that extends the state, the image of any atom passes
      `hasRequiredConnections`. */
  lemma ImageConnects(q: View, t: View, m: seq<int>, e: seq<int>, i: int)
    requires Shaped(q) && Embedding(q, t, e) && Extends(m, e) && 0 <= i < |m|
    ensures RequiredConnections(q, t, i, e[i], m)
  {
    var ns := NeighborList(q.bonds, q.vertices[i], i);
    forall k | 0 <= k < |ns| && 0 <= ns[k] < |m| && m[ns[k]] != -1
      ensures PairAgrees(q, t, i, ns[k], e[i], m[ns[k]])
    {
      NeighbourBonded(q, i, k);
      assert m[ns[k]] == e[ns[k]];
      assert BondAgrees(q, t, i, ns[k], e[i], e[ns[k]]);
    }
  }

  /** A search over the candidates for the unmapped neighbour `i` of the
      mapped `p` may pass over `lo` without losing an embedding, unless
      `lo` is the image an embedding needs: unused, bonded like `p` and
      `i`, and extendable once marked. */
  lemma NeighbourStep(q: View, t: View, m: seq<int>, used: seq<bool>, p: int, i: int, lo: int)
    requires Partial(q, t, m, used)
    requires 0 <= p < |m| && m[p] != -1 && 0 <= i < |m| && m[i] == -1
    ensures UsedExact(m, used) && ExtendableAbove(q, t, m, i, lo) && !ExtendableAbove(q, t, m, i, lo + 1) ==>
              0 <= lo < |used| && !used[lo] && BondAgrees(q, t, p, i, m[p], lo) && Extendable(q, t, m[i := lo])
  {
    if UsedExact(m, used) && ExtendableAbove(q, t, m, i, lo) && !ExtendableAbove(q, t, m, i, lo + 1) {
      var e :| Embedding(q, t, e) && Extends(m, e) && 0 <= i < |e| && e[i] >= lo;
      assert e[i] == lo;
      ImageUnused(q, t, m, used, e, i);
      assert e[p] == m[p];
      assert Extends(m[i := lo], e);
    }
  }

  /** The same for the next unmapped query atom `i`, whose candidates must
      pass `hasRequiredConnections`. */
  lemma NextStep(q: View, t: View, m: seq<int>, used: seq<bool>, i: int, lo: int)
    requires Shaped(q) && Partial(q, t, m, used)
    requires 0 <= i < |m| && m[i] == -1
    ensures UsedExact(m, used) && ExtendableAbove(q, t, m, i, lo) && !ExtendableAbove(q, t, m, i, lo + 1) ==>
              0 <= lo < |used| && !used[lo] && RequiredConnections(q, t, i, lo, m) && Extendable(q, t, m[i := lo])
  {
    if UsedExact(m, used) && ExtendableAbove(q, t, m, i, lo) && !ExtendableAbove(q, t, m, i, lo + 1) {
      var e :| Embedding(q, t, e) && Extends(m, e) && 0 <= i < |e| && e[i] >= lo;
      assert e[i] == lo;
      ImageUnused(q, t, m, used, e, i);
      ImageConnects(q, t, m, e, i);
      assert Extends(m[i := lo], e);
    }
  }

  /** Marking a pair keeps the used marks exact. */
  lemma MarkKeepsUsedExact(m: seq<int>, used: seq<bool>, qi: int, ti: int)
    requires 0 <= qi < |m| && m[qi] == -1 && 0 <= ti < |used|
    ensures UsedExact(m, used) ==> UsedExact(m[qi := ti], used[ti := true])
  {
    if UsedExact(m, used) {
      var m2, u2 := m[qi := ti], used[ti := true];
      forall x | 0 <= x < |u2| && u2[x]
        ensures x in m2
      {
        if x == ti {
          assert m2[qi] == x;
        } else {
          assert x in m;
          var j :| 0 <= j < |m| && m[j] == x;
          if j != qi {
            assert m2[j] == x;
          }
        }
      }
    }
  }

  /** The empty mapping with query atom 0 on `s` extends to every
      embedding from `s`. */
  lemma StartExtendable(q: View, t: View, m: seq<int>, s: int)
    requires |m| == |q.atoms| && 0 < |m| && forall i :: 0 <= i < |m| ==> m[i] == -1
    ensures EmbeddingFrom(q, t, s) ==> Extendable(q, t, m[0 := s])
  {
    if EmbeddingFrom(q, t, s) {
      var e :| Embedding(q, t, e) && |e| > 0 && e[0] == s;
      assert Extends(m[0 := s], e);
    }
  }

  /** A start some embedding uses is a target atom, and the target is
      large enough. */
  lemma FromFits(q: View, t: View, s: int)
    ensures EmbeddingFrom(q, t, s) ==> 0 <= s < |t.atoms| && |q.atoms| <= |t.atoms|
  {
    if EmbeddingFrom(q, t, s) {
      var e :| Embedding(q, t, e) && |e| > 0 && e[0] == s;
      EmbeddingFits(q, t, e);
    }
  }

  /** An injective sequence of numbers below `n` has at most `n` entries. */
  lemma {:induction false} Pigeonhole(s: seq<int>, n: nat)
    requires forall i :: 0 <= i < |s| ==> 0 <= s[i] < n
    requires forall i, j :: 0 <= i < j < |s| ==> s[i] != s[j]
    ensures |s| <= n
    decreases n
  {
    if |s| > 0 {
      if j :| 0 <= j < |s| && s[j] == n - 1 {
        var r := s[..j] + s[j + 1..];
        assert forall k :: 0 <= k < |r| ==> r[k] == if k < j then s[k] else s[k + 1];
        forall k | 0 <= k < |r|
          ensures 0 <= r[k] < n - 1
        {
          assert r[k] != s[j];
        }
        Pigeonhole(r, n - 1);
      } else {
        assert 0 <= s[0] < n;
        Pigeonhole(s, n - 1);
      }
    }
  }

  /** An embedding needs as many target atoms as query atoms, and starts
      at a target atom. */
  lemma EmbeddingFits(q: View, t: View, e: seq<int>)
    ensures Embedding(q, t, e) ==> |q.atoms| <= |t.atoms|
    ensures Embedding(q, t, e) && |e| > 0 ==> 0 <= e[0] < |t.atoms| && EmbeddingFrom(q, t, e[0])
  {
    if Embedding(q, t, e) {
      forall i, j | 0 <= i < j < |e|
        ensures e[i] != e[j]
      {
        assert e[i] != -1;
      }
      forall i | 0 <= i < |e|
        ensures 0 <= e[i] < |t.atoms|
      {
        assert e[i] != -1;
      }
      Pigeonhole(e, |t.atoms|);
    }
  }

  // ---------------------------------------------------------------------
  // The tests as methods

  /** `shouldHaveBond`. */
  method ShouldHaveBond(q: Molecule, t: Molecule, qIdx1: int, qIdx2: int, tIdx1: int, tIdx2: int) returns (ok: bool)
    requires q.Valid() && t.Valid()
    ensures ok == BondAgrees(ViewOf(q), ViewOf(t), qIdx1, qIdx2, tIdx1, tIdx2)
  {
    var qBond := q.FindBond(qIdx1, qIdx2);
    if qBond == -1 {
      return true;
    }
    var tBond := t.FindBond(tIdx1, tIdx2);
    if tBond == -1 {
      return false;
    }
    ok := BondOrderOf(q.bonds, qBond) == BondOrderOf(t.bonds, tBond);
  }

  /** `hasRequiredConnections`. */
  method HasRequiredConnections(q: Molecule, t: Molecule, queryIdx: int, targetIdx: int, mapping: array<int>) returns (ok: bool)
    requires q.Valid() && t.Valid() && 0 <= queryIdx < |q.atoms| && mapping.Length == |q.atoms|
    ensures ok == RequiredConnections(ViewOf(q), ViewOf(t), queryIdx, targetIdx, mapping[..])
  {
    var queryNeighbors := q.GetNeighbors(queryIdx);
    var k := 0;
    while k < |queryNeighbors|
      invariant 0 <= k <= |queryNeighbors|
      invariant forall j :: 0 <= j < k && mapping[queryNeighbors[j]] != -1 ==>
        PairAgrees(ViewOf(q), ViewOf(t), queryIdx, queryNeighbors[j], targetIdx, mapping[queryNeighbors[j]])
    {
      var qNeighbor := queryNeighbors[k];
      if mapping[qNeighbor] != -1 {
        var agrees := CheckPair(q, t, queryIdx, qNeighbor, targetIdx, mapping[qNeighbor]);
        if !agrees {
          return false;
        }
      }
      k := k + 1;
    }
    ok := true;
  }

  /** The test `hasRequiredConnections` makes for one mapped neighbour. */
  method CheckPair(q: Molecule, t: Molecule, qx: int, qy: int, tx: int, ty: int) returns (ok: bool)
    requires q.Valid() && t.Valid()
    ensures ok == PairAgrees(ViewOf(q), ViewOf(t), qx, qy, tx, ty)
  {
    var qBond := q.FindBond(qx, qy);
    var tBond := t.FindBond(tx, ty);
    if qBond == -1 && tBond != -1 {
      return false;
    }
    if qBond != -1 {
      if tBond == -1 {
        return false;
      }
      if BondOrderOf(q.bonds, qBond) != BondOrderOf(t.bonds, tBond) {
        return false;
      }
    }
    ok := true;
  }

  // ---------------------------------------------------------------------
  // The search

  /** The query atom with the highest index is mapped: all that the
      completion test of `recursiveMatch` as written looks at. */
  predicate LastMapped(mapping: seq<int>)
  {
    mapping != [] && mapping[|mapping| - 1] != -1
  }

  /** What a successful search promises: with the corrected completion
      test every query atom is mapped, as written only the last one. */
  predicate Finished(mapping: seq<int>, asWritten: bool)
  {
    if asWritten then LastMapped(mapping) else Complete(mapping)
  }

  /** `recursiveMatch` with the completion test corrected: tries
      `queryIdx` -> `targetIdx` and succeeds only once every query atom is
      mapped. On failure both arrays are as they were. */
  method RecursiveMatch(q: Molecule, t: Molecule, queryIdx: int, targetIdx: int, mapping: array<int>, used: array<bool>)
    returns (found: bool)
    requires q.Valid() && t.Valid()
    requires 0 <= queryIdx < mapping.Length && 0 <= targetIdx < used.Length
    requires Partial(ViewOf(q), ViewOf(t), mapping[..], used[..])
    requires mapping[queryIdx] == -1 && !used[targetIdx]
    modifies mapping, used
    decreases Unmapped(mapping[..]), 3
    ensures Partial(ViewOf(q), ViewOf(t), mapping[..], used[..])
    ensures found ==> mapping[queryIdx] == targetIdx && Extends(old(mapping[..]), mapping[..]) && Complete(mapping[..])
    ensures !found ==> mapping[..] == old(mapping[..]) && used[..] == old(used[..])
    ensures UsedExact(old(mapping[..]), old(used[..])) && Extendable(ViewOf(q), ViewOf(t), old(mapping[..])[queryIdx := targetIdx]) ==> found
  {
    found := MatchFrom(q, t, queryIdx, targetIdx, mapping, used, false);
  }

  /** `recursiveMatch` as written: it stops as soon as the query atom with
      the highest index is mapped (line 105), and looks for the next
      unmapped atom only above `queryIdx` (line 139), so it can succeed
      with query atoms left unmapped. */
  method RecursiveMatchAsWritten(q: Molecule, t: Molecule, queryIdx: int, targetIdx: int, mapping: array<int>, used: array<bool>)
    returns (found: bool)
    requires q.Valid() && t.Valid()
    requires 0 <= queryIdx < mapping.Length && 0 <= targetIdx < used.Length
    requires Partial(ViewOf(q), ViewOf(t), mapping[..], used[..])
    requires mapping[queryIdx] == -1 && !used[targetIdx]
    modifies mapping, used
    decreases Unmapped(mapping[..]), 3
    ensures Partial(ViewOf(q), ViewOf(t), mapping[..], used[..])
    ensures found ==> mapping[queryIdx] == targetIdx && Extends(old(mapping[..]), mapping[..]) && LastMapped(mapping[..])
    ensures !found ==> mapping[..] == old(mapping[..]) && used[..] == old(used[..])
  {
    found := MatchFrom(q, t, queryIdx, targetIdx, mapping, used, true);
  }

  /** The body of `recursiveMatch`: the compatibility test, the marking,
      the search for the rest, and the unmarking on failure. */
  method MatchFrom(q: Molecule, t: Molecule, queryIdx: int, targetIdx: int, mapping: array<int>, used: array<bool>, asWritten: bool)
    returns (found: bool)
    requires q.Valid() && t.Valid()
    requires 0 <= queryIdx < mapping.Length && 0 <= targetIdx < used.Length
    requires Partial(ViewOf(q), ViewOf(t), mapping[..], used[..])
    requires mapping[queryIdx] == -1 && !used[targetIdx]
    modifies mapping, used
    decreases Unmapped(mapping[..]), 2
    ensures Partial(ViewOf(q), ViewOf(t), mapping[..], used[..])
    ensures found ==> mapping[queryIdx] == targetIdx && Extends(old(mapping[..]), mapping[..]) && Finished(mapping[..], asWritten)
    ensures !found ==> mapping[..] == old(mapping[..]) && used[..] == old(used[..])
    ensures !asWritten && UsedExact(old(mapping[..]), old(used[..])) && Extendable(ViewOf(q), ViewOf(t), old(mapping[..])[queryIdx := targetIdx]) ==> found
  {
    if !AtomsMatch(ViewOf(q), ViewOf(t), queryIdx, targetIdx) {
      ExtendableMatches(ViewOf(q), ViewOf(t), mapping[..], queryIdx, targetIdx);
      return false;
    }
    ghost var before, usedBefore := mapping[..], used[..];
    MarkKeepsPartial(ViewOf(q), ViewOf(t), before, usedBefore, queryIdx, targetIdx);
    UnmappedMark(before, queryIdx, targetIdx);
    MarkKeepsUsedExact(before, usedBefore, queryIdx, targetIdx);
    mapping[queryIdx] := targetIdx;
    used[targetIdx] := true;
    assert mapping[..] == before[queryIdx := targetIdx] && used[..] == usedBefore[targetIdx := true];
    ghost var marked := mapping[..];
    found := ExtendFrom(q, t, queryIdx, mapping, used, asWritten);
    if found {
      ExtendsTrans(before, marked, mapping[..]);
    } else {
      mapping[queryIdx] := -1;
      used[targetIdx] := false;
      assert mapping[..] == before && used[..] == usedBefore;
    }
  }

  /** The rest of `recursiveMatch` once `queryIdx` is marked: the first
      unmapped neighbour of `queryIdx` must be matched next; with none, the
      next unmapped query atom is. */
  method ExtendFrom(q: Molecule, t: Molecule, queryIdx: int, mapping: array<int>, used: array<bool>, asWritten: bool)
    returns (found: bool)
    requires q.Valid() && t.Valid()
    requires 0 <= queryIdx < mapping.Length && mapping[queryIdx] != -1
    requires Partial(ViewOf(q), ViewOf(t), mapping[..], used[..])
    modifies mapping, used
    decreases Unmapped(mapping[..]) + 1, 1
    ensures Partial(ViewOf(q), ViewOf(t), mapping[..], used[..])
    ensures found ==> Extends(old(mapping[..]), mapping[..]) && Finished(mapping[..], asWritten)
    ensures !found ==> mapping[..] == old(mapping[..]) && used[..] == old(used[..])
    ensures !asWritten && UsedExact(old(mapping[..]), old(used[..])) && Extendable(ViewOf(q), ViewOf(t), old(mapping[..])) ==> found
  {
    if asWritten && queryIdx == mapping.Length - 1 {
      return true;
    }
    var queryNeighbors := q.GetNeighbors(queryIdx);
    var k := 0;
    while k < |queryNeighbors|
      invariant 0 <= k <= |queryNeighbors|
      invariant mapping[..] == old(mapping[..]) && used[..] == old(used[..])
    {
      var qNeighbor := queryNeighbors[k];
      if mapping[qNeighbor] == -1 {
        found := TryNeighbour(q, t, queryIdx, qNeighbor, mapping, used, asWritten);
        return;
      }
      k := k + 1;
    }

    var nextQueryIdx := if asWritten then queryIdx + 1 else 0;
    while nextQueryIdx < mapping.Length && mapping[nextQueryIdx] != -1
      invariant (if asWritten then queryIdx + 1 else 0) <= nextQueryIdx <= mapping.Length
      invariant forall i :: (if asWritten then queryIdx + 1 else 0) <= i < nextQueryIdx ==> mapping[i] != -1
    {
      nextQueryIdx := nextQueryIdx + 1;
    }
    if nextQueryIdx >= mapping.Length {
      return true;
    }
    found := TryNext(q, t, nextQueryIdx, mapping, used, asWritten);
  }

  /** The loop over target atoms for an unmapped neighbour `qNeighbor` of
      the marked `queryIdx`: every unused target atom that `shouldHaveBond`
      admits is tried in turn. */
  method TryNeighbour(q: Molecule, t: Molecule, queryIdx: int, qNeighbor: int, mapping: array<int>, used: array<bool>, asWritten: bool)
    returns (found: bool)
    requires q.Valid() && t.Valid()
    requires 0 <= queryIdx < mapping.Length && mapping[queryIdx] != -1
    requires 0 <= qNeighbor < mapping.Length && mapping[qNeighbor] == -1
    requires Partial(ViewOf(q), ViewOf(t), mapping[..], used[..])
    modifies mapping, used
    decreases Unmapped(mapping[..]) + 1, 0
    ensures Partial(ViewOf(q), ViewOf(t), mapping[..], used[..])
    ensures found ==> Extends(old(mapping[..]), mapping[..]) && Finished(mapping[..], asWritten)
    ensures !found ==> mapping[..] == old(mapping[..]) && used[..] == old(used[..])
    ensures !asWritten && UsedExact(old(mapping[..]), old(used[..])) && Extendable(ViewOf(q), ViewOf(t), old(mapping[..])) ==> found
  {
    var targetIdx := mapping[queryIdx];
    ghost var m0, u0 := mapping[..], used[..];
    ExtendableStart(ViewOf(q), ViewOf(t), m0, qNeighbor);
    var targetNeighbor := 0;
    while targetNeighbor < |t.atoms|
      invariant 0 <= targetNeighbor <= |t.atoms|
      invariant mapping[..] == m0 && used[..] == u0
      invariant !asWritten && UsedExact(m0, u0) && Extendable(ViewOf(q), ViewOf(t), m0) ==> ExtendableAbove(ViewOf(q), ViewOf(t), m0, qNeighbor, targetNeighbor)
    {
      NeighbourStep(ViewOf(q), ViewOf(t), m0, u0, queryIdx, qNeighbor, targetNeighbor);
      if !used[targetNeighbor] {
        var bonded := ShouldHaveBond(q, t, queryIdx, qNeighbor, targetIdx, targetNeighbor);
        if bonded {
          if asWritten {
            found := RecursiveMatchAsWritten(q, t, qNeighbor, targetNeighbor, mapping, used);
          } else {
            found := RecursiveMatch(q, t, qNeighbor, targetNeighbor, mapping, used);
          }
          if found {
            return;
          }
        }
      }
      targetNeighbor := targetNeighbor + 1;
    }
    NoImageBeyond(ViewOf(q), ViewOf(t), m0, qNeighbor);
    found := false;
  }

  /** The loop over target atoms for the next unmapped query atom: every
      unused target atom that `hasRequiredConnections` admits is tried in
      turn. */
  method TryNext(q: Molecule, t: Molecule, nextQueryIdx: int, mapping: array<int>, used: array<bool>, asWritten: bool)
    returns (found: bool)
    requires q.Valid() && t.Valid()
    requires 0 <= nextQueryIdx < mapping.Length && mapping[nextQueryIdx] == -1
    requires Partial(ViewOf(q), ViewOf(t), mapping[..], used[..])
    modifies mapping, used
    decreases Unmapped(mapping[..]) + 1, 0
    ensures Partial(ViewOf(q), ViewOf(t), mapping[..], used[..])
    ensures found ==> Extends(old(mapping[..]), mapping[..]) && Finished(mapping[..], asWritten)
    ensures !found ==> mapping[..] == old(mapping[..]) && used[..] == old(used[..])
    ensures !asWritten && UsedExact(old(mapping[..]), old(used[..])) && Extendable(ViewOf(q), ViewOf(t), old(mapping[..])) ==> found
  {
    ghost var m0, u0 := mapping[..], used[..];
    ExtendableStart(ViewOf(q), ViewOf(t), m0, nextQueryIdx);
    var targetNext := 0;
    while targetNext < |t.atoms|
      invariant 0 <= targetNext <= |t.atoms|
      invariant mapping[..] == m0 && used[..] == u0
      invariant !asWritten && UsedExact(m0, u0) && Extendable(ViewOf(q), ViewOf(t), m0) ==> ExtendableAbove(ViewOf(q), ViewOf(t), m0, nextQueryIdx, targetNext)
    {
      NextStep(ViewOf(q), ViewOf(t), m0, u0, nextQueryIdx, targetNext);
      if !used[targetNext] {
        var agrees := HasRequiredConnections(q, t, nextQueryIdx, targetNext, mapping);
        if agrees {
          if asWritten {
            found := RecursiveMatchAsWritten(q, t, nextQueryIdx, targetNext, mapping, used);
          } else {
            found := RecursiveMatch(q, t, nextQueryIdx, targetNext, mapping, used);
          }
          if found {
            return;
          }
        }
      }
      targetNext := targetNext + 1;
    }
    NoImageBeyond(ViewOf(q), ViewOf(t), m0, nextQueryIdx);
    found := false;
  }

  // ---------------------------------------------------------------------
  // The early stop of `recursiveMatch` as written

  /** Query: C(0) bonded to C(2), C(2) bonded to O(1). */
  function EarlyStopQuery(): View
  {
    View([NewAtom(6), NewAtom(8), NewAtom(6)], [Bond(0, 2, 1, 0), Bond(2, 1, 1, 0)], [[0], [1], [0, 1]])
  }

  /** Target: C(0) bonded to C(1), C(1) bonded to N(2). */
  function EarlyStopTarget(): View
  {
    View([NewAtom(6), NewAtom(6), NewAtom(7)], [Bond(0, 1, 1, 0), Bond(1, 2, 1, 0)], [[0], [0, 1], [1]])
  }

  /** Both molecules are well formed. */
  lemma EarlyStopShaped()
    ensures Shaped(EarlyStopQuery()) && Shaped(EarlyStopTarget())
  {
    var q, t := EarlyStopQuery(), EarlyStopTarget();
    assert multiset(q.vertices[2]) == multiset{0, 1};
    assert multiset(t.vertices[1]) == multiset{0, 1};
  }

  /** The target has no oxygen, so no mapping covers the query. */
  lemma EarlyStopNoMatch()
    ensures forall m :: SoundMapping(EarlyStopQuery(), EarlyStopTarget(), m) ==> !Complete(m)
  {
    var q, t := EarlyStopQuery(), EarlyStopTarget();
    assert forall ti :: 0 <= ti < 3 ==> !AtomsMatch(q, t, 1, ti);
    forall m | SoundMapping(q, t, m)
      ensures !Complete(m)
    {
      assert m[1] == -1;
    }
  }

  /** The state the search as written stops in: atoms 0 and 2 mapped,
      atom 1 not. */
  lemma EarlyStopState()
    ensures Partial(EarlyStopQuery(), EarlyStopTarget(), [0, -1, 1], [true, true, false])
  {
    var q, t, m := EarlyStopQuery(), EarlyStopTarget(), [0, -1, 1];
    assert AtomsMatch(q, t, 0, 0) && AtomsMatch(q, t, 2, 1);
    assert Injective(m);
  }

  /** No mapping covers the query, yet the search as written, started
      with query atom 0 on target atom 0, passes every test on its way to
      the state [0, -1, 1]: atom 0 matches, its first neighbour is the
      unmapped atom 2, target atom 1 is unused and bonded like it, atom 2
      matches target atom 1, and atom 2 is the last query atom, so the
      search stops with success. */
  lemma EarlyStopAsWritten()
    ensures Shaped(EarlyStopQuery()) && Shaped(EarlyStopTarget())
    ensures forall m :: SoundMapping(EarlyStopQuery(), EarlyStopTarget(), m) ==> !Complete(m)
    ensures AtomsMatch(EarlyStopQuery(), EarlyStopTarget(), 0, 0)
    ensures NeighborList(EarlyStopQuery().bonds, EarlyStopQuery().vertices[0], 0) == [2]
    ensures BondAgrees(EarlyStopQuery(), EarlyStopTarget(), 0, 2, 0, 1)
    ensures AtomsMatch(EarlyStopQuery(), EarlyStopTarget(), 2, 1)
    ensures Partial(EarlyStopQuery(), EarlyStopTarget(), [0, -1, 1], [true, true, false])
    ensures LastMapped([0, -1, 1]) && !Complete([0, -1, 1])
  {
    EarlyStopShaped();
    EarlyStopNoMatch();
    EarlyStopState();
    var q, t := EarlyStopQuery(), EarlyStopTarget();
    assert FindBondIn(q.bonds, q.vertices, 0, 2) == 0;
    assert FindBondIn(t.bonds, t.vertices, 0, 1) == 0;
  }

  // ---------------------------------------------------------------------
  // Bond mapping and the drivers

  /** What `buildBondMapping` computes: each query bond maps to -1 when an
      endpoint is unmapped, and otherwise to what `FindBond` finds between
      the endpoints' images. */
  function BondMapping(q: View, t: View, atomMapping: seq<int>): (r: seq<int>)
    requires EndpointsInRange(q.atoms, q.bonds) && |atomMapping| == |q.atoms|
    ensures |r| == |q.bonds|
  {
    seq(|q.bonds|, i requires 0 <= i < |q.bonds| =>
      var a1 := atomMapping[q.bonds[i].beg];
      var a2 := atomMapping[q.bonds[i].end];
      if a1 == -1 || a2 == -1 then -1 else FindBondIn(t.bonds, t.vertices, a1, a2))
  }

  /** A query bond has an image exactly when both endpoints are mapped and
      their images are bonded; the image then joins those images. */
  lemma BondMappingMeans(q: View, t: View, atomMapping: seq<int>, i: int)
    requires Shaped(q) && Shaped(t) && |atomMapping| == |q.atoms| && 0 <= i < |q.bonds|
    ensures var a1, a2, r := atomMapping[q.bonds[i].beg], atomMapping[q.bonds[i].end], BondMapping(q, t, atomMapping)[i];
            (r == -1 <==> a1 == -1 || a2 == -1 || !Connected(t.bonds, a1, a2)) &&
            (r != -1 ==> 0 <= r < |t.bonds| && Joins(t.bonds[r], a1, a2))
  {
    FindBondInMeans(t, atomMapping[q.bonds[i].beg], atomMapping[q.bonds[i].end]);
  }

  /** `buildBondMapping`. */
  method BuildBondMapping(q: Molecule, t: Molecule, atomMapping: seq<int>) returns (bondMapping: seq<int>)
    requires q.Valid() && t.Valid() && |atomMapping| == |q.atoms|
    ensures bondMapping == BondMapping(ViewOf(q), ViewOf(t), atomMapping)
  {
    bondMapping := [];
    var i := 0;
    while i < |q.bonds|
      invariant 0 <= i <= |q.bonds|
      invariant bondMapping == BondMapping(ViewOf(q), ViewOf(t), atomMapping)[..i]
    {
      var qBond := q.bonds[i];
      var tAtom1 := atomMapping[qBond.beg];
      var tAtom2 := atomMapping[qBond.end];
      if tAtom1 == -1 || tAtom2 == -1 {
        bondMapping := bondMapping + [-1];
      } else {
        var tBondIdx := t.FindBond(tAtom1, tAtom2);
        bondMapping := bondMapping + [tBondIdx];
      }
      i := i + 1;
    }
  }

  /** A result the drivers return: a complete, injective mapping of
      compatible atoms, with the bond mapping built from it. */
  predicate Found(q: View, t: View, r: MatchResult)
  {
    SoundMapping(q, t, r.atomMapping) && Complete(r.atomMapping) &&
    EndpointsInRange(q.atoms, q.bonds) && r.bondMapping == BondMapping(q, t, r.atomMapping)
  }

  /** The target atom query atom 0 is mapped to, -1 for an empty mapping. */
  function Start(r: MatchResult): int
  {
    if r.atomMapping == [] then -1 else r.atomMapping[0]
  }

  /** Some result starts at target atom `s`. */
  predicate Listed(results: seq<MatchResult>, s: int)
  {
    exists k :: 0 <= k < |results| && Start(results[k]) == s
  }

  /** Appending a result keeps every start listed and lists its own. */
  lemma ListedSnoc(results: seq<MatchResult>, r: MatchResult, s: int)
    ensures Listed(results + [r], s) <==> Listed(results, s) || s == Start(r)
  {
    var rs := results + [r];
    if Listed(results, s) {
      var k :| 0 <= k < |results| && Start(results[k]) == s;
      assert rs[k] == results[k];
    }
    if s == Start(r) {
      assert rs[|results|] == r;
    }
    if Listed(rs, s) {
      var k :| 0 <= k < |rs| && Start(rs[k]) == s;
      if k < |results| {
        assert rs[k] == results[k];
      }
    }
  }

  /** The results of the starts below `n`: at most one per start, each a
      match, in increasing order of start, and every start some embedding
      uses is listed. */
  ghost predicate Collected(q: View, t: View, results: seq<MatchResult>, n: int)
  {
    |results| <= n &&
    (forall k :: 0 <= k < |results| ==> Found(q, t, results[k]) && 0 <= Start(results[k]) < n) &&
    (forall j, k :: 0 <= j < k < |results| ==> Start(results[j]) < Start(results[k])) &&
    forall s :: 0 <= s < n && EmbeddingFrom(q, t, s) ==> Listed(results, s)
  }

  /** One start's outcome, appended when it is a match, keeps the results
      collected. */
  lemma CollectStep(q: View, t: View, results: seq<MatchResult>, n: int, r: Option<MatchResult>)
    requires 0 <= n && Collected(q, t, results, n)
    requires r.Some? ==> Found(q, t, r.value) && Start(r.value) == n
    requires r.None? ==> !EmbeddingFrom(q, t, n)
    ensures Collected(q, t, if r.Some? then results + [r.value] else results, n + 1)
  {
    if r.Some? {
      var rs := results + [r.value];
      forall s | 0 <= s < n + 1 && EmbeddingFrom(q, t, s)
        ensures Listed(rs, s)
      {
        ListedSnoc(results, r.value, s);
      }
    }
  }

  /** The search from one start: query atom 0 on target atom
      `targetStart`, with fresh arrays (the loop body shared by `FindAll`
      and `FindFirst`). */
  method MatchFromStart(q: Molecule, t: Molecule, targetStart: int) returns (r: Option<MatchResult>)
    requires q.Valid() && t.Valid() && 0 < |q.atoms| && 0 <= targetStart < |t.atoms|
    ensures r.Some? ==> Found(ViewOf(q), ViewOf(t), r.value) && Start(r.value) == targetStart
    ensures r.None? ==> !EmbeddingFrom(ViewOf(q), ViewOf(t), targetStart)
  {
    var atomMapping := new int[|q.atoms|](_ => -1);
    var used := new bool[|t.atoms|](_ => false);
    assert Partial(ViewOf(q), ViewOf(t), atomMapping[..], used[..]);
    StartExtendable(ViewOf(q), ViewOf(t), atomMapping[..], targetStart);
    var found := RecursiveMatch(q, t, 0, targetStart, atomMapping, used);
    if found {
      var m := atomMapping[..];
      var bondMapping := BuildBondMapping(q, t, m);
      return Some(MatchResult(m, bondMapping));
    }
    return None;
  }

  /** `FindFirst`: the match from the lowest target atom that starts one. */
  method FindFirst(q: Molecule, t: Molecule) returns (r: Option<MatchResult>)
    requires q.Valid() && t.Valid() && 0 < |q.atoms|
    ensures |q.atoms| > |t.atoms| ==> r == None
    ensures r.Some? ==> Found(ViewOf(q), ViewOf(t), r.value)
    ensures r.Some? ==> forall s :: 0 <= s < Start(r.value) ==> !EmbeddingFrom(ViewOf(q), ViewOf(t), s)
    ensures r.None? ==> forall e :: !Embedding(ViewOf(q), ViewOf(t), e)
  {
    if |q.atoms| > |t.atoms| {
      forall e
        ensures !Embedding(ViewOf(q), ViewOf(t), e)
      {
        EmbeddingFits(ViewOf(q), ViewOf(t), e);
      }
      return None;
    }
    var targetStart := 0;
    while targetStart < |t.atoms|
      invariant 0 <= targetStart <= |t.atoms|
      invariant forall s :: 0 <= s < targetStart ==> !EmbeddingFrom(ViewOf(q), ViewOf(t), s)
    {
      r := MatchFromStart(q, t, targetStart);
      if r.Some? {
        return;
      }
      targetStart := targetStart + 1;
    }
    forall e
      ensures !Embedding(ViewOf(q), ViewOf(t), e)
    {
      EmbeddingFits(ViewOf(q), ViewOf(t), e);
    }
    return None;
  }

  /** `FindAll`: at most one match per target start atom, in increasing
      order of the target atom matched to query atom 0. */
  method FindAll(q: Molecule, t: Molecule) returns (results: seq<MatchResult>)
    requires q.Valid() && t.Valid() && 0 < |q.atoms|
    ensures |q.atoms| > |t.atoms| ==> results == []
    ensures |results| <= |t.atoms|
    ensures forall k :: 0 <= k < |results| ==> Found(ViewOf(q), ViewOf(t), results[k])
    ensures forall j, k :: 0 <= j < k < |results| ==> Start(results[j]) < Start(results[k])
    ensures forall s :: EmbeddingFrom(ViewOf(q), ViewOf(t), s) ==> Listed(results, s)
  {
    if |q.atoms| > |t.atoms| {
      forall s
        ensures !EmbeddingFrom(ViewOf(q), ViewOf(t), s)
      {
        FromFits(ViewOf(q), ViewOf(t), s);
      }
      return [];
    }
    results := [];
    var targetStart := 0;
    while targetStart < |t.atoms|
      invariant 0 <= targetStart <= |t.atoms|
      invariant Collected(ViewOf(q), ViewOf(t), results, targetStart)
    {
      var r := MatchFromStart(q, t, targetStart);
      CollectStep(ViewOf(q), ViewOf(t), results, targetStart, r);
      if r.Some? {
        results := results + [r.value];
      }
      targetStart := targetStart + 1;
    }
    forall s | EmbeddingFrom(ViewOf(q), ViewOf(t), s)
      ensures 0 <= s < |t.atoms|
    {
      FromFits(ViewOf(q), ViewOf(t), s);
    }
  }

  /** `HasMatch`: a match is found only when a complete, injective mapping
      of compatible atoms exists. */
  method HasMatch(q: Molecule, t: Molecule) returns (found: bool)
    requires q.Valid() && t.Valid() && 0 < |q.atoms|
    ensures |q.atoms| > |t.atoms| ==> !found
    ensures found ==> exists m :: SoundMapping(ViewOf(q), ViewOf(t), m) && Complete(m)
    ensures (exists e :: Embedding(ViewOf(q), ViewOf(t), e)) ==> found
  {
    var r := FindFirst(q, t);
    found := r != None;
  }

  /** `CountMatches`: the number of matches `FindAll` returns. */
  method CountMatches(q: Molecule, t: Molecule) returns (count: int)
    requires q.Valid() && t.Valid() && 0 < |q.atoms|
    ensures 0 <= count <= |t.atoms|
    ensures |q.atoms| > |t.atoms| ==> count == 0
    ensures (exists e :: Embedding(ViewOf(q), ViewOf(t), e)) ==> count > 0
  {
    var matches := FindAll(q, t);
    count := |matches|;
    if e :| Embedding(ViewOf(q), ViewOf(t), e) {
      EmbeddingFits(ViewOf(q), ViewOf(t), e);
    }
  }

  // ---------------------------------------------------------------------
  // MatchResult helpers

  /** The entries other than -1, in order. */
  function Matched(s: seq<int>): (r: seq<int>)
    ensures |r| <= |s|
  {
    if s == [] then []
    else Matched(s[..|s| - 1]) + (if s[|s| - 1] != -1 then [s[|s| - 1]] else [])
  }

  /** `Matched` keeps exactly the entries other than -1. */
  lemma {:induction false} MatchedMembers(s: seq<int>)
    ensures forall x :: x in Matched(s) <==> x in s && x != -1
  {
    if s != [] {
      MatchedMembers(s[..|s| - 1]);
      assert s == s[..|s| - 1] + [s[|s| - 1]];
    }
  }

  /** `Matched` keeps the order: it distributes over concatenation. */
  lemma {:induction false} MatchedAppend(a: seq<int>, b: seq<int>)
    ensures Matched(a + b) == Matched(a) + Matched(b)
  {
    if b == [] {
      assert a + b == a;
    } else {
      assert (a + b)[..|a + b| - 1] == a + b[..|b| - 1];
      MatchedAppend(a, b[..|b| - 1]);
    }
  }

  /** A mapping is complete exactly when `Matched` drops nothing. */
  lemma {:induction false} CompleteIffNothingDropped(s: seq<int>)
    ensures Complete(s) <==> Matched(s) == s
  {
    if s != [] {
      var init := s[..|s| - 1];
      CompleteIffNothingDropped(init);
      if s[|s| - 1] == -1 {
        assert Matched(s) == Matched(init) && |Matched(init)| < |s|;
        assert !Complete(s) by { assert s[|s| - 1] == -1; }
      } else {
        assert Matched(s) == Matched(init) + [s[|s| - 1]];
        assert s == init + [s[|s| - 1]];
        if Matched(s) == s {
          assert Matched(s)[..|init|] == Matched(init);
        }
        assert Complete(s) <==> Complete(init);
      }
    }
  }

  /** `GetMatchedAtoms`. */
  method GetMatchedAtoms(mr: MatchResult) returns (matched: seq<int>)
    ensures matched == Matched(mr.atomMapping)
  {
    matched := KeepMapped(mr.atomMapping);
  }

  /** `GetMatchedBonds`. */
  method GetMatchedBonds(mr: MatchResult) returns (matched: seq<int>)
    ensures matched == Matched(mr.bondMapping)
  {
    matched := KeepMapped(mr.bondMapping);
  }

  /** The loop shared by `GetMatchedAtoms` and `GetMatchedBonds`. */
  method KeepMapped(s: seq<int>) returns (matched: seq<int>)
    ensures matched == Matched(s)
  {
    matched := [];
    var k := 0;
    while k < |s|
      invariant 0 <= k <= |s|
      invariant matched == Matched(s[..k])
    {
      assert s[..k + 1][..k] == s[..k];
      if s[k] != -1 {
        matched := matched + [s[k]];
      }
      k := k + 1;
    }
    assert s[..k] == s;
  }

  /** `IsComplete`. */
  method IsComplete(mr: MatchResult) returns (complete: bool)
    ensures complete == Complete(mr.atomMapping)
  {
    var k := 0;
    while k < |mr.atomMapping|
      invariant 0 <= k <= |mr.atomMapping|
      invariant forall j :: 0 <= j < k ==> mr.atomMapping[j] != -1
    {
      if mr.atomMapping[k] == -1 {
        return false;
      }
      k := k + 1;
    }
    return true;
  }
}
