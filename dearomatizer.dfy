// The six-ring dearomatizer (src/molecule/dearomatizer.go): every six-cycle
// whose bonds are all aromatic is rewritten single, double, single, ...
// starting from its lowest-numbered atom; any aromatic bond left over
// becomes single.

module Dearomatizer {
  import opened MoleculeGraph
  import opened Aromatizer

  /** What `Apply` carries from one step to the next: the bond list,
      `BondOrders` and the `used` flag of each bond already rewritten. */
  datatype Progress = Progress(bonds: seq<Bond>, orders: seq<int>, used: seq<bool>)

  predicate Fits(p: Progress)
  {
    |p.orders| == |p.bonds| && |p.used| == |p.bonds|
  }

  /** `setBondOrderInternal(e, order)` followed by `used[e] = true`. */
  function Assign(p: Progress, e: int, order: int): (r: Progress)
    requires Fits(p) && 0 <= e < |p.bonds|
    ensures Fits(r) && |r.bonds| == |p.bonds|
  {
    Progress(p.bonds[e := p.bonds[e].(order := order)], p.orders[e := order], p.used[e := true])
  }

  /** The six cycle edges read from position `start` onwards. */
  function Rotated(es: seq<int>, start: nat): (r: seq<int>)
    requires |es| == 6
    ensures |r| == 6 && forall i :: 0 <= i < 6 ==> r[i] in es
  {
    seq(6, i requires 0 <= i < 6 => es[(start + i) % 6])
  }

  /** The order `Apply` gives the edge at position `i` of the rotation. */
  function Kekule(i: nat): int
  {
    if i % 2 == 0 then BondSingle else BondDouble
  }

  /** The first `n` positions of the rotated edges: an edge not used yet
      gets `Kekule` of its position; a used one is skipped. */
  function KekuleUpTo(p: Progress, rotated: seq<int>, n: nat): (r: Progress)
    requires Fits(p) && n <= |rotated|
    requires forall i :: 0 <= i < |rotated| ==> 0 <= rotated[i] < |p.bonds|
    ensures Fits(r) && |r.bonds| == |p.bonds|
    ensures forall i :: 0 <= i < |p.bonds| ==> r.bonds[i].beg == p.bonds[i].beg && r.bonds[i].end == p.bonds[i].end
  {
    if n == 0 then p
    else
      var q := KekuleUpTo(p, rotated, n - 1);
      var e := rotated[n - 1];
      if q.used[e] then q else Assign(q, e, Kekule(n - 1))
  }

  /** What the cycle walk needs of the graph: an edge list per atom, each
      naming bonds. The rewrites keep it, as they keep the bond count. */
  predicate Shaped(atoms: seq<Atom>, bonds: seq<Bond>, vertices: seq<seq<int>>)
  {
    |vertices| == |atoms| && EdgesInRange(vertices, bonds)
  }

  /** Every listed edge has the aromatic order. */
  predicate AllAromatic(bonds: seq<Bond>, es: seq<int>)
  {
    forall k :: 0 <= k < |es| ==> BondOrderOf(bonds, es[k]) == BondAromatic
  }

  /** One cycle of `Apply`: skipped unless it has six edges, all aromatic. */
  function CycleStep(atoms: seq<Atom>, vertices: seq<seq<int>>, p: Progress, cycle: seq<int>): (r: Progress)
    requires Shaped(atoms, p.bonds, vertices) && Fits(p) && CycleInRange(atoms, cycle)
    ensures Fits(r) && |r.bonds| == |p.bonds|
    ensures forall i :: 0 <= i < |p.bonds| ==> r.bonds[i].beg == p.bonds[i].beg && r.bonds[i].end == p.bonds[i].end
  {
    var es := CycleEdgesOf(p.bonds, vertices, cycle, |cycle|);
    if !AllAromatic(p.bonds, es) || |es| != 6 then p
    else
      KekuleUpTo(p, Rotated(es, FirstMinIndex(cycle)), 6)
  }

  /** The cycle loop of `Apply` over `cycles`. */
  function CyclesStep(atoms: seq<Atom>, vertices: seq<seq<int>>, p: Progress, cycles: seq<seq<int>>): (r: Progress)
    requires Shaped(atoms, p.bonds, vertices) && Fits(p)
    requires forall k :: 0 <= k < |cycles| ==> CycleInRange(atoms, cycles[k])
    ensures Fits(r) && |r.bonds| == |p.bonds|
    ensures forall i :: 0 <= i < |p.bonds| ==> r.bonds[i].beg == p.bonds[i].beg && r.bonds[i].end == p.bonds[i].end
    decreases |cycles|
  {
    if cycles == [] then p
    else CycleStep(atoms, vertices, CyclesStep(atoms, vertices, p, cycles[..|cycles| - 1]), cycles[|cycles| - 1])
  }

  /** The first `n` steps of the final loop: an aromatic `BondOrders`
      entry whose bond is not used becomes single. */
  function Leftovers(p: Progress, n: nat): (r: Progress)
    requires Fits(p)
    ensures Fits(r) && |r.bonds| == |p.bonds| && r.used == p.used
    ensures forall i :: 0 <= i < |p.bonds| ==> r.bonds[i].beg == p.bonds[i].beg && r.bonds[i].end == p.bonds[i].end
  {
    Progress(seq(|p.bonds|, i requires 0 <= i < |p.bonds| =>
               if i < n && p.orders[i] == BondAromatic && !p.used[i] then p.bonds[i].(order := BondSingle) else p.bonds[i]),
             seq(|p.orders|, i requires 0 <= i < |p.orders| =>
               if i < n && p.orders[i] == BondAromatic && !p.used[i] then BondSingle else p.orders[i]),
             p.used)
  }

  /** The flags `Apply` starts from: no bond used. */
  function Unused(n: nat): (u: seq<bool>)
    ensures |u| == n && forall i :: 0 <= i < n ==> !u[i]
  {
    seq(n, _ => false)
  }

  /** Bonds and `BondOrders` after `Apply` with the given cycles. */
  function Dearomatized(atoms: seq<Atom>, bonds: seq<Bond>, orders: seq<int>, vertices: seq<seq<int>>,
                        cycles: seq<seq<int>>): (r: Progress)
    requires WellFormed(atoms, bonds, vertices) && |orders| == |bonds|
    requires forall k :: 0 <= k < |cycles| ==> CycleInRange(atoms, cycles[k])
    ensures Fits(r) && |r.bonds| == |bonds|
  {
    Leftovers(CyclesStep(atoms, vertices, Progress(bonds, orders, Unused(|bonds|)), cycles), |bonds|)
  }

  // ---------------------------------------------------------------------
  // What `Apply` guarantees

  /** Relation of a `Progress` to the bonds and orders `Apply` started
      from: a used bond was aromatic and now carries single or double in
      both places; any other bond is untouched. */
  predicate Tracks(b0: seq<Bond>, o0: seq<int>, p: Progress)
  {
    Fits(p) && |p.bonds| == |b0| && |o0| == |b0| &&
    forall i :: 0 <= i < |b0| ==>
      if p.used[i] then
        b0[i].order == BondAromatic && (p.orders[i] == BondSingle || p.orders[i] == BondDouble) &&
        p.bonds[i] == b0[i].(order := p.orders[i])
      else p.bonds[i] == b0[i] && p.orders[i] == o0[i]
  }

  lemma {:induction false} KekuleTracks(b0: seq<Bond>, o0: seq<int>, p: Progress, rotated: seq<int>, n: nat)
    requires Tracks(b0, o0, p) && n <= |rotated|
    requires forall t :: 0 <= t < |rotated| ==> 0 <= rotated[t] < |b0| && b0[rotated[t]].order == BondAromatic
    ensures Tracks(b0, o0, KekuleUpTo(p, rotated, n))
  {
    if n > 0 {
      KekuleTracks(b0, o0, p, rotated, n - 1);
    }
  }

  lemma CycleStepTracks(atoms: seq<Atom>, vertices: seq<seq<int>>, b0: seq<Bond>, o0: seq<int>, p: Progress, cycle: seq<int>)
    requires Shaped(atoms, p.bonds, vertices) && Tracks(b0, o0, p) && CycleInRange(atoms, cycle)
    ensures Tracks(b0, o0, CycleStep(atoms, vertices, p, cycle))
  {
    var es := CycleEdgesOf(p.bonds, vertices, cycle, |cycle|);
    if AllAromatic(p.bonds, es) && |es| == 6 {
      var rotated := Rotated(es, FirstMinIndex(cycle));
      forall t | 0 <= t < |rotated|
        ensures 0 <= rotated[t] < |b0| && b0[rotated[t]].order == BondAromatic
      {
        var k :| 0 <= k < |es| && es[k] == rotated[t];
        assert BondOrderOf(p.bonds, es[k]) == BondAromatic;
      }
      KekuleTracks(b0, o0, p, rotated, 6);
    }
  }

  lemma {:induction false} CyclesTracks(atoms: seq<Atom>, vertices: seq<seq<int>>, b0: seq<Bond>, o0: seq<int>,
                                        p: Progress, cycles: seq<seq<int>>)
    requires Shaped(atoms, p.bonds, vertices) && Tracks(b0, o0, p)
    requires forall k :: 0 <= k < |cycles| ==> CycleInRange(atoms, cycles[k])
    ensures Tracks(b0, o0, CyclesStep(atoms, vertices, p, cycles))
    decreases |cycles|
  {
    if cycles != [] {
      var init := cycles[..|cycles| - 1];
      CyclesTracks(atoms, vertices, b0, o0, p, init);
      CycleStepTracks(atoms, vertices, b0, o0, CyclesStep(atoms, vertices, p, init), cycles[|cycles| - 1]);
    }
  }

  /** After `Apply` no `BondOrders` entry is aromatic; an entry changes
      only where the bond or its entry was aromatic; and a changed bond
      carries the new entry as its order. */
  lemma DearomatizedClean(atoms: seq<Atom>, bonds: seq<Bond>, orders: seq<int>, vertices: seq<seq<int>>,
                          cycles: seq<seq<int>>)
    requires WellFormed(atoms, bonds, vertices) && |orders| == |bonds|
    requires forall k :: 0 <= k < |cycles| ==> CycleInRange(atoms, cycles[k])
    ensures var r := Dearomatized(atoms, bonds, orders, vertices, cycles);
            forall i :: 0 <= i < |bonds| ==>
              r.orders[i] != BondAromatic &&
              (r.orders[i] != orders[i] ==> orders[i] == BondAromatic || bonds[i].order == BondAromatic) &&
              (r.bonds[i] == bonds[i] || r.bonds[i] == bonds[i].(order := r.orders[i]))
  {
    var p0 := Progress(bonds, orders, Unused(|bonds|));
    CyclesTracks(atoms, vertices, bonds, orders, p0, cycles);
  }

  /** Positions of a cycle without repeated atoms that are joined to the
      same pair of atoms are the same position, when it has three or more. */
  lemma StepsDiffer(c: seq<int>, i: nat, j: nat)
    requires |c| >= 3 && Distinct(c) && i < j < |c|
    ensures !(c[i] == c[j] && Next(c, i) == Next(c, j)) && !(c[i] == Next(c, j) && Next(c, i) == c[j])
  {
    assert Next(c, i) == c[i + 1];
    if j + 1 < |c| {
      assert Next(c, j) == c[j + 1] && c[i] != c[j + 1];
    } else {
      assert Next(c, j) == c[0];
      if i == 0 {
        assert c[1] != c[j];
      }
    }
  }

  /** The edges of a cycle without repeated atoms are all different. */
  lemma EdgesDistinct(bonds: seq<Bond>, es: seq<int>, c: seq<int>)
    requires |c| == |es| >= 3 && Distinct(c)
    requires forall i :: 0 <= i < |es| ==> 0 <= es[i] < |bonds| && Joins(bonds[es[i]], c[i], Next(c, i))
    ensures Distinct(es)
  {
    forall i, j | 0 <= i < j < |es|
      ensures es[i] != es[j]
    {
      StepsDiffer(c, i, j);
    }
  }

  /** The rotation of six different edges has no repeats. */
  lemma RotatedDistinct(es: seq<int>, start: nat)
    requires |es| == 6 && Distinct(es)
    ensures Distinct(Rotated(es, start))
  {
    forall i, j | 0 <= i < j < 6
      ensures Rotated(es, start)[i] != Rotated(es, start)[j]
    {
      assert (start + i) % 6 != (start + j) % 6;
    }
  }

  /** Distinct unused edges are each rewritten to `Kekule` of their position. */
  lemma {:induction false} KekuleFresh(p: Progress, rotated: seq<int>, n: nat)
    requires Fits(p) && n <= |rotated| && Distinct(rotated)
    requires forall t :: 0 <= t < |rotated| ==> 0 <= rotated[t] < |p.bonds| && !p.used[rotated[t]]
    ensures var r := KekuleUpTo(p, rotated, n);
            (forall t :: 0 <= t < n ==> r.used[rotated[t]] && r.orders[rotated[t]] == Kekule(t) &&
                                         r.bonds[rotated[t]] == p.bonds[rotated[t]].(order := Kekule(t))) &&
            (forall t :: n <= t < |rotated| ==> !r.used[rotated[t]] && r.bonds[rotated[t]] == p.bonds[rotated[t]])
  {
    if n > 0 {
      KekuleFresh(p, rotated, n - 1);
      var q, e := KekuleUpTo(p, rotated, n - 1), rotated[n - 1];
      assert !q.used[e];
      assert KekuleUpTo(p, rotated, n) == Assign(q, e, Kekule(n - 1));
      forall t | 0 <= t < |rotated| && t != n - 1
        ensures rotated[t] != e
      {
      }
    }
  }

  /** On benzene the one six-ring step is the full rotation rewrite,
      followed by the final loop. */
  lemma BenzeneStep(atoms: seq<Atom>, bonds: seq<Bond>, orders: seq<int>, vertices: seq<seq<int>>, c: seq<int>,
                    es: seq<int>, rotated: seq<int>)
    requires WellFormed(atoms, bonds, vertices) && |orders| == |bonds| && CycleInRange(atoms, c) && |c| == 6
    requires es == CycleEdgesOf(bonds, vertices, c, 6) && |es| == 6
    requires forall i :: 0 <= i < |bonds| ==> bonds[i].order == BondAromatic
    requires rotated == Rotated(es, FirstMinIndex(c))
    ensures Dearomatized(atoms, bonds, orders, vertices, [c]) ==
            Leftovers(KekuleUpTo(Progress(bonds, orders, Unused(|bonds|)), rotated, 6), |bonds|)
  {
    assert [c][..0] == [];
    assert AllAromatic(bonds, es);
    assert CyclesStep(atoms, vertices, Progress(bonds, orders, Unused(|bonds|)), [c]) ==
           KekuleUpTo(Progress(bonds, orders, Unused(|bonds|)), rotated, 6);
  }

  /** Distinct unused edges rewritten by position keep their new orders
      through the final loop. */
  lemma KekuleKept(p: Progress, rotated: seq<int>, r: Progress)
    requires Fits(p) && |rotated| == 6 && Distinct(rotated)
    requires forall t :: 0 <= t < 6 ==> 0 <= rotated[t] < |p.bonds| && !p.used[rotated[t]]
    requires r == Leftovers(KekuleUpTo(p, rotated, 6), |p.bonds|)
    ensures |r.bonds| == |p.bonds|
    ensures forall t :: 0 <= t < 6 ==>
              r.orders[rotated[t]] == Kekule(t) && r.bonds[rotated[t]] == p.bonds[rotated[t]].(order := Kekule(t))
  {
    KekuleFresh(p, rotated, 6);
  }

  /** Reading a rotation back at the original positions: what position `t`
      of the rotation from `start` holds lands on position `start + t`. */
  lemma RotatedBack(es: seq<int>, start: nat, rotated: seq<int>, orders: seq<int>, after: seq<Bond>, before: seq<Bond>)
    requires |es| == 6 && start < 6 && rotated == Rotated(es, start)
    requires forall i :: 0 <= i < 6 ==> 0 <= es[i] < |orders| && es[i] < |after| && es[i] < |before|
    requires forall t :: 0 <= t < 6 ==> orders[rotated[t]] == Kekule(t) && after[rotated[t]] == before[rotated[t]].(order := Kekule(t))
    ensures forall i :: 0 <= i < 6 ==>
              orders[es[i]] == Kekule(i + start) &&
              after[es[i]] == before[es[i]].(order := orders[es[i]])
  {
    forall i | 0 <= i < 6
      ensures orders[es[i]] == Kekule(i + start)
      ensures after[es[i]] == before[es[i]].(order := orders[es[i]])
    {
      var t := if i >= start then i - start else i + 6 - start;
      RotatedIndex(i, start, t);
      assert rotated[t] == es[(start + t) % 6];
    }
  }

  /** Position `i` of the cycle sits at position `t` of the rotation from
      `start`, and `t` is even exactly when `i + start` is. */
  lemma RotatedIndex(i: nat, start: nat, t: nat)
    requires i < 6 && start < 6 && t == if i >= start then i - start else i + 6 - start
    ensures t < 6 && (start + t) % 6 == i && (t % 2 == 0 <==> (i + start) % 2 == 0)
  {
  }

  /** Six distinct unused edges rewritten from position `start` end up,
      after the final loop, with `Kekule(i + start)` at position `i`. */
  lemma KekuleAround(p: Progress, es: seq<int>, start: nat, r: Progress)
    requires Fits(p) && |es| == 6 && Distinct(es) && start < 6
    requires forall i :: 0 <= i < 6 ==> 0 <= es[i] < |p.bonds| && !p.used[es[i]]
    requires r == Leftovers(KekuleUpTo(p, Rotated(es, start), 6), |p.bonds|)
    ensures |r.bonds| == |p.bonds|
    ensures forall i :: 0 <= i < 6 ==>
              r.orders[es[i]] == Kekule(i + start) && r.bonds[es[i]] == p.bonds[es[i]].(order := r.orders[es[i]])
  {
    var rotated := Rotated(es, start);
    RotatedDistinct(es, start);
    KekuleKept(p, rotated, r);
    RotatedBack(es, start, rotated, r.orders, r.bonds, p.bonds);
  }

  /** The six edges of a ring of distinct, joined atoms: one per step,
      each joining its step, all different. */
  lemma RingEdges(atoms: seq<Atom>, bonds: seq<Bond>, vertices: seq<seq<int>>, c: seq<int>)
    requires WellFormed(atoms, bonds, vertices) && CycleInRange(atoms, c)
    requires |c| == 6 && Distinct(c)
    requires forall i :: 0 <= i < 6 ==> Connected(bonds, c[i], Next(c, i))
    ensures var es := CycleEdgesOf(bonds, vertices, c, 6);
            |es| == 6 && Distinct(es) && forall i :: 0 <= i < 6 ==> Joins(bonds[es[i]], c[i], Next(c, i))
  {
    CycleEdgesComplete(atoms, bonds, vertices, c, 6);
    CycleEdgesJoin(bonds, vertices, c, 6);
    EdgesDistinct(bonds, CycleEdgesOf(bonds, vertices, c, 6), c);
  }

  /** Benzene: a six-ring of distinct atoms whose bonds are all aromatic
      comes out with the bond leaving the lowest atom (at position
      `start`) single and the others alternating, in `BondOrders` and in
      the bond list alike; with `RingEdges`, edge `i` is the bond between
      atom `i` and the next. */
  lemma BenzeneKekule(atoms: seq<Atom>, bonds: seq<Bond>, orders: seq<int>, vertices: seq<seq<int>>, c: seq<int>,
                      start: nat, r: Progress)
    requires WellFormed(atoms, bonds, vertices) && |orders| == |bonds| && CycleInRange(atoms, c)
    requires |c| == 6 && Distinct(c)
    requires forall i :: 0 <= i < 6 ==> Connected(bonds, c[i], Next(c, i))
    requires forall i :: 0 <= i < |bonds| ==> bonds[i].order == BondAromatic
    requires start == FirstMinIndex(c) && r == Dearomatized(atoms, bonds, orders, vertices, [c])
    ensures |CycleEdgesOf(bonds, vertices, c, 6)| == 6 && |r.bonds| == |bonds|
    ensures forall i :: 0 <= i < 6 ==>
              r.orders[CycleEdgesOf(bonds, vertices, c, 6)[i]] == Kekule(i + start)
    ensures forall i :: 0 <= i < 6 ==>
              r.bonds[CycleEdgesOf(bonds, vertices, c, 6)[i]] ==
                bonds[CycleEdgesOf(bonds, vertices, c, 6)[i]].(order := r.orders[CycleEdgesOf(bonds, vertices, c, 6)[i]])
  {
    var es := CycleEdgesOf(bonds, vertices, c, 6);
    RingEdges(atoms, bonds, vertices, c);
    var p0 := Progress(bonds, orders, Unused(|bonds|));
    BenzeneStep(atoms, bonds, orders, vertices, c, es, Rotated(es, start));
    KekuleAround(p0, es, start, r);
  }

  // ---------------------------------------------------------------------
  // The methods

  lemma KekuleNext(p: Progress, rotated: seq<int>, n: nat)
    requires Fits(p) && n < |rotated|
    requires forall i :: 0 <= i < |rotated| ==> 0 <= rotated[i] < |p.bonds|
    ensures var q, e := KekuleUpTo(p, rotated, n), rotated[n];
            KekuleUpTo(p, rotated, n + 1) == if q.used[e] then q else Assign(q, e, Kekule(n))
  {
  }

  /** The aromatic check of `Apply`, leaving at the first edge that is not. */
  method CheckAromatic(m: Molecule, es: seq<int>) returns (ok: bool)
    ensures ok == AllAromatic(m.bonds, es)
  {
    ok := true;
    var j := 0;
    while j < |es|
      invariant 0 <= j <= |es|
      invariant AllAromatic(m.bonds, es[..j])
    {
      if BondOrderOf(m.bonds, es[j]) != BondAromatic {
        return false;
      }
      j := j + 1;
    }
    assert es[..j] == es;
  }

  /** The rotated edge buffer of `Apply`. */
  method RotateEdges(es: seq<int>, start: nat) returns (rotated: array<int>)
    requires |es| == 6
    ensures fresh(rotated) && rotated[..] == Rotated(es, start)
  {
    rotated := new int[6];
    for i := 0 to 6
      invariant rotated[..i] == Rotated(es, start)[..i]
    {
      rotated[i] := es[(start + i) % 6];
    }
    assert rotated[..] == rotated[..6];
  }

  /** The rewriting loop of `Apply` over the rotated edges. */
  method AssignRotated(m: Molecule, rotated: seq<int>, used: seq<bool>) returns (used': seq<bool>)
    requires m.Valid() && |m.bondOrders| == |m.bonds| && |used| == |m.bonds|
    requires forall t :: 0 <= t < |rotated| ==> 0 <= rotated[t] < |m.bonds|
    modifies m`bonds, m`bondOrders, m`connectivity, m`implicitH, m`aromaticity, m`aromatized
    ensures m.Valid() && |m.bondOrders| == |m.bonds|
    ensures Progress(m.bonds, m.bondOrders, used') ==
            KekuleUpTo(Progress(old(m.bonds), old(m.bondOrders), used), rotated, |rotated|)
    ensures KeptOrDropped(old(m.connectivity), m.connectivity) && KeptOrDropped(old(m.implicitH), m.implicitH)
    ensures m.aromaticity == old(m.aromaticity) || m.aromaticity == []
    ensures m.aromatized ==> old(m.aromatized)
  {
    ghost var p0 := Progress(m.bonds, m.bondOrders, used);
    ghost var c0, h0 := m.connectivity, m.implicitH;
    used' := used;
    for i := 0 to |rotated|
      invariant m.Valid() && |m.bondOrders| == |m.bonds| == |p0.bonds| && |used'| == |m.bonds|
      invariant Progress(m.bonds, m.bondOrders, used') == KekuleUpTo(p0, rotated, i)
      invariant KeptOrDropped(c0, m.connectivity) && KeptOrDropped(h0, m.implicitH)
      invariant m.aromaticity == old(m.aromaticity) || m.aromaticity == []
      invariant m.aromatized ==> old(m.aromatized)
    {
      KekuleNext(p0, rotated, i);
      var e := rotated[i];
      if used'[e] {
        continue;
      }
      var b := m.bonds[e];
      DropTwice(c0, m.connectivity, b.beg, b.end);
      DropTwice(h0, m.implicitH, b.beg, b.end);
      if i % 2 == 0 {
        m.SetBondOrderInternal(e, BondSingle);
      } else {
        m.SetBondOrderInternal(e, BondDouble);
      }
      used' := used'[e := true];
    }
  }

  /** One cycle of `Apply`: the aromatic check over the cycle edges, the
      start at the first lowest atom, the rotation and the rewriting. */
  method ApplyCycle(m: Molecule, cycle: seq<int>, used: seq<bool>) returns (used': seq<bool>)
    requires m.Valid() && |m.bondOrders| == |m.bonds| && |used| == |m.bonds| && CycleInRange(m.atoms, cycle)
    modifies m`bonds, m`bondOrders, m`connectivity, m`implicitH, m`aromaticity, m`aromatized
    ensures m.Valid() && |m.bondOrders| == |m.bonds|
    ensures Progress(m.bonds, m.bondOrders, used') ==
            CycleStep(m.atoms, m.vertices, Progress(old(m.bonds), old(m.bondOrders), used), cycle)
    ensures KeptOrDropped(old(m.connectivity), m.connectivity) && KeptOrDropped(old(m.implicitH), m.implicitH)
    ensures m.aromaticity == old(m.aromaticity) || m.aromaticity == []
    ensures m.aromatized ==> old(m.aromatized)
  {
    var es := CycleEdges(m, cycle);
    var ok := CheckAromatic(m, es);
    if !ok || |es| != 6 {
      return used;
    }
    var start := MinIndex(cycle);
    var rotated := RotateEdges(es, start);
    used' := AssignRotated(m, rotated[..], used);
  }

  lemma LeftoversNext(p: Progress, i: nat)
    requires Fits(p) && i < |p.bonds|
    ensures var q := Leftovers(p, i);
            q.orders[i] == p.orders[i] && q.bonds[i] == p.bonds[i] &&
            Leftovers(p, i + 1) ==
              if p.orders[i] == BondAromatic && !p.used[i]
              then Progress(q.bonds[i := q.bonds[i].(order := BondSingle)], q.orders[i := BondSingle], q.used)
              else q
  {
  }

  /** The final loop of `Apply`. */
  method ClearLeftovers(m: Molecule, used: seq<bool>)
    requires m.Valid() && |m.bondOrders| == |m.bonds| && |used| == |m.bonds|
    modifies m`bonds, m`bondOrders, m`connectivity, m`implicitH, m`aromaticity, m`aromatized
    ensures m.Valid()
    ensures Progress(m.bonds, m.bondOrders, used) == Leftovers(Progress(old(m.bonds), old(m.bondOrders), used), |m.bonds|)
    ensures KeptOrDropped(old(m.connectivity), m.connectivity) && KeptOrDropped(old(m.implicitH), m.implicitH)
    ensures m.aromaticity == old(m.aromaticity) || m.aromaticity == []
    ensures m.aromatized ==> old(m.aromatized)
  {
    ghost var p := Progress(m.bonds, m.bondOrders, used);
    ghost var c0, h0 := m.connectivity, m.implicitH;
    var i := 0;
    while i < |m.bonds|
      invariant 0 <= i <= |p.bonds| && m.Valid() && |m.bondOrders| == |m.bonds| == |p.bonds|
      invariant Progress(m.bonds, m.bondOrders, used) == Leftovers(p, i)
      invariant KeptOrDropped(c0, m.connectivity) && KeptOrDropped(h0, m.implicitH)
      invariant m.aromaticity == old(m.aromaticity) || m.aromaticity == []
      invariant m.aromatized ==> old(m.aromatized)
    {
      LeftoversNext(p, i);
      if m.bondOrders[i] == BondAromatic && !used[i] {
        var b := m.bonds[i];
        DropTwice(c0, m.connectivity, b.beg, b.end);
        DropTwice(h0, m.implicitH, b.beg, b.end);
        m.SetBondOrderInternal(i, BondSingle);
      }
      i := i + 1;
    }
  }

  /** `DearomatizerBase.Apply`. The cycles are those
      `findSimpleCyclesOfLength(m, 6)` returns; the final loop indexes
      `BondOrders` by bond, so it must be as long as the bond list. */
  method Apply(m: Molecule, cycles: seq<seq<int>>)
    requires m.Valid() && |m.bondOrders| == |m.bonds|
    requires forall k :: 0 <= k < |cycles| ==> CycleInRange(m.atoms, cycles[k])
    modifies m`bonds, m`bondOrders, m`connectivity, m`implicitH, m`aromaticity, m`aromatized
    ensures m.Valid()
    ensures m.bonds == Dearomatized(m.atoms, old(m.bonds), old(m.bondOrders), m.vertices, cycles).bonds
    ensures m.bondOrders == Dearomatized(m.atoms, old(m.bonds), old(m.bondOrders), m.vertices, cycles).orders
    ensures KeptOrDropped(old(m.connectivity), m.connectivity) && KeptOrDropped(old(m.implicitH), m.implicitH)
    ensures !m.aromatized && m.aromaticity == []
  {
    ghost var p0 := Progress(m.bonds, m.bondOrders, Unused(|m.bonds|));
    ghost var c0, h0 := m.connectivity, m.implicitH;
    var used := Unused(|m.bonds|);
    var k := 0;
    while k < |cycles|
      invariant 0 <= k <= |cycles| && m.Valid() && |m.bondOrders| == |m.bonds| == |p0.bonds|
      invariant Progress(m.bonds, m.bondOrders, used) == CyclesStep(m.atoms, m.vertices, p0, cycles[..k])
      invariant KeptOrDropped(c0, m.connectivity) && KeptOrDropped(h0, m.implicitH)
    {
      assert cycles[..k + 1][..k] == cycles[..k];
      used := ApplyCycle(m, cycles[k], used);
      k := k + 1;
    }
    assert cycles[..k] == cycles;
    ClearLeftovers(m, used);
    m.aromatized := false;
    m.aromaticity := [];
  }
}
