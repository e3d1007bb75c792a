/** The FNV-1a graph hash of the heavy-atom subgraph
    (molecule/molecule_hash.go). Unsigned 64-bit words are `bv64`, so the
    multiplication by the FNV prime wraps modulo 2^64 as in Go. Each loop of
    the source is a method proved equal to a function below; the functions
    are then shown to ignore hydrogen atoms, and bonds to hydrogen as long
    as the refinement round count stays the same. */
module MoleculeHash {
  import opened MoleculeGraph
  import Elements

  const FnvOffset: bv64 := 1469598103934665603
  const FnvPrime: bv64 := 1099511628211
  /** The constant xor-ed into a neighbour's code. */
  const NeighbourSalt: bv64 := 0x9e3779b97f4a7c15

  // ---------------------------------------------------------------------
  // FNV-1a over bytes

  /** Multiplication by the FNV prime, modulo 2^64. */
  function MulPrime(x: bv64): bv64
  {
    x * FnvPrime
  }

  /** One FNV-1a step: xor the byte in, then multiply by the prime. */
  function FnvStep(h: bv64, b: bv8): bv64
  {
    MulPrime(h ^ (b as bv64))
  }

  /** FNV-1a over a byte sequence, first byte first. */
  function FnvFold(h: bv64, bytes: seq<bv8>): bv64
    decreases |bytes|, 1
  {
    if bytes == [] then h else FnvFoldLast(h, bytes)
  }

  /** FNV-1a over a non-empty byte sequence: the last byte folded into the
      hash of the others. */
  function FnvFoldLast(h: bv64, bytes: seq<bv8>): bv64
    requires bytes != []
    decreases |bytes|, 0
  {
    FnvStep(FnvFold(h, bytes[..|bytes| - 1]), bytes[|bytes| - 1])
  }

  /** Hashing one more byte is one more step. */
  lemma FnvFoldSnoc(h: bv64, bytes: seq<bv8>, b: bv8)
    ensures FnvFold(h, bytes + [b]) == FnvStep(FnvFold(h, bytes), b)
  {
    assert (bytes + [b])[..|bytes|] == bytes;
    assert FnvFold(h, bytes + [b]) == FnvFoldLast(h, bytes + [b]);
  }

  /** Hashing a concatenation is hashing the second part from the state the
      first part left. */
  lemma {:induction false} FnvFoldAppend(h: bv64, a: seq<bv8>, b: seq<bv8>)
    ensures FnvFold(h, a + b) == FnvFold(FnvFold(h, a), b)
  {
    if b == [] {
      assert a + b == a;
    } else {
      var init, last := b[..|b| - 1], b[|b| - 1];
      assert b == init + [last];
      assert a + b == (a + init) + [last];
      FnvFoldAppend(h, a, init);
      FnvFoldSnoc(h, a + init, last);
      FnvFoldSnoc(FnvFold(h, a), init, last);
    }
  }

  /** A prefix one longer is the prefix plus the next element. */
  lemma TakeSnoc<T>(s: seq<T>, i: nat)
    requires i < |s|
    ensures s[..i + 1] == s[..i] + [s[i]]
  {
  }

  /** The low byte of a word (`byte(v & 0xFF)`). */
  function LowByte(v: bv64): bv8
  {
    (v & 0xFF) as bv8
  }

  /** A word shifted right by one byte (`v >>= 8`). */
  function ShiftByte(v: bv64): bv64
  {
    v >> 8
  }

  /** `v` shifted right by `k` bytes. */
  function Shifted(v: bv64, k: nat): bv64
  {
    if k == 0 then v else ShiftByte(Shifted(v, k - 1))
  }

  /** The eight bytes of `v`, low byte first. */
  function LeBytes(v: bv64): (r: seq<bv8>)
    ensures |r| == 8
  {
    seq(8, k requires 0 <= k < 8 => LowByte(Shifted(v, k)))
  }

  /** `Shifted` is a shift by a multiple of 8 bits. */
  lemma ShiftedBy(v: bv64)
    ensures Shifted(v, 1) == v >> 8 && Shifted(v, 2) == v >> 16 && Shifted(v, 3) == v >> 24
    ensures Shifted(v, 4) == v >> 32 && Shifted(v, 5) == v >> 40 && Shifted(v, 6) == v >> 48
    ensures Shifted(v, 7) == v >> 56
  {
    assert Shifted(v, 1) == v >> 8;
    assert Shifted(v, 2) == v >> 16 by { assert ShiftByte(v >> 8) == v >> 16; }
    assert Shifted(v, 3) == v >> 24 by { assert ShiftByte(v >> 16) == v >> 24; }
    assert Shifted(v, 4) == v >> 32 by { assert ShiftByte(v >> 24) == v >> 32; }
    assert Shifted(v, 5) == v >> 40 by { assert ShiftByte(v >> 32) == v >> 40; }
    assert Shifted(v, 6) == v >> 48 by { assert ShiftByte(v >> 40) == v >> 48; }
    assert Shifted(v, 7) == v >> 56 by { assert ShiftByte(v >> 48) == v >> 56; }
  }

  /** All 64 bits take part: different words have different byte lists. */
  lemma LeBytesInjective(v: bv64, w: bv64)
    requires LeBytes(v) == LeBytes(w)
    ensures v == w
  {
    ShiftedBy(v);
    ShiftedBy(w);
    assert LeBytes(v)[0] == LeBytes(w)[0] && LeBytes(v)[1] == LeBytes(w)[1];
    assert LeBytes(v)[2] == LeBytes(w)[2] && LeBytes(v)[3] == LeBytes(w)[3];
    assert LeBytes(v)[4] == LeBytes(w)[4] && LeBytes(v)[5] == LeBytes(w)[5];
    assert LeBytes(v)[6] == LeBytes(w)[6] && LeBytes(v)[7] == LeBytes(w)[7];
  }

  /** What `fnv1a64Add` computes. */
  function FnvAdd(h: bv64, v: bv64): bv64
  {
    FnvFold(h, LeBytes(v))
  }

  /** `fnv1a64Add`: eight rounds, each folding the low byte of `v` in and
      shifting `v` right by a byte. */
  method Fnv1a64Add(h0: bv64, v0: bv64) returns (h: bv64)
    ensures h == FnvFold(h0, LeBytes(v0))
  {
    h := h0;
    var v := v0;
    var i := 0;
    while i < 8
      invariant 0 <= i <= 8
      invariant v == Shifted(v0, i)
      invariant h == FnvFold(h0, LeBytes(v0)[..i])
    {
      var b := LowByte(v);
      ghost var bytes := LeBytes(v0);
      assert bytes[i] == b;
      TakeSnoc(bytes, i);
      FnvFoldSnoc(h0, bytes[..i], b);
      h := FnvStep(h, b);
      v := ShiftByte(v);
      i := i + 1;
    }
    assert LeBytes(v0)[..8] == LeBytes(v0);
  }

  /** `fnv1a64Uint`: one word hashed from the offset basis. */
  method Fnv1a64Uint(v: bv64) returns (h: bv64)
    ensures h == FnvFold(FnvOffset, LeBytes(v))
  {
    h := Fnv1a64Add(FnvOffset, v);
  }

  // ---------------------------------------------------------------------
  // Heavy atoms

  /** Indices of the non-hydrogen atoms among the first `n`, increasing
      (`newToOld`). */
  function HeavyList(atoms: seq<Atom>, n: nat): (heavy: seq<int>)
    requires n <= |atoms|
    ensures forall k :: 0 <= k < |heavy| ==> 0 <= heavy[k] < n && atoms[heavy[k]].number != Elements.ElemH
  {
    if n == 0 then []
    else HeavyList(atoms, n - 1) + (if atoms[n - 1].number != Elements.ElemH then [n - 1] else [])
  }

  /** Every heavy atom among the first `n` is listed. */
  lemma {:induction false} HeavyListComplete(atoms: seq<Atom>, n: nat, i: int)
    requires n <= |atoms| && 0 <= i < n && atoms[i].number != Elements.ElemH
    ensures i in HeavyList(atoms, n)
  {
    if i < n - 1 {
      HeavyListComplete(atoms, n - 1, i);
    }
  }

  /** The list is strictly increasing, so no atom is listed twice. */
  lemma {:induction false} HeavyListIncreasing(atoms: seq<Atom>, n: nat)
    requires n <= |atoms|
    ensures forall k, l :: 0 <= k < l < |HeavyList(atoms, n)| ==> HeavyList(atoms, n)[k] < HeavyList(atoms, n)[l]
  {
    if n > 0 {
      HeavyListIncreasing(atoms, n - 1);
    }
  }

  /** `oldToNew`: each listed atom mapped to its position in the list. */
  function PosMap(heavy: seq<int>): (pos: map<int, int>)
    ensures forall x :: x in pos ==> 0 <= pos[x] < |heavy| && heavy[pos[x]] == x
  {
    if heavy == [] then map[]
    else
      var init := heavy[..|heavy| - 1];
      PosMap(init)[heavy[|heavy| - 1] := |heavy| - 1]
  }

  /** `oldToNew` holds position values below `n`. */
  predicate PosBelow(pos: map<int, int>, n: int)
  {
    forall x :: x in pos ==> 0 <= pos[x] < n
  }

  /** An edge list that names bonds. */
  predicate EdgeListIn(bonds: seq<Bond>, edges: seq<int>)
  {
    forall k :: 0 <= k < |edges| ==> 0 <= edges[k] < |bonds|
  }

  /** The shape the hash needs: one edge list per atom, naming bonds. */
  predicate Shape(atoms: seq<Atom>, bonds: seq<Bond>, vertices: seq<seq<int>>)
  {
    |vertices| == |atoms| && EdgesInRange(vertices, bonds)
  }

  // ---------------------------------------------------------------------
  // Initial codes

  /** The charge biased by 2048 and clamped to 12 bits. */
  function BiasedCharge(charge: int): (c: int)
    ensures 0 <= c <= 4095
    ensures -2048 <= charge <= 2047 ==> c == charge + 2048
    ensures charge < -2048 ==> c == 0
    ensures charge > 2047 ==> c == 4095
  {
    if charge + 2048 < 0 then 0 else if charge + 2048 > 4095 then 4095 else charge + 2048
  }

  /** The packed atom word as an integer: atom number (16 bits, two's
      complement) at bit 48, biased charge (12 bits) at bit 36, isotope (16
      bits) at bit 20 and degree (8 bits) at bit 12. */
  function PackedValue(number: int, charge: int, isotope: int, degree: int): (w: int)
    ensures 0 <= w < 0x1_0000_0000_0000_0000
  {
    (number % 0x1_0000) * 0x1_0000_0000_0000 + BiasedCharge(charge) * 0x10_0000_0000 +
    (isotope % 0x1_0000) * 0x10_0000 + (degree % 0x100) * 0x1000
  }

  /** The four fields do not overlap: equal words have equal fields. */
  lemma PackedFieldsDisjoint(n1: int, c1: int, i1: int, d1: int, n2: int, c2: int, i2: int, d2: int)
    requires PackedValue(n1, c1, i1, d1) == PackedValue(n2, c2, i2, d2)
    ensures n1 % 0x1_0000 == n2 % 0x1_0000 && BiasedCharge(c1) == BiasedCharge(c2)
    ensures i1 % 0x1_0000 == i2 % 0x1_0000 && d1 % 0x100 == d2 % 0x100
  {
    var lowA := BiasedCharge(c1) * 0x10_0000_0000 + (i1 % 0x1_0000) * 0x10_0000 + (d1 % 0x100) * 0x1000;
    var lowB := BiasedCharge(c2) * 0x10_0000_0000 + (i2 % 0x1_0000) * 0x10_0000 + (d2 % 0x100) * 0x1000;
    assert 0 <= lowA < 0x1_0000_0000_0000 && 0 <= lowB < 0x1_0000_0000_0000;
    assert n1 % 0x1_0000 == n2 % 0x1_0000;
    var midA := (i1 % 0x1_0000) * 0x10_0000 + (d1 % 0x100) * 0x1000;
    var midB := (i2 % 0x1_0000) * 0x10_0000 + (d2 % 0x100) * 0x1000;
    assert 0 <= midA < 0x10_0000_0000 && 0 <= midB < 0x10_0000_0000;
    assert BiasedCharge(c1) == BiasedCharge(c2);
    assert i1 % 0x1_0000 == i2 % 0x1_0000;
  }

  /** The 64-bit word whose value is `x`, built bit by bit from the top
      (the `uint64` conversion of a value that fits). */
  function Word(x: int): bv64
    requires 0 <= x < 0x1_0000_0000_0000_0000
  {
    if x == 0 then 0 else (Word(x / 2) << 1) | (if x % 2 == 1 then 1 else 0)
  }

  /** Bonds in the edge list whose far end (as the degree loop picks it) is
      a heavy atom, among the first `n`. */
  function HeavyDegree(bonds: seq<Bond>, edges: seq<int>, self: int, pos: map<int, int>, n: nat): (d: nat)
    requires n <= |edges| && EdgeListIn(bonds, edges)
    ensures d <= n
  {
    if n == 0 then 0
    else HeavyDegree(bonds, edges, self, pos, n - 1) + (if OtherEnd(bonds[edges[n - 1]], self) in pos then 1 else 0)
  }

  /** The initial code of one heavy atom. */
  function AtomCode(a: Atom, edges: seq<int>, self: int, bonds: seq<Bond>, pos: map<int, int>): bv64
    requires EdgeListIn(bonds, edges)
  {
    FnvAdd(FnvOffset, Word(PackedValue(a.number, a.charge, a.isotope, HeavyDegree(bonds, edges, self, pos, |edges|))))
  }

  /** The edge lists of the heavy atoms, in `newToOld` order. */
  function HeavyEdges(vertices: seq<seq<int>>, heavy: seq<int>): (es: seq<seq<int>>)
    requires forall k :: 0 <= k < |heavy| ==> 0 <= heavy[k] < |vertices|
    ensures |es| == |heavy|
  {
    seq(|heavy|, k requires 0 <= k < |heavy| => vertices[heavy[k]])
  }

  predicate EdgeListsIn(bonds: seq<Bond>, edgesOf: seq<seq<int>>)
  {
    forall k :: 0 <= k < |edgesOf| ==> EdgeListIn(bonds, edgesOf[k])
  }

  /** Step 2: one code per heavy atom. */
  function InitialCodes(atoms: seq<Atom>, bonds: seq<Bond>, heavy: seq<int>, edgesOf: seq<seq<int>>, pos: map<int, int>): (codes: seq<bv64>)
    requires |edgesOf| == |heavy| && EdgeListsIn(bonds, edgesOf)
    requires forall k :: 0 <= k < |heavy| ==> 0 <= heavy[k] < |atoms|
    ensures |codes| == |heavy|
  {
    seq(|heavy|, k requires 0 <= k < |heavy| => AtomCode(atoms[heavy[k]], edgesOf[k], heavy[k], bonds, pos))
  }

  // ---------------------------------------------------------------------
  // Refinement

  /** The word a bond order contributes (`uint64(order & 0xF)`). */
  function OrderWord(order: int): bv64
  {
    Word(order % 16)
  }

  /** A neighbour's code as it enters the fold: xor-ed with the salt. */
  function Salted(code: bv64): bv64
  {
    code ^ NeighbourSalt
  }

  /** The neighbour fold of one heavy atom over the first `n` bonds of its
      list: bonds not touching the atom and bonds to a hydrogen are
      skipped; every other bond folds in the neighbour's salted code and
      the bond's order word. */
  function NeighbourFold(h: bv64, codes: seq<bv64>, bonds: seq<Bond>, edges: seq<int>, self: int,
                         pos: map<int, int>, n: nat): bv64
    requires n <= |edges| && EdgeListIn(bonds, edges) && PosBelow(pos, |codes|)
  {
    if n == 0 then h
    else
      var acc := NeighbourFold(h, codes, bonds, edges, self, pos, n - 1);
      var e := bonds[edges[n - 1]];
      if e.beg != self && e.end != self then acc
      else
        var other := if e.beg == self then e.end else e.beg;
        if other !in pos then acc
        else FnvAdd(FnvAdd(acc, Salted(codes[pos[other]])), OrderWord(e.order))
  }

  /** One refinement round: every heavy atom's new code. */
  function Refine(codes: seq<bv64>, bonds: seq<Bond>, heavy: seq<int>, edgesOf: seq<seq<int>>, pos: map<int, int>): (next: seq<bv64>)
    requires |codes| == |heavy| == |edgesOf| && EdgeListsIn(bonds, edgesOf) && PosBelow(pos, |codes|)
    ensures |next| == |codes|
  {
    seq(|heavy|, k requires 0 <= k < |heavy| =>
      NeighbourFold(FnvAdd(FnvOffset, codes[k]), codes, bonds, edgesOf[k], heavy[k], pos, |edgesOf[k]|))
  }

  /** `it` refinement rounds from `codes`. */
  function RefineRounds(codes: seq<bv64>, bonds: seq<Bond>, heavy: seq<int>, edgesOf: seq<seq<int>>, pos: map<int, int>, it: nat): (r: seq<bv64>)
    requires |codes| == |heavy| == |edgesOf| && EdgeListsIn(bonds, edgesOf) && PosBelow(pos, |codes|)
    ensures |r| == |codes|
  {
    if it == 0 then codes else Refine(RefineRounds(codes, bonds, heavy, edgesOf, pos, it - 1), bonds, heavy, edgesOf, pos)
  }

  /** The number of refinement rounds: half the bond count rounded up,
      and never fewer than 2. */
  function Rounds(bondCount: nat): (it: nat)
    ensures it >= 2 && it >= (bondCount + 1) / 2
    ensures it == 2 || it == (bondCount + 1) / 2
  {
    if (bondCount + 1) / 2 < 2 then 2 else (bondCount + 1) / 2
  }

  /** Step 4: the codes folded into one word, in `newToOld` order. */
  function Aggregate(h: bv64, codes: seq<bv64>): bv64
  {
    if codes == [] then h else FnvAdd(Aggregate(h, codes[..|codes| - 1]), codes[|codes| - 1])
  }

  /** `CalculateMoleculeHash`. */
  function MoleculeHash(atoms: seq<Atom>, bonds: seq<Bond>, vertices: seq<seq<int>>): bv64
    requires Shape(atoms, bonds, vertices)
  {
    var heavy := HeavyList(atoms, |atoms|);
    if heavy == [] then 0 else HeavyHash(atoms, bonds, vertices, heavy, PosMap(heavy))
  }

  /** Steps 2 to 4 for a given `newToOld` and `oldToNew`. */
  function HeavyHash(atoms: seq<Atom>, bonds: seq<Bond>, vertices: seq<seq<int>>, heavy: seq<int>, pos: map<int, int>): bv64
    requires Shape(atoms, bonds, vertices) && PosBelow(pos, |heavy|)
    requires forall k :: 0 <= k < |heavy| ==> 0 <= heavy[k] < |atoms|
  {
    var edgesOf := HeavyEdges(vertices, heavy);
    var init := InitialCodes(atoms, bonds, heavy, edgesOf, pos);
    Aggregate(FnvOffset, RefineRounds(init, bonds, heavy, edgesOf, pos, Rounds(|bonds|)))
  }

  // ---------------------------------------------------------------------
  // The methods

  /** Step 1: `newToOld` and `oldToNew`. */
  method HeavyAtoms(m: Molecule) returns (newToOld: seq<int>, oldToNew: map<int, int>)
    ensures newToOld == HeavyList(m.atoms, |m.atoms|) && oldToNew == PosMap(newToOld)
  {
    newToOld, oldToNew := [], map[];
    var i := 0;
    while i < |m.atoms|
      invariant 0 <= i <= |m.atoms|
      invariant newToOld == HeavyList(m.atoms, i) && oldToNew == PosMap(newToOld)
    {
      if m.atoms[i].number != Elements.ElemH {
        oldToNew := oldToNew[i := |newToOld|];
        newToOld := newToOld + [i];
        assert newToOld[..|newToOld| - 1] == HeavyList(m.atoms, i);
      }
      i := i + 1;
    }
  }

  /** The degree loop of step 2 for one atom. */
  method HeavyDegreeOf(m: Molecule, oldIdx: int, pos: map<int, int>) returns (degree: int)
    requires 0 <= oldIdx < |m.vertices| && EdgeListIn(m.bonds, m.vertices[oldIdx])
    ensures degree == HeavyDegree(m.bonds, m.vertices[oldIdx], oldIdx, pos, |m.vertices[oldIdx]|)
  {
    var edges := m.vertices[oldIdx];
    degree := 0;
    var k := 0;
    while k < |edges|
      invariant 0 <= k <= |edges|
      invariant degree == HeavyDegree(m.bonds, edges, oldIdx, pos, k)
    {
      var e := m.bonds[edges[k]];
      var other := e.beg;
      if other == oldIdx {
        other := e.end;
      }
      if other in pos {
        degree := degree + 1;
      }
      k := k + 1;
    }
  }

  /** Step 2: the initial code of every heavy atom. */
  method InitialAtomCodes(m: Molecule, heavy: seq<int>, pos: map<int, int>) returns (codes: seq<bv64>)
    requires Shape(m.atoms, m.bonds, m.vertices)
    requires forall k :: 0 <= k < |heavy| ==> 0 <= heavy[k] < |m.atoms|
    ensures codes == InitialCodes(m.atoms, m.bonds, heavy, HeavyEdges(m.vertices, heavy), pos)
  {
    ghost var edgesOf := HeavyEdges(m.vertices, heavy);
    codes := [];
    var k := 0;
    while k < |heavy|
      invariant 0 <= k <= |heavy| && |codes| == k
      invariant forall j :: 0 <= j < k ==> codes[j] == AtomCode(m.atoms[heavy[j]], edgesOf[j], heavy[j], m.bonds, pos)
    {
      var oldIdx := heavy[k];
      var a := m.atoms[oldIdx];
      var degree := HeavyDegreeOf(m, oldIdx, pos);
      var code := Fnv1a64Uint(Word(PackedValue(a.number, a.charge, a.isotope, degree)));
      codes := codes + [code];
      k := k + 1;
    }
  }

  /** The neighbour loop of step 3 for one atom. */
  method NeighbourHash(m: Molecule, codes: seq<bv64>, self: int, own: bv64, pos: map<int, int>) returns (h: bv64)
    requires 0 <= self < |m.vertices| && EdgeListIn(m.bonds, m.vertices[self]) && PosBelow(pos, |codes|)
    ensures h == NeighbourFold(FnvAdd(FnvOffset, own), codes, m.bonds, m.vertices[self], self, pos, |m.vertices[self]|)
  {
    var edges := m.vertices[self];
    h := Fnv1a64Add(FnvOffset, own);
    var k := 0;
    while k < |edges|
      invariant 0 <= k <= |edges|
      invariant h == NeighbourFold(FnvAdd(FnvOffset, own), codes, m.bonds, edges, self, pos, k)
    {
      var e := m.bonds[edges[k]];
      var other := e.beg;
      if other == self {
        other := e.end;
      } else if e.end != self {
        k := k + 1;
        continue;
      }
      if other in pos {
        var nn := pos[other];
        h := Fnv1a64Add(h, Salted(codes[nn]));
        h := Fnv1a64Add(h, OrderWord(e.order));
      }
      k := k + 1;
    }
  }

  /** One round of step 3. */
  method RefineOnce(m: Molecule, codes: seq<bv64>, heavy: seq<int>, pos: map<int, int>) returns (next: seq<bv64>)
    requires Shape(m.atoms, m.bonds, m.vertices) && |codes| == |heavy| && PosBelow(pos, |codes|)
    requires forall k :: 0 <= k < |heavy| ==> 0 <= heavy[k] < |m.atoms|
    ensures next == Refine(codes, m.bonds, heavy, HeavyEdges(m.vertices, heavy), pos)
  {
    ghost var edgesOf := HeavyEdges(m.vertices, heavy);
    next := [];
    var k := 0;
    while k < |heavy|
      invariant 0 <= k <= |heavy| && |next| == k
      invariant forall j :: 0 <= j < k ==>
        next[j] == NeighbourFold(FnvAdd(FnvOffset, codes[j]), codes, m.bonds, edgesOf[j], heavy[j], pos, |edgesOf[j]|)
    {
      var h := NeighbourHash(m, codes, heavy[k], codes[k], pos);
      next := next + [h];
      k := k + 1;
    }
  }

  /** Step 4. */
  method AggregateCodes(codes: seq<bv64>) returns (h: bv64)
    ensures h == Aggregate(FnvOffset, codes)
  {
    h := FnvOffset;
    var k := 0;
    while k < |codes|
      invariant 0 <= k <= |codes|
      invariant h == Aggregate(FnvOffset, codes[..k])
    {
      assert codes[..k + 1][..k] == codes[..k];
      h := Fnv1a64Add(h, codes[k]);
      k := k + 1;
    }
    assert codes[..k] == codes;
  }

  /** Step 3: `iterations` refinement rounds. */
  method RefineAll(m: Molecule, init: seq<bv64>, heavy: seq<int>, pos: map<int, int>, iterations: nat) returns (codes: seq<bv64>)
    requires Shape(m.atoms, m.bonds, m.vertices) && |init| == |heavy| && PosBelow(pos, |init|)
    requires forall k :: 0 <= k < |heavy| ==> 0 <= heavy[k] < |m.atoms|
    ensures codes == RefineRounds(init, m.bonds, heavy, HeavyEdges(m.vertices, heavy), pos, iterations)
  {
    ghost var edgesOf := HeavyEdges(m.vertices, heavy);
    codes := init;
    var it := 0;
    while it < iterations
      invariant 0 <= it <= iterations && |codes| == |heavy|
      invariant codes == RefineRounds(init, m.bonds, heavy, edgesOf, pos, it)
    {
      codes := RefineOnce(m, codes, heavy, pos);
      it := it + 1;
    }
  }

  /** `CalculateMoleculeHash`. */
  method CalculateMoleculeHash(m: Molecule) returns (h: bv64)
    requires m.Valid()
    ensures h == MoleculeHash(m.atoms, m.bonds, m.vertices)
  {
    assert Shape(m.atoms, m.bonds, m.vertices);
    var newToOld, oldToNew := HeavyAtoms(m);
    if |newToOld| == 0 {
      return 0;
    }
    var atomCodes := InitialAtomCodes(m, newToOld, oldToNew);
    var iterations := (|m.bonds| + 1) / 2;
    if iterations < 2 {
      iterations := 2;
    }
    assert iterations == Rounds(|m.bonds|);
    ghost var init := atomCodes;
    atomCodes := RefineAll(m, atomCodes, newToOld, oldToNew, iterations);
    h := AggregateCodes(atomCodes);
    assert h == HeavyHash(m.atoms, m.bonds, m.vertices, newToOld, oldToNew);
  }

  // ---------------------------------------------------------------------
  // Hydrogens

  /** With no heavy atom the hash is 0. */
  lemma AllHydrogenHashesZero(atoms: seq<Atom>, bonds: seq<Bond>, vertices: seq<seq<int>>)
    requires Shape(atoms, bonds, vertices)
    requires forall i :: 0 <= i < |atoms| ==> atoms[i].number == Elements.ElemH
    ensures MoleculeHash(atoms, bonds, vertices) == 0
  {
    HeavyListOfHydrogens(atoms, |atoms|);
  }

  /** Hydrogens only: the heavy list is empty. */
  lemma {:induction false} HeavyListOfHydrogens(atoms: seq<Atom>, n: nat)
    requires n <= |atoms|
    requires forall i :: 0 <= i < |atoms| ==> atoms[i].number == Elements.ElemH
    ensures HeavyList(atoms, n) == []
  {
    if n > 0 {
      HeavyListOfHydrogens(atoms, n - 1);
    }
  }

  /** Appending hydrogens leaves the heavy list unchanged. */
  lemma {:induction false} HeavyListOfPrefix(atoms: seq<Atom>, more: seq<Atom>, n: nat)
    requires n <= |atoms|
    ensures HeavyList(atoms + more, n) == HeavyList(atoms, n)
  {
    if n > 0 {
      HeavyListOfPrefix(atoms, more, n - 1);
    }
  }

  /** A hydrogen atom with no bonds does not change the hash. */
  lemma IsolatedHydrogenKeepsHash(atoms: seq<Atom>, bonds: seq<Bond>, vertices: seq<seq<int>>, h: Atom)
    requires Shape(atoms, bonds, vertices) && h.number == Elements.ElemH
    ensures Shape(atoms + [h], bonds, vertices + [[]])
    ensures MoleculeHash(atoms + [h], bonds, vertices + [[]]) == MoleculeHash(atoms, bonds, vertices)
  {
    var atoms2, vertices2 := atoms + [h], vertices + [[]];
    HeavyListOfPrefix(atoms, [h], |atoms|);
    assert HeavyList(atoms2, |atoms2|) == HeavyList(atoms, |atoms|);
    var heavy := HeavyList(atoms, |atoms|);
    if heavy != [] {
      var pos := PosMap(heavy);
      assert HeavyEdges(vertices2, heavy) == HeavyEdges(vertices, heavy);
      var edgesOf := HeavyEdges(vertices, heavy);
      assert InitialCodes(atoms2, bonds, heavy, edgesOf, pos) == InitialCodes(atoms, bonds, heavy, edgesOf, pos);
    }
  }

  // A new bond `b` (index |bonds|) that has a hydrogen at one end.

  lemma {:induction false} HeavyDegreeExtended(bonds: seq<Bond>, b: Bond, edges: seq<int>, self: int, pos: map<int, int>, n: nat)
    requires n <= |edges| && EdgeListIn(bonds, edges)
    ensures EdgeListIn(bonds + [b], edges)
    ensures HeavyDegree(bonds + [b], edges, self, pos, n) == HeavyDegree(bonds, edges, self, pos, n)
  {
    if n > 0 {
      HeavyDegreeExtended(bonds, b, edges, self, pos, n - 1);
    }
  }

  lemma {:induction false} NeighbourFoldExtended(h: bv64, codes: seq<bv64>, bonds: seq<Bond>, b: Bond, edges: seq<int>,
                                                 self: int, pos: map<int, int>, n: nat)
    requires n <= |edges| && EdgeListIn(bonds, edges) && PosBelow(pos, |codes|)
    ensures EdgeListIn(bonds + [b], edges)
    ensures NeighbourFold(h, codes, bonds + [b], edges, self, pos, n) == NeighbourFold(h, codes, bonds, edges, self, pos, n)
  {
    if n > 0 {
      NeighbourFoldExtended(h, codes, bonds, b, edges, self, pos, n - 1);
      assert (bonds + [b])[edges[n - 1]] == bonds[edges[n - 1]];
    }
  }

  /** The far end of the new bond seen from a heavy endpoint is not heavy. */
  predicate LeadsToHydrogen(b: Bond, self: int, pos: map<int, int>)
  {
    OtherEnd(b, self) !in pos
  }

  /** The edge list of a heavy atom after the new bond is added: unchanged,
      or with the new index appended when the atom is an endpoint. */
  predicate GrownList(old_: seq<int>, new_: seq<int>, b: Bond, self: int, idx: int, pos: map<int, int>)
  {
    new_ == old_ || (new_ == old_ + [idx] && Incidence(b, self) == 1 && LeadsToHydrogen(b, self, pos))
  }

  lemma HeavyDegreeGrown(bonds: seq<Bond>, b: Bond, edges: seq<int>, edges2: seq<int>, self: int, pos: map<int, int>)
    requires EdgeListIn(bonds, edges) && GrownList(edges, edges2, b, self, |bonds|, pos)
    ensures EdgeListIn(bonds + [b], edges2)
    ensures HeavyDegree(bonds + [b], edges2, self, pos, |edges2|) == HeavyDegree(bonds, edges, self, pos, |edges|)
  {
    HeavyDegreeExtended(bonds, b, edges, self, pos, |edges|);
    if edges2 != edges {
      assert edges2[..|edges|] == edges;
      HeavyDegreePrefix(bonds + [b], edges, edges2, self, pos, |edges|);
    }
  }

  lemma {:induction false} HeavyDegreePrefix(bonds: seq<Bond>, edges: seq<int>, edges2: seq<int>, self: int, pos: map<int, int>, n: nat)
    requires n <= |edges| <= |edges2| && edges2[..|edges|] == edges && EdgeListIn(bonds, edges2)
    ensures EdgeListIn(bonds, edges)
    ensures HeavyDegree(bonds, edges2, self, pos, n) == HeavyDegree(bonds, edges, self, pos, n)
  {
    assert forall k :: 0 <= k < |edges| ==> edges[k] == edges2[k];
    if n > 0 {
      HeavyDegreePrefix(bonds, edges, edges2, self, pos, n - 1);
    }
  }

  lemma {:induction false} NeighbourFoldPrefix(h: bv64, codes: seq<bv64>, bonds: seq<Bond>, edges: seq<int>, edges2: seq<int>,
                                               self: int, pos: map<int, int>, n: nat)
    requires n <= |edges| <= |edges2| && edges2[..|edges|] == edges && EdgeListIn(bonds, edges2) && PosBelow(pos, |codes|)
    ensures EdgeListIn(bonds, edges)
    ensures NeighbourFold(h, codes, bonds, edges2, self, pos, n) == NeighbourFold(h, codes, bonds, edges, self, pos, n)
  {
    assert forall k :: 0 <= k < |edges| ==> edges[k] == edges2[k];
    if n > 0 {
      NeighbourFoldPrefix(h, codes, bonds, edges, edges2, self, pos, n - 1);
    }
  }

  lemma NeighbourFoldGrown(h: bv64, codes: seq<bv64>, bonds: seq<Bond>, b: Bond, edges: seq<int>, edges2: seq<int>,
                           self: int, pos: map<int, int>)
    requires EdgeListIn(bonds, edges) && PosBelow(pos, |codes|) && GrownList(edges, edges2, b, self, |bonds|, pos)
    ensures EdgeListIn(bonds + [b], edges2)
    ensures NeighbourFold(h, codes, bonds + [b], edges2, self, pos, |edges2|) == NeighbourFold(h, codes, bonds, edges, self, pos, |edges|)
  {
    NeighbourFoldExtended(h, codes, bonds, b, edges, self, pos, |edges|);
    if edges2 != edges {
      assert edges2[..|edges|] == edges;
      NeighbourFoldPrefix(h, codes, bonds + [b], edges, edges2, self, pos, |edges|);
      assert (bonds + [b])[edges2[|edges|]] == b;
    }
  }

  /** Edge lists before and after the new bond, heavy atom by heavy atom. */
  predicate GrownLists(edgesOf: seq<seq<int>>, edgesOf2: seq<seq<int>>, b: Bond, heavy: seq<int>, idx: int, pos: map<int, int>)
    requires |edgesOf| == |edgesOf2| == |heavy|
  {
    forall k :: 0 <= k < |heavy| ==> GrownList(edgesOf[k], edgesOf2[k], b, heavy[k], idx, pos)
  }

  lemma RefineGrown(codes: seq<bv64>, bonds: seq<Bond>, b: Bond, heavy: seq<int>, edgesOf: seq<seq<int>>,
                    edgesOf2: seq<seq<int>>, pos: map<int, int>)
    requires |codes| == |heavy| == |edgesOf| == |edgesOf2| && EdgeListsIn(bonds, edgesOf) && PosBelow(pos, |codes|)
    requires GrownLists(edgesOf, edgesOf2, b, heavy, |bonds|, pos)
    ensures EdgeListsIn(bonds + [b], edgesOf2)
    ensures Refine(codes, bonds + [b], heavy, edgesOf2, pos) == Refine(codes, bonds, heavy, edgesOf, pos)
  {
    forall k | 0 <= k < |heavy|
      ensures EdgeListIn(bonds + [b], edgesOf2[k])
      ensures NeighbourFold(FnvAdd(FnvOffset, codes[k]), codes, bonds + [b], edgesOf2[k], heavy[k], pos, |edgesOf2[k]|)
           == NeighbourFold(FnvAdd(FnvOffset, codes[k]), codes, bonds, edgesOf[k], heavy[k], pos, |edgesOf[k]|)
    {
      NeighbourFoldGrown(FnvAdd(FnvOffset, codes[k]), codes, bonds, b, edgesOf[k], edgesOf2[k], heavy[k], pos);
    }
  }

  lemma {:induction false} RoundsGrown(codes: seq<bv64>, bonds: seq<Bond>, b: Bond, heavy: seq<int>, edgesOf: seq<seq<int>>,
                                       edgesOf2: seq<seq<int>>, pos: map<int, int>, it: nat)
    requires |codes| == |heavy| == |edgesOf| == |edgesOf2| && EdgeListsIn(bonds, edgesOf) && PosBelow(pos, |codes|)
    requires GrownLists(edgesOf, edgesOf2, b, heavy, |bonds|, pos)
    ensures EdgeListsIn(bonds + [b], edgesOf2)
    ensures RefineRounds(codes, bonds + [b], heavy, edgesOf2, pos, it) == RefineRounds(codes, bonds, heavy, edgesOf, pos, it)
  {
    RefineGrown(codes, bonds, b, heavy, edgesOf, edgesOf2, pos);
    if it > 0 {
      RoundsGrown(codes, bonds, b, heavy, edgesOf, edgesOf2, pos, it - 1);
      RefineGrown(RefineRounds(codes, bonds, heavy, edgesOf, pos, it - 1), bonds, b, heavy, edgesOf, edgesOf2, pos);
    }
  }

  lemma InitialCodesGrown(atoms: seq<Atom>, bonds: seq<Bond>, b: Bond, heavy: seq<int>, edgesOf: seq<seq<int>>,
                          edgesOf2: seq<seq<int>>, pos: map<int, int>)
    requires |heavy| == |edgesOf| == |edgesOf2| && EdgeListsIn(bonds, edgesOf)
    requires forall k :: 0 <= k < |heavy| ==> 0 <= heavy[k] < |atoms|
    requires GrownLists(edgesOf, edgesOf2, b, heavy, |bonds|, pos)
    ensures EdgeListsIn(bonds + [b], edgesOf2)
    ensures InitialCodes(atoms, bonds + [b], heavy, edgesOf2, pos) == InitialCodes(atoms, bonds, heavy, edgesOf, pos)
  {
    forall k | 0 <= k < |heavy|
      ensures EdgeListIn(bonds + [b], edgesOf2[k])
      ensures HeavyDegree(bonds + [b], edgesOf2[k], heavy[k], pos, |edgesOf2[k]|) == HeavyDegree(bonds, edgesOf[k], heavy[k], pos, |edgesOf[k]|)
    {
      HeavyDegreeGrown(bonds, b, edgesOf[k], edgesOf2[k], heavy[k], pos);
    }
  }

  /** `AddBond`'s edge-list update for bond `b` with index `idx`. */
  function AddedLists(vertices: seq<seq<int>>, b: Bond, idx: int): seq<seq<int>>
    requires 0 <= b.beg < |vertices| && 0 <= b.end < |vertices|
  {
    var v1 := vertices[b.beg := vertices[b.beg] + [idx]];
    v1[b.end := v1[b.end] + [idx]]
  }

  /** A bond with a hydrogen at one end does not change the hash, as long
      as the number of refinement rounds stays the same. */
  lemma HydrogenBondKeepsHash(atoms: seq<Atom>, bonds: seq<Bond>, vertices: seq<seq<int>>, b: Bond)
    requires Shape(atoms, bonds, vertices)
    requires 0 <= b.beg < |atoms| && 0 <= b.end < |atoms|
    requires atoms[b.beg].number == Elements.ElemH || atoms[b.end].number == Elements.ElemH
    requires Rounds(|bonds| + 1) == Rounds(|bonds|)
    ensures Shape(atoms, bonds + [b], AddedLists(vertices, b, |bonds|))
    ensures MoleculeHash(atoms, bonds + [b], AddedLists(vertices, b, |bonds|)) == MoleculeHash(atoms, bonds, vertices)
  {
    var vertices2 := AddedLists(vertices, b, |bonds|);
    var bonds2 := bonds + [b];
    assert EdgesInRange(vertices2, bonds2) by {
      forall a, k | 0 <= a < |vertices2| && 0 <= k < |vertices2[a]|
        ensures 0 <= vertices2[a][k] < |bonds2|
      {
        if k >= |vertices[a]| {
          assert vertices2[a][k] == |bonds|;
        } else {
          assert vertices2[a][k] == vertices[a][k];
        }
      }
    }
    var heavy := HeavyList(atoms, |atoms|);
    if heavy != [] {
      var pos := PosMap(heavy);
      var edgesOf := HeavyEdges(vertices, heavy);
      var edgesOf2 := HeavyEdges(vertices2, heavy);
      assert GrownLists(edgesOf, edgesOf2, b, heavy, |bonds|, pos) by {
        forall k | 0 <= k < |heavy|
          ensures GrownList(edgesOf[k], edgesOf2[k], b, heavy[k], |bonds|, pos)
        {
          var self := heavy[k];
          assert atoms[self].number != Elements.ElemH;
          if b.beg == self {
            assert b.end != self && OtherEnd(b, self) == b.end && b.end !in pos;
          } else if b.end == self {
            assert OtherEnd(b, self) == b.beg && b.beg !in pos;
          }
        }
      }
      InitialCodesGrown(atoms, bonds, b, heavy, edgesOf, edgesOf2, pos);
      var init := InitialCodes(atoms, bonds, heavy, edgesOf, pos);
      RoundsGrown(init, bonds, b, heavy, edgesOf, edgesOf2, pos, Rounds(|bonds|));
    }
  }
}
