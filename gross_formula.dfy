/** Gross (molecular) formulas (src/molecule/gross_formula.go): element
    counts keyed by atomic number, or by `(isotope << 8) + number` for a
    labelled isotope, and their rendering either in Hill order or in
    atomic-number order. */
module GrossFormula {
  import opened Wrappers
  import Text
  import Elements
  import opened Sorting
  import opened MoleculeGraph

  /** `GrossUnit`: the counts of one structural unit and its multiplier
      (polymer units are not produced, so the multiplier stays empty). */
  datatype GrossUnit = GrossUnit(isotopes: map<int, int>, multiplier: string)

  /** `m[k] = m[k] + d`, with Go's zero for a missing key. */
  function Bump(m: map<int, int>, k: int, d: int): map<int, int>
  {
    m[k := (if k in m then m[k] else 0) + d]
  }

  /** The atoms `CollectGross` counts: not pseudo, not template, and with a
      positive atomic number. */
  predicate Counted(a: Atom)
  {
    a.number != Elements.ElemPseudo && a.number != Elements.ElemTemplate && a.number > 0
  }

  /** The key of a counted atom: the isotope-tagged key only when isotopes
      are asked for and the atom has one. */
  function AtomKey(a: Atom, addIsotopes: bool): int
  {
    if addIsotopes && a.isotope > 0 then a.isotope * 256 + a.number else a.number
  }

  /** The implicit hydrogen count of every atom of a molecule. */
  function ImplicitHs(atoms: seq<Atom>, bonds: seq<Bond>, vertices: seq<seq<int>>): (hs: seq<int>)
    requires |vertices| == |atoms|
    ensures |hs| == |atoms|
  {
    seq(|atoms|, i requires 0 <= i < |atoms| => ImplicitHOf(atoms, bonds, vertices, i))
  }

  /** The counts `CollectGross` has gathered after the first `n` atoms,
      given each atom's implicit hydrogen count `hs[i]`: one per counted
      atom under its key, plus its implicit hydrogens under H. */
  function GrossCounts(atoms: seq<Atom>, hs: seq<int>, addIsotopes: bool, n: nat): map<int, int>
    requires |hs| == |atoms| && n <= |atoms|
  {
    if n == 0 then map[]
    else AddAtom(GrossCounts(atoms, hs, addIsotopes, n - 1), atoms[n - 1], addIsotopes, hs[n - 1])
  }

  /** The counts after one more atom with `h` implicit hydrogens. */
  function AddAtom(m: map<int, int>, a: Atom, addIsotopes: bool, h: int): map<int, int>
  {
    if !Counted(a) then m
    else
      var m1 := Bump(m, AtomKey(a, addIsotopes), 1);
      if a.number != Elements.ElemRSite && h > 0 then Bump(m1, Elements.ElemH, h) else m1
  }

  /** What the counts contain: every key is positive (so no pseudo, R-site
      or template key), every count is at least 1, every counted atom's key
      is present, and every key other than H belongs to a counted atom. */
  lemma {:induction false} GrossCountsKeys(atoms: seq<Atom>, hs: seq<int>, addIsotopes: bool, n: nat)
    requires |hs| == |atoms| && n <= |atoms|
    ensures var m := GrossCounts(atoms, hs, addIsotopes, n);
      (forall k :: k in m ==> k > 0 && m[k] >= 1)
      && (forall i :: 0 <= i < n && Counted(atoms[i]) ==> AtomKey(atoms[i], addIsotopes) in m)
      && (forall k :: k in m && k != Elements.ElemH ==>
            exists i :: 0 <= i < n && Counted(atoms[i]) && AtomKey(atoms[i], addIsotopes) == k)
  {
    if n > 0 {
      GrossCountsKeys(atoms, hs, addIsotopes, n - 1);
      var m := GrossCounts(atoms, hs, addIsotopes, n - 1);
      var a := atoms[n - 1];
      if Counted(a) {
        var key := AtomKey(a, addIsotopes);
        var m1 := Bump(m, key, 1);
        var m2 := GrossCounts(atoms, hs, addIsotopes, n);
        assert m2.Keys <= m1.Keys + {Elements.ElemH};
        forall k | k in m2 && k != Elements.ElemH
          ensures exists i :: 0 <= i < n && Counted(atoms[i]) && AtomKey(atoms[i], addIsotopes) == k
        {
          if k == key {
            assert Counted(atoms[n - 1]) && AtomKey(atoms[n - 1], addIsotopes) == k;
          } else {
            assert k in m;
            var i :| 0 <= i < n - 1 && Counted(atoms[i]) && AtomKey(atoms[i], addIsotopes) == k;
            assert 0 <= i < n;
          }
        }
      }
    }
  }

  /** The isotope key `(isotope << 8) + number` is taken apart again by
      `key & 0xFF` and `key >> 8`, for every atomic number below 256. */
  lemma IsotopeKeyDecode(number: int, isotope: int)
    requires 0 < number < 256 && isotope >= 0
    ensures (isotope * 256 + number) % 256 == number
    ensures (isotope * 256 + number) / 256 == isotope
  {
  }

  /** One pass of the atom loop of `CollectGross`. */
  method CountAtom(mol: Molecule, atomIdx: int, addIsotopes: bool, counts: map<int, int>, ghost hs: seq<int>)
    returns (next: map<int, int>)
    requires mol.Valid() && 0 <= atomIdx < |mol.atoms| && hs == ImplicitHs(mol.atoms, mol.bonds, mol.vertices)
    requires counts == GrossCounts(mol.atoms, hs, addIsotopes, atomIdx)
    modifies mol`connectivity, mol`implicitH
    ensures mol.Valid()
    ensures next == GrossCounts(mol.atoms, hs, addIsotopes, atomIdx + 1)
  {
    ghost var h := hs[atomIdx];
    assert h == ImplicitHOf(mol.atoms, mol.bonds, mol.vertices, atomIdx);
    assert GrossCounts(mol.atoms, hs, addIsotopes, atomIdx + 1) == AddAtom(counts, mol.atoms[atomIdx], addIsotopes, h);
    next := counts;
    var a := mol.atoms[atomIdx];
    if a.number == Elements.ElemPseudo || a.number == Elements.ElemTemplate {
      return;
    }
    var number := mol.GetAtomNumber(atomIdx);
    if number <= 0 {
      return;
    }
    var isotope := 0;
    if addIsotopes {
      isotope := a.isotope;
    }
    var key := number;
    if isotope > 0 {
      key := isotope * 256 + number;
    }
    assert Counted(a) && key == AtomKey(a, addIsotopes);
    next := Bump(next, key, 1);
    ghost var m1 := next;
    if a.number != Elements.ElemTemplate && number != Elements.ElemRSite {
      var implH := mol.GetImplicitH(atomIdx);
      assert implH == h;
      if implH >= 0 && implH != 0 {
        next := Bump(next, Elements.ElemH, implH);
      }
    }
    assert next == (if a.number != Elements.ElemRSite && h > 0 then Bump(m1, Elements.ElemH, h) else m1);
  }

  /** `CollectGross`: exactly one unit, holding the counts of every
      counted atom and its implicit hydrogens. Selection is not supported
      in Go either, so every atom is taken. Reading implicit hydrogens may
      fill the molecule's caches. */
  method CollectGross(mol: Molecule, addIsotopes: bool) returns (units: seq<GrossUnit>)
    requires mol.Valid()
    modifies mol`connectivity, mol`implicitH
    ensures mol.Valid()
    ensures |units| == 1 && units[0].multiplier == ""
    ensures units[0].isotopes == GrossCounts(mol.atoms, ImplicitHs(mol.atoms, mol.bonds, mol.vertices),
                                             addIsotopes, |mol.atoms|)
  {
    var counts := CountAtoms(mol, addIsotopes);
    units := [GrossUnit(counts, "")];
  }

  /** The atom loop of `CollectGross`. */
  method CountAtoms(mol: Molecule, addIsotopes: bool) returns (counts: map<int, int>)
    requires mol.Valid()
    modifies mol`connectivity, mol`implicitH
    ensures mol.Valid()
    ensures counts == GrossCounts(mol.atoms, ImplicitHs(mol.atoms, mol.bonds, mol.vertices), addIsotopes, |mol.atoms|)
  {
    ghost var hs := ImplicitHs(mol.atoms, mol.bonds, mol.vertices);
    counts := map[];
    var atomIdx := 0;
    while atomIdx < |mol.atoms|
      invariant mol.Valid()
      invariant 0 <= atomIdx <= |mol.atoms|
      invariant hs == ImplicitHs(mol.atoms, mol.bonds, mol.vertices)
      invariant counts == GrossCounts(mol.atoms, hs, addIsotopes, atomIdx)
    {
      counts := CountAtom(mol, atomIdx, addIsotopes, counts, hs);
      atomIdx := atomIdx + 1;
    }
  }

  // ---------------------------------------------------------------------
  // Hill order

  /** One entry of the Hill sort: the element (`key & 0xFF`), the isotope
      (`key >> 8`) and the count. */
  datatype HillEntry = HillEntry(elem: int, isotope: int, count: int)

  function EntryOf(key: int, count: int): HillEntry
  {
    HillEntry(key % 256, key / 256, count)
  }

  function Symbol(elem: int): string
  {
    Elements.ElementToString(elem)
  }

  /** The Hill comparator as written: empty entries last; with carbon
      present C first and H second; then by symbol; then the plain isotope
      before labelled ones, and labelled ones by mass. */
  predicate HillLess(hasCarbon: bool, a: HillEntry, b: HillEntry)
  {
    if a.count == 0 then false
    else if b.count == 0 then true
    else if hasCarbon && a.elem != b.elem && b.elem == Elements.ElemC then false
    else if hasCarbon && a.elem != b.elem && a.elem == Elements.ElemC then true
    else if hasCarbon && a.elem != b.elem && b.elem == Elements.ElemH then false
    else if hasCarbon && a.elem != b.elem && a.elem == Elements.ElemH then true
    else if Symbol(a.elem) != Symbol(b.elem) then Text.LexLess(Symbol(a.elem), Symbol(b.elem))
    else if a.isotope == 0 && b.isotope != 0 then true
    else if a.isotope != 0 && b.isotope == 0 then false
    else a.isotope < b.isotope
  }

  /** The comparator never puts an entry before itself. */
  lemma HillLessIrreflexive(hasCarbon: bool, a: HillEntry)
    ensures !HillLess(hasCarbon, a, a)
  {
  }

  /** The comparator is transitive, so sorting with it is well defined. */
  lemma HillLessTransitive(hasCarbon: bool, a: HillEntry, b: HillEntry, c: HillEntry)
    requires HillLess(hasCarbon, a, b) && HillLess(hasCarbon, b, c)
    ensures HillLess(hasCarbon, a, c)
  {
    var sa, sb, sc := Symbol(a.elem), Symbol(b.elem), Symbol(c.elem);
    if sa != sb && sb != sc && Text.LexLess(sa, sb) && Text.LexLess(sb, sc) {
      Text.LexLessTransitive(sa, sb, sc);
      Text.LexLessIrreflexive(sa);
    }
    if sa != sb && sb == sc && Text.LexLess(sa, sb) {
      Text.LexLessIrreflexive(sa);
    }
    if sa == sb && sb != sc && Text.LexLess(sb, sc) {
      Text.LexLessIrreflexive(sa);
    }
  }

  lemma HillLessStrict(hasCarbon: bool)
    ensures StrictOrder((a, b) => HillLess(hasCarbon, a, b))
  {
    forall a, b, c | HillLess(hasCarbon, a, b) && HillLess(hasCarbon, b, c)
      ensures HillLess(hasCarbon, a, c)
    {
      HillLessTransitive(hasCarbon, a, b, c);
    }
  }

  /** Hill order over the entries that are printed (count at least 1):
      with carbon present, carbon entries come first, then hydrogen, then
      the rest by symbol; without carbon everything is by symbol. */
  predicate HillOrdered(hasCarbon: bool, es: seq<HillEntry>)
  {
    forall i, j :: 0 <= i < j < |es| && es[i].count >= 1 && es[j].count >= 1 ==>
      (hasCarbon && es[j].elem == Elements.ElemC ==> es[i].elem == Elements.ElemC)
      && (hasCarbon && es[j].elem == Elements.ElemH ==> es[i].elem == Elements.ElemC || es[i].elem == Elements.ElemH)
      && ((!hasCarbon || (es[i].elem != Elements.ElemC && es[i].elem != Elements.ElemH &&
                          es[j].elem != Elements.ElemC && es[j].elem != Elements.ElemH)) ==>
            !Text.LexLess(Symbol(es[j].elem), Symbol(es[i].elem)))
  }

  /** A sequence sorted by the comparator is in Hill order. */
  lemma {:induction false} SortedIsHillOrdered(hasCarbon: bool, es: seq<HillEntry>)
    requires Sorted((a, b) => HillLess(hasCarbon, a, b), es)
    ensures HillOrdered(hasCarbon, es)
  {
    forall i, j | 0 <= i < j < |es| && es[i].count >= 1 && es[j].count >= 1
      ensures (hasCarbon && es[j].elem == Elements.ElemC ==> es[i].elem == Elements.ElemC)
      ensures (hasCarbon && es[j].elem == Elements.ElemH ==> es[i].elem == Elements.ElemC || es[i].elem == Elements.ElemH)
      ensures (!hasCarbon || (es[i].elem != Elements.ElemC && es[i].elem != Elements.ElemH &&
                              es[j].elem != Elements.ElemC && es[j].elem != Elements.ElemH)) ==>
                !Text.LexLess(Symbol(es[j].elem), Symbol(es[i].elem))
    {
      assert !HillLess(hasCarbon, es[j], es[i]);
      if Symbol(es[j].elem) == Symbol(es[i].elem) {
        Text.LexLessIrreflexive(Symbol(es[i].elem));
      }
    }
  }

  /** Sorted by the Hill comparator, ties included: no entry is less
      than an entry before it. */
  predicate HillSorted(hasCarbon: bool, es: seq<HillEntry>)
  {
    Sorted((a, b) => HillLess(hasCarbon, a, b), es)
  }

  /** The carbon test of `hillFromIsotopes`: a plain carbon key with a
      positive count, or any carbon key. */
  predicate CarbonPresent(isotopes: map<int, int>)
  {
    (Elements.ElemC in isotopes && isotopes[Elements.ElemC] > 0) || HasCarbonKey(isotopes)
  }

  /** Some key of the map is a carbon key, labelled or not (`anyHas`). */
  predicate HasCarbonKey(isotopes: map<int, int>)
  {
    exists k :: k in isotopes && k % 256 == Elements.ElemC
  }

  /** `anyHas(isotopes, k & 0xFF == ELEM_C)`. */
  method AnyHasCarbon(isotopes: map<int, int>) returns (r: bool)
    ensures r <==> HasCarbonKey(isotopes)
  {
    var remaining := isotopes.Keys;
    while remaining != {}
      invariant remaining <= isotopes.Keys
      invariant forall k :: k in isotopes && k !in remaining ==> k % 256 != Elements.ElemC
      decreases remaining
    {
      SomeMember(remaining);
      var k :| k in remaining;
      if k % 256 == Elements.ElemC {
        return true;
      }
      remaining := remaining - {k};
    }
    return false;
  }

  /** The entries of the Hill sort: one per key other than the R-site
      key, in the map's (unspecified) order. */
  predicate EntriesOf(isotopes: map<int, int>, es: seq<HillEntry>)
  {
    |es| == |isotopes.Keys - {Elements.ElemRSite}|
    && (forall k :: k in isotopes && k != Elements.ElemRSite ==> EntryOf(k, isotopes[k]) in es)
    && (forall e :: e in es ==> FromKey(isotopes, isotopes.Keys, e))
  }

  /** `e` is the entry of some key of `keys` other than the R-site key. */
  predicate FromKey(isotopes: map<int, int>, keys: set<int>, e: HillEntry)
  {
    exists k :: k in keys && k in isotopes && k != Elements.ElemRSite && e == EntryOf(k, isotopes[k])
  }

  /** `es` holds the entries of exactly the keys in `seen`. */
  predicate EntriesSoFar(isotopes: map<int, int>, seen: set<int>, es: seq<HillEntry>)
    requires seen <= isotopes.Keys
  {
    |es| == |seen - {Elements.ElemRSite}|
    && (forall k :: k in seen && k != Elements.ElemRSite ==> EntryOf(k, isotopes[k]) in es)
    && (forall e :: e in es ==> FromKey(isotopes, seen, e))
  }

  /** One step of the entry loop: key `k` is visited. */
  lemma EntryStep(isotopes: map<int, int>, seen: set<int>, es: seq<HillEntry>, k: int)
    requires seen <= isotopes.Keys && k in isotopes && k !in seen
    requires EntriesSoFar(isotopes, seen, es)
    ensures EntriesSoFar(isotopes, seen + {k},
                         if k != Elements.ElemRSite then es + [EntryOf(k, isotopes[k])] else es)
  {
    forall e | e in es ensures FromKey(isotopes, seen + {k}, e) {
      var j :| j in seen && j in isotopes && j != Elements.ElemRSite && e == EntryOf(j, isotopes[j]);
    }
    if k != Elements.ElemRSite {
      assert FromKey(isotopes, seen + {k}, EntryOf(k, isotopes[k]));
      assert (seen + {k}) - {Elements.ElemRSite} == (seen - {Elements.ElemRSite}) + {k};
    } else {
      assert (seen + {k}) - {Elements.ElemRSite} == seen - {Elements.ElemRSite};
    }
  }

  /** The entry loop of `hillFromIsotopes`. */
  method CollectHillEntries(isotopes: map<int, int>) returns (es: seq<HillEntry>)
    ensures EntriesOf(isotopes, es)
  {
    es := [];
    var remaining := isotopes.Keys;
    ghost var seen: set<int> := {};
    while remaining != {}
      invariant seen + remaining == isotopes.Keys && seen !! remaining && EntriesSoFar(isotopes, seen, es)
      decreases remaining
    {
      SomeMember(remaining);
      var k :| k in remaining;
      es := AddEntry(isotopes, es, k, seen);
      seen, remaining := seen + {k}, remaining - {k};
    }
    AllEntries(isotopes, es);
  }

  /** One pass of the entry loop: the entry of key `k`, unless it is the
      R-site key. */
  method AddEntry(isotopes: map<int, int>, es: seq<HillEntry>, k: int, ghost seen: set<int>) returns (es2: seq<HillEntry>)
    requires seen <= isotopes.Keys && k in isotopes && k !in seen
    requires EntriesSoFar(isotopes, seen, es)
    ensures EntriesSoFar(isotopes, seen + {k}, es2)
  {
    EntryStep(isotopes, seen, es, k);
    es2 := es;
    if k != Elements.ElemRSite {
      es2 := es + [EntryOf(k, isotopes[k])];
    }
  }

  /** Once every key is seen, the entries are those of the map. */
  lemma AllEntries(isotopes: map<int, int>, es: seq<HillEntry>)
    requires EntriesSoFar(isotopes, isotopes.Keys, es)
    ensures EntriesOf(isotopes, es)
  {
  }

  /** How one Hill entry is printed: a positive isotope as a mass prefix,
      the symbol, and the count unless it is 1. */
  function HillPart(e: HillEntry): string
  {
    (if e.isotope > 0 then Text.IntToString(e.isotope) + Symbol(e.elem) else Symbol(e.elem))
    + (if e.count > 1 then Text.IntToString(e.count) else "")
  }

  /** The printed parts: entries with a count below 1 are skipped. */
  function HillParts(es: seq<HillEntry>): (parts: seq<string>)
    ensures |parts| <= |es|
  {
    if es == [] then []
    else
      var init := HillParts(es[..|es| - 1]);
      var e := es[|es| - 1];
      if e.count < 1 then init else init + [HillPart(e)]
  }

  /** The R-site part: only when asked for and present with a positive
      count; "R#" for one, "R#n" otherwise. */
  function RSitePart(isotopes: map<int, int>, addRSites: bool): (parts: seq<string>)
    ensures |parts| <= 1
    ensures parts != [] <==> addRSites && Elements.ElemRSite in isotopes && isotopes[Elements.ElemRSite] > 0
    ensures parts != [] ==> Text.HasPrefix(parts[0], "R#")
  {
    if addRSites && Elements.ElemRSite in isotopes && isotopes[Elements.ElemRSite] > 0 then
      var v := isotopes[Elements.ElemRSite];
      [if v == 1 then "R#" else "R#" + Text.IntToString(v)]
    else []
  }

  /** The part loop of `hillFromIsotopes`. */
  /** One more entry: its part is added unless its count is below 1. */
  lemma HillPartsSnoc(es: seq<HillEntry>, i: nat)
    requires i < |es|
    ensures HillParts(es[..i + 1]) ==
              if es[i].count < 1 then HillParts(es[..i]) else HillParts(es[..i]) + [HillPart(es[i])]
  {
    assert es[..i + 1][..i] == es[..i];
  }

  /** The printing of one entry in `hillFromIsotopes`. */
  method PrintHillPart(e: HillEntry) returns (part: string)
    ensures part == HillPart(e)
  {
    part := Symbol(e.elem);
    if e.isotope > 0 {
      part := Text.IntToString(e.isotope) + part;
    }
    if e.count > 1 {
      part := part + Text.IntToString(e.count);
    }
  }

  method AssembleHillParts(es: seq<HillEntry>, isotopes: map<int, int>, addRSites: bool)
    returns (parts: seq<string>)
    ensures parts == HillParts(es) + RSitePart(isotopes, addRSites)
  {
    parts := [];
    var i := 0;
    while i < |es|
      invariant 0 <= i <= |es|
      invariant parts == HillParts(es[..i])
    {
      var e := es[i];
      HillPartsSnoc(es, i);
      if e.count >= 1 {
        var part := PrintHillPart(e);
        parts := parts + [part];
      }
      i := i + 1;
    }
    assert es[..|es|] == es;
    if addRSites && Elements.ElemRSite in isotopes && isotopes[Elements.ElemRSite] > 0 {
      var v := isotopes[Elements.ElemRSite];
      if v == 1 {
        parts := parts + ["R#"];
      } else {
        parts := parts + ["R#" + Text.IntToString(v)];
      }
    }
  }

  /** `hillFromIsotopes`: the entries (one per key but R#) sorted by the
      Hill comparator, printed and joined by single spaces, followed by the
      R-site part. The entries are sorted by the comparator itself, so the
      map's iteration order only decides between entries it cannot tell
      apart, such as two entries with a zero count. */
  method HillFromIsotopes(isotopes: map<int, int>, addRSites: bool) returns (s: string)
    ensures exists es :: (EntriesOf(isotopes, es)
      && HillSorted(CarbonPresent(isotopes), es) && HillOrdered(CarbonPresent(isotopes), es)
      && s == Text.Join(HillParts(es) + RSitePart(isotopes, addRSites), " "))
  {
    var anyCarbon := AnyHasCarbon(isotopes);
    var hasCarbon := (Elements.ElemC in isotopes && isotopes[Elements.ElemC] > 0) || anyCarbon;
    var entries := CollectHillEntries(isotopes);
    var sorted := InsertionSort((a, b) => HillLess(hasCarbon, a, b), entries);
    HillLessStrict(hasCarbon);
    InsertionSortCorrect((a, b) => HillLess(hasCarbon, a, b), entries);
    SortedIsHillOrdered(hasCarbon, sorted);
    SortKeepsEntries(isotopes, entries, sorted);
    var parts := AssembleHillParts(sorted, isotopes, addRSites);
    s := Text.Join(parts, " ");
  }

  /** A permutation of the entries is still the entries. */
  lemma SortKeepsEntries(isotopes: map<int, int>, es: seq<HillEntry>, sorted: seq<HillEntry>)
    requires EntriesOf(isotopes, es) && multiset(sorted) == multiset(es)
    ensures EntriesOf(isotopes, sorted)
  {
    assert |sorted| == |multiset(sorted)| == |multiset(es)| == |es|;
    forall e | e in sorted ensures e in es {
      assert e in multiset(sorted);
    }
    forall e | e in es ensures e in sorted {
      assert e in multiset(es);
    }
  }

  /** `GrossUnitsToStringHill`: empty for no units, otherwise the Hill
      string of the base unit (repeating units are not rendered). */
  method GrossUnitsToStringHill(units: seq<GrossUnit>, addRSites: bool) returns (s: string)
    ensures units == [] ==> s == ""
    ensures units != [] ==> exists es :: (EntriesOf(units[0].isotopes, es)
      && HillSorted(CarbonPresent(units[0].isotopes), es) && HillOrdered(CarbonPresent(units[0].isotopes), es)
      && s == Text.Join(HillParts(es) + RSitePart(units[0].isotopes, addRSites), " "))
  {
    if |units| == 0 {
      return "";
    }
    s := HillFromIsotopes(units[0].isotopes, addRSites);
  }

  // ---------------------------------------------------------------------
  // Atomic-number order

  /** One entry of `GrossToString`: a whole key and its count. */
  datatype Counter = Counter(elem: int, count: int)

  /** The comparator of `GrossToString`: H last, the rest by key. */
  predicate CounterLess(a: Counter, b: Counter)
  {
    if a.elem == b.elem then false
    else if a.elem == Elements.ElemH then false
    else if b.elem == Elements.ElemH then true
    else a.elem < b.elem
  }

  lemma CounterLessStrict()
    ensures StrictOrder(CounterLess)
  {
  }

  /** Every printed counter has a positive count and a key other than
      R#, one per key. */
  predicate CountersOf(gross: map<int, int>, cs: seq<Counter>)
  {
    (forall k :: k in gross && k != Elements.ElemRSite && gross[k] > 0 ==> Counter(k, gross[k]) in cs)
    && (forall c :: c in cs ==> c.elem in gross && c.elem != Elements.ElemRSite && c.count == gross[c.elem] > 0)
  }

  /** The counter loop of `GrossToString`. */
  method CollectCounters(gross: map<int, int>) returns (cs: seq<Counter>)
    ensures CountersOf(gross, cs)
  {
    cs := [];
    var remaining := gross.Keys;
    while remaining != {}
      invariant remaining <= gross.Keys
      invariant forall k :: k in gross.Keys - remaining && k != Elements.ElemRSite && gross[k] > 0 ==> Counter(k, gross[k]) in cs
      invariant forall c :: c in cs ==> c.elem in gross && c.elem != Elements.ElemRSite && c.count == gross[c.elem] > 0
      decreases remaining
    {
      SomeMember(remaining);
      var k :| k in remaining;
      if k != Elements.ElemRSite && gross[k] > 0 {
        cs := cs + [Counter(k, gross[k])];
      }
      remaining := remaining - {k};
    }
  }

  /** How a counter is printed: the symbol of `key & 0xFF`, then the count
      unless it is 1. */
  function CounterPart(c: Counter): string
  {
    Symbol(c.elem % 256) + (if c.count == 1 then "" else Text.IntToString(c.count))
  }

  function CounterParts(cs: seq<Counter>): (parts: seq<string>)
    ensures |parts| <= |cs|
  {
    if cs == [] then []
    else
      var init := CounterParts(cs[..|cs| - 1]);
      var c := cs[|cs| - 1];
      if c.count == 0 then init else init + [CounterPart(c)]
  }

  /** The part loop of `GrossToString`. */
  method AssembleCounterParts(cs: seq<Counter>, gross: map<int, int>, addRSites: bool)
    returns (parts: seq<string>)
    ensures parts == CounterParts(cs) + RSitePart(gross, addRSites)
  {
    parts := [];
    var i := 0;
    while i < |cs|
      invariant 0 <= i <= |cs|
      invariant parts == CounterParts(cs[..i])
    {
      var c := cs[i];
      assert cs[..i + 1][..i] == cs[..i];
      if c.count == 0 {
        i := i + 1;
        continue;
      }
      assert CounterParts(cs[..i + 1]) == CounterParts(cs[..i]) + [CounterPart(c)];
      var part := Symbol(c.elem % 256);
      if c.count != 1 {
        part := part + Text.IntToString(c.count);
      }
      assert part == CounterPart(c);
      parts := parts + [part];
      i := i + 1;
    }
    assert cs[..|cs|] == cs;
    if addRSites && Elements.ElemRSite in gross && gross[Elements.ElemRSite] > 0 {
      var v := gross[Elements.ElemRSite];
      if v == 1 {
        parts := parts + ["R#"];
      } else {
        parts := parts + ["R#" + Text.IntToString(v)];
      }
    }
  }

  /** A permutation of the counters is still the counters. */
  lemma SortKeepsCounters(gross: map<int, int>, cs: seq<Counter>, sorted: seq<Counter>)
    requires CountersOf(gross, cs) && multiset(sorted) == multiset(cs)
    ensures CountersOf(gross, sorted)
  {
    forall c | c in sorted ensures c in cs {
      assert c in multiset(sorted);
    }
    forall c | c in cs ensures c in sorted {
      assert c in multiset(cs);
    }
  }

  /** `GrossToString`: the positive counters but R#, sorted with H last and
      the rest by key, printed and joined by single spaces, then the R-site
      part. */
  method GrossToString(gross: map<int, int>, addRSites: bool) returns (s: string)
    ensures exists cs :: (CountersOf(gross, cs) && Sorted(CounterLess, cs)
      && s == Text.Join(CounterParts(cs) + RSitePart(gross, addRSites), " "))
  {
    var counters := CollectCounters(gross);
    var sorted := InsertionSort(CounterLess, counters);
    CounterLessStrict();
    InsertionSortCorrect(CounterLess, counters);
    SortKeepsCounters(gross, counters, sorted);
    var parts := AssembleCounterParts(sorted, gross, addRSites);
    s := Text.Join(parts, " ");
  }

  /** In the atomic-number order every H counter comes after every other
      counter. */
  lemma {:induction false} HydrogenLast(cs: seq<Counter>)
    requires Sorted(CounterLess, cs)
    ensures forall i, j :: 0 <= i < j < |cs| && cs[i].elem == Elements.ElemH ==> cs[j].elem == Elements.ElemH
    ensures forall i, j :: 0 <= i < j < |cs| && cs[i].elem != Elements.ElemH && cs[j].elem != Elements.ElemH ==>
              cs[i].elem <= cs[j].elem
  {
    forall i, j | 0 <= i < j < |cs|
      ensures cs[i].elem == Elements.ElemH ==> cs[j].elem == Elements.ElemH
      ensures cs[i].elem != Elements.ElemH && cs[j].elem != Elements.ElemH ==> cs[i].elem <= cs[j].elem
    {
      assert !CounterLess(cs[j], cs[i]);
    }
  }
}
