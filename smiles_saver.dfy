/** The SMILES writer (molecule/smiles_saver.go): a depth-first walk over
    the atoms that writes each atom once, marks ring-closure bonds with
    ring numbers, puts branches in parentheses and separates the connected
    components with '.'.

    The text each piece of the walk produces is given by functions
    (`AtomText`, `BondText`, `ChargeText`, `RingNumberText`,
    `BranchLayout`); the `SmilesSaver` class is the walk itself, with the
    output, the visited flags, the ring-number map and the next ring number
    as fields its methods update. The lemmas relate the pieces of text to
    what the SMILES reader of this model reads back. */
module SmilesSaver {
  import opened Wrappers
  import opened Text
  import opened Elements
  import opened MoleculeGraph
  import SmilesLoader

  // ---------------------------------------------------------------------
  // Options

  /** `SmilesSaverOptions`. Only `IgnoreHydrogens`, `WriteAromaticBonds`,
      `WriteIsotopes` and `WriteCharges` change what is written. */
  datatype SaverOptions = SaverOptions(canonical: bool, ignoreHydrogens: bool, writeAromaticBonds: bool,
                                       chemAxonMode: bool, writeIsotopes: bool, writeCharges: bool)

  /** `DefaultSmilesSaverOptions`. */
  const DefaultSaverOptions: SaverOptions := SaverOptions(false, false, false, true, true, true)

  // ---------------------------------------------------------------------
  // Charges

  /** `writeCharge` as the source writes it: "+" for +1, the sign repeated
      for +2 and +3 (and -2, -3), the sign and the magnitude otherwise;
      nothing for 0. */
  function ChargeTextAsWritten(charge: int): string
  {
    if charge > 0 then
      if charge == 1 then "+" else if charge <= 3 then Repeat("+", charge) else "+" + NatToString(charge)
    else if charge < 0 then
      if charge == -1 then "-" else if charge >= -3 then Repeat("-", -charge) else IntToString(charge)
    else ""
  }

  /** `writeCharge` corrected so that the SMILES reader reads every charge
      back: the doubled sign only for +2 and -2, a number from 3 on. */
  function ChargeText(charge: int): (t: string)
    ensures t == "" <==> charge == 0
    ensures charge > 0 ==> t[0] == '+'
    ensures charge < 0 ==> t[0] == '-'
  {
    if charge > 0 then
      if charge == 1 then "+" else if charge <= 2 then Repeat("+", charge) else "+" + NatToString(charge)
    else if charge < 0 then
      if charge == -1 then "-" else if charge >= -2 then Repeat("-", -charge) else IntToString(charge)
    else ""
  }

  /** The two differ exactly on +3 and -3. */
  lemma ChargeTextDiffers(charge: int)
    ensures ChargeTextAsWritten(charge) != ChargeText(charge) <==> charge == 3 || charge == -3
  {
    if charge == 3 {
      assert ChargeTextAsWritten(charge)[1] == '+';
      assert ChargeText(charge)[1] == '3';
    } else if charge == -3 {
      assert ChargeTextAsWritten(charge)[1] == '-';
      assert ChargeText(charge)[1] == '3';
    }
  }

  /** The run of digits that starts at `i` is exactly `d`. */
  lemma {:induction false} DigitRunEndAt(s: string, i: nat, d: string)
    requires AllDigits(d) && i + |d| <= |s| && s[i..i + |d|] == d
    requires i + |d| == |s| || !IsDigit(s[i + |d|])
    ensures SmilesLoader.DigitRunEnd(s, i) == i + |d|
    decreases |d|
  {
    if d != [] {
      assert s[i] == d[0];
      assert s[i + 1..i + 1 + |d[1..]|] == d[1..];
      DigitRunEndAt(s, i + 1, d[1..]);
    }
  }

  /** The charge text ends at `i` + its length, where no digit or sign follows. */
  predicate ChargeSlice(s: string, i: nat, charge: int)
  {
    var c := ChargeText(charge);
    i + |c| <= |s| && s[i..i + |c|] == c &&
    (i + |c| == |s| || (!IsDigit(s[i + |c|]) && s[i + |c|] != '+' && s[i + |c|] != '-'))
  }

  /** A charge of magnitude 1 or 2 is read back. */
  lemma SmallChargeReadsBack(s: string, i: nat, charge: int)
    requires charge != 0 && -2 <= charge <= 2 && ChargeSlice(s, i, charge)
    ensures SmilesLoader.ChargeAt(s, i) == SmilesLoader.ChargeRead(charge, i + |ChargeText(charge)|)
  {
    var c := ChargeText(charge);
    assert s[i] == c[0];
    assert |c| == 2 ==> s[i + 1] == c[1];
  }

  /** A charge of magnitude 3 or more is read back. */
  lemma LargeChargeReadsBack(s: string, i: nat, charge: int)
    requires (charge >= 3 || charge <= -3) && ChargeSlice(s, i, charge)
    ensures SmilesLoader.ChargeAt(s, i) == SmilesLoader.ChargeRead(charge, i + |ChargeText(charge)|)
  {
    var c := ChargeText(charge);
    var n: nat := if charge > 0 then charge else -charge;
    var d := NatToString(n);
    assert c == [c[0]] + d;
    assert s[i] == c[0];
    assert s[i + 1..i + 1 + |d|] == d;
    assert s[i + 1] == d[0];
    DigitRunEndAt(s, i + 1, d);
    NatToStringRoundTrip(n);
    SameDigits(s[i + 1..i + 1 + |d|], d);
  }

  /** Every charge the corrected writer produces is read back by the
      reader's charge scan, which stops right after it. */
  lemma ChargeReadsBack(s: string, i: nat, charge: int)
    requires charge != 0 && ChargeSlice(s, i, charge)
    ensures SmilesLoader.ChargeAt(s, i) == SmilesLoader.ChargeRead(charge, i + |ChargeText(charge)|)
  {
    if -2 <= charge <= 2 {
      SmallChargeReadsBack(s, i, charge);
    } else {
      LargeChargeReadsBack(s, i, charge);
    }
  }

  lemma SameDigits(a: string, b: string)
    requires AllDigits(a) && a == b
    ensures DigitsValue(a) == DigitsValue(b)
  {
  }

  /** A charge of +3 as written, "+++", is read as +2 followed by a stray
      '+'. */
  lemma TripleChargeAsWritten()
    ensures ChargeTextAsWritten(3) == "+++"
    ensures SmilesLoader.ChargeAt("+++]", 0) == SmilesLoader.ChargeRead(2, 2)
  {
  }

  /** So the bracket atom "[Al+++]" is rejected. */
  lemma TripleChargeRejected()
    ensures SmilesLoader.BracketedAtom("[Al+++]", 0) == Err("expected ']' at 5")
  {
    var s := "[Al+++]";
    assert s[1..1] == [] && s[1..3] == "Al";
    assert SmilesLoader.DigitRunEnd(s, 1) == 1;
    assert SmilesLoader.BracketSymbol(s, 1, true) == Ok(SmilesLoader.SymbolRead("Al", false, 3));
    assert SmilesLoader.StereoRunEnd(s, 3) == 3 && SmilesLoader.HCountEnd(s, 3) == 3;
    assert SmilesLoader.ChargeAt(s, 3) == SmilesLoader.ChargeRead(2, 5);
    BracketPartsRejected(s, 1, 3, 3, 5, "Al", false, 2);
    assert IntToString(5) == "5";
  }

  /** The corrected "+3" is read back. */
  lemma TripleChargeCorrected()
    ensures ChargeText(3) == "+3"
    ensures ReadsAs(SmilesLoader.BracketedAtom("[Al+3]", 0), "Al", false, 6, 0, 3)
  {
    assert NatToString(3) == "3";
    var s := "[Al+3]";
    assert s[1..1] == [] && s[1..3] == "Al" && s[3..3] == [] && s[3..5] == "+3";
    BracketLayoutReads(s, 0, "Al", false, "", 3);
  }

  // ---------------------------------------------------------------------
  // Ring numbers

  /** `writeRingNumber`: one digit below 10, '%' and the number otherwise. */
  function RingNumberText(num: nat): (t: string)
    ensures num < 10 ==> |t| == 1 && IsDigit(t[0]) && DigitValue(t[0]) == num
    ensures num >= 10 ==> |t| >= 2 && t[0] == '%' && AllDigits(t[1..]) && DigitsValue(t[1..]) == num
  {
    if num < 10 then [DigitChar(num)]
    else
      NatToStringRoundTrip(num);
      assert ("%" + NatToString(num))[1..] == NatToString(num);
      "%" + NatToString(num)
  }

  /** Every ring number from 1 to 99 is read back by the reader's ring
      number scan. */
  lemma RingNumberReadsBack(num: nat, rest: string)
    requires 1 <= num < 100
    ensures var s := RingNumberText(num) + rest;
            (IsDigit(s[0]) || s[0] == '%') &&
            SmilesLoader.RingNumberAt(s, 0) == Ok(SmilesLoader.RingRef(num, |RingNumberText(num)|))
  {
    var t := RingNumberText(num);
    var s := t + rest;
    if num >= 10 {
      var d := NatToString(num);
      assert |NatToString(num / 10)| == 1;
      assert d == NatToString(num / 10) + [DigitChar(num % 10)];
      assert |d| == 2 && s[1] == d[0] && s[2] == d[1];
      assert DigitValue(d[0]) == num / 10;
    }
  }

  /** From 100 on the reader takes only two digits: ring 100 is read as
      ring 10 followed by a ring digit 0. */
  lemma LargeRingNumberMisread()
    ensures RingNumberText(100) == "%100"
    ensures SmilesLoader.RingNumberAt("%100", 0) == Ok(SmilesLoader.RingRef(10, 3))
  {
    assert NatToString(100) == "100";
  }

  /** `getRingNumber`/`setRingNumber`'s key: the smaller atom times 100000
      plus the larger. */
  function RingKey(atom1: int, atom2: int): int
  {
    if atom1 > atom2 then atom2 * 100000 + atom1 else atom1 * 100000 + atom2
  }

  /** The key does not depend on the order of the two atoms. */
  lemma RingKeySymmetric(a: int, b: int)
    ensures RingKey(a, b) == RingKey(b, a)
  {
  }

  /** Below 100000 atoms the key names one pair of atoms. */
  lemma RingKeyInjective(a: int, b: int, c: int, d: int)
    requires 0 <= a < 100000 && 0 <= b < 100000 && 0 <= c < 100000 && 0 <= d < 100000
    requires RingKey(a, b) == RingKey(c, d)
    ensures (a == c && b == d) || (a == d && b == c)
  {
    var lo1, hi1 := if a > b then b else a, if a > b then a else b;
    var lo2, hi2 := if c > d then d else c, if c > d then c else d;
    assert lo1 * 100000 + hi1 == lo2 * 100000 + hi2;
  }

  /** From 100000 atoms on, two pairs can share a key. */
  lemma RingKeyCollides()
    ensures RingKey(0, 100001) == RingKey(1, 1)
  {
  }

  // ---------------------------------------------------------------------
  // Atoms

  /** `isOrganicSubset`: B, C, N, O, P, S, F, Cl, Br and I. */
  predicate IsOrganicSubset(number: int)
  {
    number == ElemB || number == ElemC || number == ElemN || number == ElemO || number == ElemP ||
    number == ElemS || number == ElemF || number == ElemCl || number == ElemBr || number == ElemI
  }

  /** `canBeAromaticLowercase`: C, N, O, S and P. */
  predicate CanBeAromaticLowercase(number: int)
  {
    number == ElemC || number == ElemN || number == ElemO || number == ElemS || number == ElemP
  }

  /** `isAromaticAtom`: the atom's aromaticity entry exists and is aromatic. */
  predicate IsAromaticAtom(aromaticity: seq<int>, idx: int)
  {
    0 <= idx < |aromaticity| && aromaticity[idx] >= 0 && aromaticity[idx] == AtomAromatic
  }

  /** `shouldWriteHCount`: an explicit hydrogen count is set, or the atom
      is charged. */
  predicate ShouldWriteHCount(a: Atom)
  {
    a.explicitImplH >= 0 || a.charge != 0
  }

  /** `needsBrackets`. */
  predicate NeedsBrackets(o: SaverOptions, a: Atom, aromatic: bool)
  {
    !IsOrganicSubset(a.number) || (o.writeIsotopes && a.isotope > 0) || (o.writeCharges && a.charge != 0) ||
    ShouldWriteHCount(a) || (aromatic && !CanBeAromaticLowercase(a.number))
  }

  /** How many of the atoms named in `ns` are hydrogens. */
  function CountHydrogens(atoms: seq<Atom>, ns: seq<int>): (n: nat)
    ensures n <= |ns|
  {
    if ns == [] then 0
    else
      var k := ns[|ns| - 1];
      CountHydrogens(atoms, ns[..|ns| - 1]) + (if 0 <= k < |atoms| && atoms[k].number == ElemH then 1 else 0)
  }

  /** `getHydrogenCount`: the explicit hydrogen count when set; otherwise
      the hydrogen neighbours (unless hydrogens are ignored) plus the
      implicit hydrogens of a real element. */
  function HydrogenCount(o: SaverOptions, atoms: seq<Atom>, bonds: seq<Bond>, vertices: seq<seq<int>>, idx: int): (h: int)
    requires |vertices| == |atoms| && 0 <= idx < |atoms|
    ensures atoms[idx].explicitImplH >= 0 ==> h == atoms[idx].explicitImplH
    ensures atoms[idx].explicitImplH < 0 ==> 0 <= h
    ensures atoms[idx].explicitImplH < 0 && o.ignoreHydrogens && atoms[idx].number <= 0 ==> h == 0
  {
    var a := atoms[idx];
    if a.explicitImplH >= 0 then a.explicitImplH
    else
      var explicitH := if !o.ignoreHydrogens then CountHydrogens(atoms, NeighborList(bonds, vertices[idx], idx)) else 0;
      var implicitH := if a.number > 0 then ImplicitHOf(atoms, bonds, vertices, idx) else 0;
      explicitH + implicitH
  }

  /** `strings.ToLower` on ASCII text. */
  function ToLowerAscii(s: string): (r: string)
    ensures |r| == |s|
    ensures forall k :: 0 <= k < |s| ==> r[k] == (if IsUpper(s[k]) then (s[k] as int + 32) as char else s[k])
  {
    seq(|s|, k requires 0 <= k < |s| => if IsUpper(s[k]) then (s[k] as int + 32) as char else s[k])
  }

  /** The element symbol as written: lower case for an aromatic C, N, O,
      S or P. */
  function SymbolText(number: int, aromatic: bool): string
  {
    if aromatic && CanBeAromaticLowercase(number) then ToLowerAscii(ElementToString(number))
    else ElementToString(number)
  }

  /** The digits written for a positive isotope, or none. */
  function IsotopeDigits(isotope: int): (t: string)
    ensures AllDigits(t)
  {
    if isotope > 0 then NatToString(isotope) else ""
  }

  /** The isotope inside brackets when isotopes are written, else 0. */
  function WrittenIsotope(o: SaverOptions, a: Atom): int
  {
    if o.writeIsotopes then a.isotope else 0
  }

  /** The hydrogen count inside brackets: "H", or "H" and the count above 1,
      when it is to be written and is positive. */
  function HydrogenText(h: int): (t: string)
    ensures h <= 0 <==> t == ""
  {
    if h <= 0 then "" else if h == 1 then "H" else "H" + NatToString(h)
  }

  /** The charge inside brackets, when it is written. */
  function WrittenCharge(o: SaverOptions, a: Atom): int
  {
    if o.writeCharges then a.charge else 0
  }

  /** `writeAtom`: a pseudo atom or a template atom as its label in
      brackets; otherwise the symbol, in brackets with the isotope, the
      hydrogen count and the charge when `NeedsBrackets` says so. */
  function AtomText(o: SaverOptions, atoms: seq<Atom>, bonds: seq<Bond>, vertices: seq<seq<int>>,
                    aromaticity: seq<int>, idx: int): string
    requires |vertices| == |atoms| && 0 <= idx < |atoms|
  {
    var a := atoms[idx];
    if a.number == ElemPseudo then "[" + a.pseudoAtomValue + "]"
    else if a.number == ElemTemplate then "[" + a.templateName + "]"
    else
      var aromatic := IsAromaticAtom(aromaticity, idx);
      var symbol := SymbolText(a.number, aromatic);
      if NeedsBrackets(o, a, aromatic) then
        var h := if ShouldWriteHCount(a) then HydrogenText(HydrogenCount(o, atoms, bonds, vertices, idx)) else "";
        "[" + IsotopeDigits(WrittenIsotope(o, a)) + symbol + h + ChargeText(WrittenCharge(o, a)) + "]"
      else symbol
  }

  // ---------------------------------------------------------------------
  // Reading a bracket atom back

  /** The shape of a symbol the writer puts in brackets: one aromatic
      letter, or an upper-case letter and an optional lower-case one. */
  predicate WritableSymbol(sym: string, aromatic: bool)
  {
    if aromatic then |sym| == 1 && SmilesLoader.AromaticLetter(sym[0])
    else 1 <= |sym| <= 2 && IsUpper(sym[0]) && (|sym| == 2 ==> IsLower(sym[1]))
  }

  /** The shape of a written hydrogen count: nothing, or "H" and digits. */
  predicate WritableHydrogens(h: string)
  {
    h == [] || (h[0] == 'H' && AllDigits(h[1..]))
  }

  /** The symbol at `i` is read whole when what follows it is 'H', a sign
      or ']'. */
  lemma SymbolReads(s: string, i: nat, sym: string, aromatic: bool)
    requires WritableSymbol(sym, aromatic) && i + |sym| < |s| && s[i..i + |sym|] == sym
    requires var c := s[i + |sym|]; c == 'H' || c == '+' || c == '-' || c == ']'
    ensures SmilesLoader.BracketSymbol(s, i, true) == Ok(SmilesLoader.SymbolRead(sym, aromatic, i + |sym|))
  {
    assert s[i] == sym[0];
    if |sym| == 2 {
      assert s[i + 1] == sym[1];
      assert s[i..i + 2] == sym;
    } else {
      assert s[i..i + 1] == sym;
    }
  }

  /** Where the hydrogen count that starts at `j` ends. */
  lemma HydrogensRead(s: string, j: nat, h: string)
    requires WritableHydrogens(h) && j + |h| < |s| && s[j..j + |h|] == h
    requires var c := s[j + |h|]; c == '+' || c == '-' || c == ']'
    ensures SmilesLoader.HCountEnd(s, j) == j + |h|
  {
    if h != [] {
      assert s[j] == h[0];
      assert s[j + 1..j + 1 + |h[1..]|] == h[1..];
      DigitRunEndAt(s, j + 1, h[1..]);
    }
  }

  /** The reader produced an atom token with these fields. */
  predicate ReadsAs(r: Result<SmilesLoader.AtomToken>, sym: string, aromatic: bool, next: int, isotope: int, charge: int)
  {
    r.Ok? && r.value.symbol == sym && r.value.aromatic == aromatic && r.value.next == next &&
    r.value.isotope == isotope && r.value.charge == charge
  }

  /** The reader's bracket atom, given where each of its parts ends. */
  lemma BracketPartsRead(s: string, i0: nat, i1: nat, i2: nat, i3: nat, sym: string, aromatic: bool, charge: int)
    requires 1 <= i0 <= i1 <= i2 <= i3 < |s| && s[0] == '[' && s[i3] == ']'
    requires SmilesLoader.DigitRunEnd(s, 1) == i0
    requires SmilesLoader.BracketSymbol(s, i0, true) == Ok(SmilesLoader.SymbolRead(sym, aromatic, i1))
    requires SmilesLoader.StereoRunEnd(s, i1) == i1 && SmilesLoader.HCountEnd(s, i1) == i2
    requires SmilesLoader.ChargeAt(s, i2) == SmilesLoader.ChargeRead(charge, i3)
    ensures AllDigits(s[1..i0])
    ensures ReadsAs(SmilesLoader.BracketedAtom(s, 0), sym, aromatic, i3 + 1, DigitsValue(s[1..i0]), charge)
  {
  }

  /** The reader's bracket atom when its charge is not followed by "]". */
  lemma BracketPartsRejected(s: string, i0: nat, i1: nat, i2: nat, i3: nat, sym: string, aromatic: bool, charge: int)
    requires 1 <= i0 <= i1 <= i2 <= i3 < |s| && s[0] == '[' && s[i3] != ']'
    requires SmilesLoader.DigitRunEnd(s, 1) == i0
    requires SmilesLoader.BracketSymbol(s, i0, true) == Ok(SmilesLoader.SymbolRead(sym, aromatic, i1))
    requires SmilesLoader.StereoRunEnd(s, i1) == i1 && SmilesLoader.HCountEnd(s, i1) == i2
    requires SmilesLoader.ChargeAt(s, i2) == SmilesLoader.ChargeRead(charge, i3)
    ensures SmilesLoader.BracketedAtom(s, 0) == Err("expected ']' at " + IntToString(i3))
  {
  }

  /** The text "[", iso, sym, h, c, "]" and what follows it. */
  lemma BracketTextParts(iso: string, sym: string, h: string, c: string, rest: string)
    ensures var s := "[" + iso + sym + h + c + "]" + rest;
            BracketSlices(s, iso, sym, h, c) && s == ("[" + iso + sym + h) + c + ("]" + rest)
  {
    var s := "[" + iso + sym + h + c + "]" + rest;
    var i0 := 1 + |iso|; var i1 := i0 + |sym|; var i2 := i1 + |h|; var i3 := i2 + |c|;
    assert s[1..i0] == iso && s[i0..i1] == sym && s[i1..i2] == h && s[i2..i3] == c;
  }

  /** `s` starts with "[", iso, sym, h, c, "]". */
  predicate BracketSlices(s: string, iso: string, sym: string, h: string, c: string)
  {
    var i0 := 1 + |iso|; var i1 := i0 + |sym|; var i2 := i1 + |h|; var i3 := i2 + |c|;
    i3 < |s| && s[0] == '[' && s[1..i0] == iso && s[i0..i1] == sym && s[i1..i2] == h &&
    s[i2..i3] == c && s[i3] == ']'
  }

  /** The isotope digits end where the symbol starts. */
  lemma IsotopeSliceRead(s: string, iso: string, sym: string, aromatic: bool, h: string, c: string)
    requires AllDigits(iso) && WritableSymbol(sym, aromatic) && WritableHydrogens(h)
    requires c == [] || c[0] == '+' || c[0] == '-'
    requires BracketSlices(s, iso, sym, h, c)
    ensures SmilesLoader.DigitRunEnd(s, 1) == 1 + |iso|
  {
    assert s[1 + |iso|] == sym[0];
    DigitRunEndAt(s, 1, iso);
  }

  /** The symbol is read whole. */
  lemma SymbolSliceRead(s: string, iso: string, sym: string, aromatic: bool, h: string, c: string)
    requires AllDigits(iso) && WritableSymbol(sym, aromatic) && WritableHydrogens(h)
    requires c == [] || c[0] == '+' || c[0] == '-'
    requires BracketSlices(s, iso, sym, h, c)
    ensures SmilesLoader.BracketSymbol(s, 1 + |iso|, true) == Ok(SmilesLoader.SymbolRead(sym, aromatic, 1 + |iso| + |sym|))
  {
    var i1 := 1 + |iso| + |sym|;
    var i2 := i1 + |h|;
    assert s[i2] == (if c != [] then c[0] else ']');
    assert s[i1] == (if h != [] then h[0] else s[i2]);
    SymbolReads(s, 1 + |iso|, sym, aromatic);
  }

  /** No stereo marks follow the symbol, and the hydrogen count is skipped whole. */
  lemma HydrogenSliceRead(s: string, iso: string, sym: string, aromatic: bool, h: string, c: string)
    requires AllDigits(iso) && WritableSymbol(sym, aromatic) && WritableHydrogens(h)
    requires c == [] || c[0] == '+' || c[0] == '-'
    requires BracketSlices(s, iso, sym, h, c)
    ensures var i1 := 1 + |iso| + |sym|;
            SmilesLoader.StereoRunEnd(s, i1) == i1 && SmilesLoader.HCountEnd(s, i1) == i1 + |h|
  {
    var i1 := 1 + |iso| + |sym|;
    var i2 := i1 + |h|;
    assert s[i2] == (if c != [] then c[0] else ']');
    assert s[i1] == (if h != [] then h[0] else s[i2]);
    HydrogensRead(s, i1, h);
  }

  /** A bracket atom laid out in `s` is read back, given that its charge
      text `c` is read as `charge`. */
  lemma BracketSlicesReadBack(s: string, iso: string, sym: string, aromatic: bool, h: string, c: string, charge: int)
    requires AllDigits(iso) && WritableSymbol(sym, aromatic) && WritableHydrogens(h)
    requires c == [] || c[0] == '+' || c[0] == '-'
    requires BracketSlices(s, iso, sym, h, c)
    requires var i2 := 1 + |iso| + |sym| + |h|;
             SmilesLoader.ChargeAt(s, i2) == SmilesLoader.ChargeRead(charge, i2 + |c|)
    ensures ReadsAs(SmilesLoader.BracketedAtom(s, 0), sym, aromatic, 1 + |iso| + |sym| + |h| + |c| + 1, DigitsValue(s[1..1 + |iso|]), charge)
  {
    IsotopeSliceRead(s, iso, sym, aromatic, h, c);
    SymbolSliceRead(s, iso, sym, aromatic, h, c);
    HydrogenSliceRead(s, iso, sym, aromatic, h, c);
    var i2 := 1 + |iso| + |sym| + |h|;
    BracketPartsRead(s, 1 + |iso|, 1 + |iso| + |sym|, i2, i2 + |c|, sym, aromatic, charge);
  }

  /** The written isotope digits read back as the isotope, or 0. */
  lemma IsotopeDigitsValue(x: string, isotope: int)
    requires x == IsotopeDigits(isotope)
    ensures DigitsValue(x) == if isotope > 0 then isotope else 0
  {
    if isotope > 0 {
      NatToStringRoundTrip(isotope);
    }
  }

  /** The charge text of a bracket atom laid out in `s` is read back. */
  lemma ChargeSliceRead(s: string, iso: string, sym: string, h: string, charge: int)
    requires BracketSlices(s, iso, sym, h, ChargeText(charge))
    ensures var i2 := 1 + |iso| + |sym| + |h|;
            SmilesLoader.ChargeAt(s, i2) == SmilesLoader.ChargeRead(charge, i2 + |ChargeText(charge)|)
  {
    var c := ChargeText(charge);
    var i2 := 1 + |iso| + |sym| + |h|;
    assert s[i2 + |c|] == ']';
    if charge != 0 {
      ChargeReadsBack(s, i2, charge);
    }
  }

  /** A bracket atom laid out in `s` as "[", the isotope digits, a symbol,
      a hydrogen count, a charge and "]" is read back as the symbol, the
      isotope (0 if none is written) and the charge. */
  lemma BracketLayoutReads(s: string, isotope: int, sym: string, aromatic: bool, h: string, charge: int)
    requires WritableSymbol(sym, aromatic) && WritableHydrogens(h)
    requires BracketSlices(s, IsotopeDigits(isotope), sym, h, ChargeText(charge))
    ensures ReadsAs(SmilesLoader.BracketedAtom(s, 0), sym, aromatic, |IsotopeDigits(isotope)| + |sym| + |h| + |ChargeText(charge)| + 2,
                    if isotope > 0 then isotope else 0, charge)
  {
    var iso := IsotopeDigits(isotope);
    ChargeSliceRead(s, iso, sym, h, charge);
    BracketSlicesReadBack(s, iso, sym, aromatic, h, ChargeText(charge), charge);
    IsotopeDigitsValue(s[1..1 + |iso|], isotope);
  }

  // ---------------------------------------------------------------------
  // Reading a written atom back

  /** The hydrogen count text has the shape the reader skips. */
  lemma HydrogenTextWritable(h: int)
    ensures WritableHydrogens(HydrogenText(h))
  {
    if h > 1 {
      assert HydrogenText(h)[1..] == NatToString(h);
    }
  }

  /** The symbol of an element of the table has the shape the reader
      expects and names the element again; in lower case only C, N, O, S
      and P, which the reader takes as aromatic. */
  lemma SymbolTextReadsBack(number: int, aromatic: bool)
    requires 1 <= number < ElementCount
    ensures var lower := aromatic && CanBeAromaticLowercase(number);
            WritableSymbol(SymbolText(number, aromatic), lower) &&
            SmilesLoader.ElementNumber(SymbolText(number, aromatic), lower) == Ok(number)
  {
    if aromatic && CanBeAromaticLowercase(number) {
      LowerSymbolReadsBack(number);
    } else {
      ElementToStringAgrees(number);
      SymbolShape(number);
      SymbolRoundTrip(number);
    }
  }

  /** C, N, O, S and P in lower case are the reader's aromatic letters. */
  lemma LowerSymbolReadsBack(number: int)
    requires CanBeAromaticLowercase(number)
    ensures WritableSymbol(SymbolText(number, true), true) &&
            SmilesLoader.ElementNumber(SymbolText(number, true), true) == Ok(number)
  {
    var sym := ElementToString(number);
    assert |sym| == 1;
  }

  /** The only two-letter symbols of the organic subset are Cl and Br. */
  lemma OrganicSecondLetters(number: int, aromatic: bool)
    requires IsOrganicSubset(number)
    ensures var t := SymbolText(number, aromatic); |t| == 2 ==> !SmilesLoader.AromaticLetter(t[1])
  {
    if number == ElemCl || number == ElemBr {
      assert !(aromatic && CanBeAromaticLowercase(number));
    }
  }

  /** A written symbol is read back by the reader's atom scan when no
      lower-case letter that is not an aromatic atom follows it. */
  lemma BareSymbolReads(t: string, lower: bool, rest: string)
    requires WritableSymbol(t, lower) && (|t| == 2 ==> !SmilesLoader.AromaticLetter(t[1]))
    requires rest == [] || !SmilesLoader.RuneIsLower(rest[0]) || SmilesLoader.AromaticLetter(rest[0])
    ensures ReadsAs(SmilesLoader.ElementToken(t + rest, 0), t, lower, |t|, 0, 0)
  {
    var s := t + rest;
    assert s[0] == t[0];
    assert |t| == 2 ==> s[1] == t[1] && s[0..2] == t;
    assert |t| == 1 ==> s[0..1] == t && (|s| > 1 ==> s[1] == rest[0]);
  }

  /** The text of an atom that is written in brackets. */
  /** The text of an atom written in brackets, piece by piece. */
  lemma BracketedText(o: SaverOptions, atoms: seq<Atom>, bonds: seq<Bond>, vertices: seq<seq<int>>,
                      aromaticity: seq<int>, idx: int)
    requires |vertices| == |atoms| && 0 <= idx < |atoms|
    requires atoms[idx].number != ElemPseudo && atoms[idx].number != ElemTemplate
    requires NeedsBrackets(o, atoms[idx], IsAromaticAtom(aromaticity, idx))
    ensures var a := atoms[idx];
            var h := if ShouldWriteHCount(a) then HydrogenText(HydrogenCount(o, atoms, bonds, vertices, idx)) else "";
            AtomText(o, atoms, bonds, vertices, aromaticity, idx) ==
            "[" + IsotopeDigits(WrittenIsotope(o, a)) + SymbolText(a.number, IsAromaticAtom(aromaticity, idx)) + h +
            ChargeText(WrittenCharge(o, a)) + "]"
  {
  }

  lemma BracketAtomText(o: SaverOptions, atoms: seq<Atom>, bonds: seq<Bond>, vertices: seq<seq<int>>,
                        aromaticity: seq<int>, idx: int)
    requires |vertices| == |atoms| && 0 <= idx < |atoms| && 1 <= atoms[idx].number
    requires NeedsBrackets(o, atoms[idx], IsAromaticAtom(aromaticity, idx))
    ensures var a := atoms[idx];
            var h := if ShouldWriteHCount(a) then HydrogenText(HydrogenCount(o, atoms, bonds, vertices, idx)) else "";
            WritableHydrogens(h) &&
            AtomText(o, atoms, bonds, vertices, aromaticity, idx) ==
            "[" + IsotopeDigits(WrittenIsotope(o, a)) + SymbolText(a.number, IsAromaticAtom(aromaticity, idx)) + h +
            ChargeText(WrittenCharge(o, a)) + "]"
  {
    if ShouldWriteHCount(atoms[idx]) { HydrogenTextWritable(HydrogenCount(o, atoms, bonds, vertices, idx)); }
  }

  /** An atom of the table that is written in brackets is read back by the
      reader's bracket-atom scan: the same element, the written isotope
      and charge, and the whole text consumed. */
  lemma BracketAtomReadsBack(o: SaverOptions, atoms: seq<Atom>, bonds: seq<Bond>, vertices: seq<seq<int>>,
                             aromaticity: seq<int>, idx: int, rest: string)
    requires |vertices| == |atoms| && 0 <= idx < |atoms| && 1 <= atoms[idx].number < ElementCount
    requires NeedsBrackets(o, atoms[idx], IsAromaticAtom(aromaticity, idx))
    ensures var a := atoms[idx];
            var aromatic := IsAromaticAtom(aromaticity, idx);
            var lower := aromatic && CanBeAromaticLowercase(a.number);
            var t := AtomText(o, atoms, bonds, vertices, aromaticity, idx);
            var r := SmilesLoader.BracketedAtom(t + rest, 0);
            ReadsAs(r, SymbolText(a.number, aromatic), lower, |t|,
                    if WrittenIsotope(o, a) > 0 then WrittenIsotope(o, a) else 0, WrittenCharge(o, a)) &&
            SmilesLoader.ElementNumber(r.value.symbol, r.value.aromatic) == Ok(a.number)
  {
    var a := atoms[idx];
    var aromatic := IsAromaticAtom(aromaticity, idx);
    var h := if ShouldWriteHCount(a) then HydrogenText(HydrogenCount(o, atoms, bonds, vertices, idx)) else "";
    BracketAtomText(o, atoms, bonds, vertices, aromaticity, idx);
    SymbolTextReadsBack(a.number, aromatic);
    LaidOutBracketReads(WrittenIsotope(o, a), SymbolText(a.number, aromatic), aromatic && CanBeAromaticLowercase(a.number),
                        h, WrittenCharge(o, a), rest);
  }

  /** The bracket text assembled from its parts is read back. */
  lemma LaidOutBracketReads(isotope: int, sym: string, lower: bool, h: string, charge: int, rest: string)
    requires WritableSymbol(sym, lower) && WritableHydrogens(h)
    ensures var t := "[" + IsotopeDigits(isotope) + sym + h + ChargeText(charge) + "]";
            ReadsAs(SmilesLoader.BracketedAtom(t + rest, 0), sym, lower, |t|, if isotope > 0 then isotope else 0, charge)
  {
    var iso := IsotopeDigits(isotope);
    var c := ChargeText(charge);
    BracketTextParts(iso, sym, h, c, rest);
    BracketLayoutReads("[" + iso + sym + h + c + "]" + rest, isotope, sym, lower, h, charge);
  }

  /** An atom of the organic subset written without brackets is read back
      by the reader's atom scan, whatever follows it except a lower-case
      letter that is not an aromatic atom (no written SMILES continues
      that way). */
  lemma BareAtomReadsBack(o: SaverOptions, atoms: seq<Atom>, bonds: seq<Bond>, vertices: seq<seq<int>>,
                          aromaticity: seq<int>, idx: int, rest: string)
    requires |vertices| == |atoms| && 0 <= idx < |atoms|
    requires !NeedsBrackets(o, atoms[idx], IsAromaticAtom(aromaticity, idx))
    requires rest == [] || !SmilesLoader.RuneIsLower(rest[0]) || SmilesLoader.AromaticLetter(rest[0])
    ensures var a := atoms[idx];
            var aromatic := IsAromaticAtom(aromaticity, idx);
            var t := AtomText(o, atoms, bonds, vertices, aromaticity, idx);
            var r := SmilesLoader.ElementToken(t + rest, 0);
            ReadsAs(r, t, aromatic && CanBeAromaticLowercase(a.number), |t|, 0, 0) &&
            SmilesLoader.ElementNumber(t, r.value.aromatic) == Ok(a.number)
  {
    var a := atoms[idx];
    var aromatic := IsAromaticAtom(aromaticity, idx);
    assert IsOrganicSubset(a.number);
    assert AtomText(o, atoms, bonds, vertices, aromaticity, idx) == SymbolText(a.number, aromatic);
    SymbolTextReadsBack(a.number, aromatic);
    OrganicSecondLetters(a.number, aromatic);
    BareSymbolReads(SymbolText(a.number, aromatic), aromatic && CanBeAromaticLowercase(a.number), rest);
  }

  // ---------------------------------------------------------------------
  // Bonds

  /** `writeBondSymbol`: nothing for a missing bond; '-' for a single bond
      only between two aromatic atoms; '=' and '#' for double and triple
      bonds; ':' for an aromatic bond only when aromatic bonds are to be
      written; nothing otherwise. The far end is the bond's end, or its
      beginning when the walk comes from the end. */
  function BondText(o: SaverOptions, bonds: seq<Bond>, aromaticity: seq<int>, bondIdx: int, from: int): (t: string)
    requires bondIdx < |bonds|
    ensures |t| <= 1
  {
    if bondIdx < 0 then ""
    else
      var b := bonds[bondIdx];
      var to := if b.end == from then b.beg else b.end;
      if b.order == BondSingle then
        if IsAromaticAtom(aromaticity, from) && IsAromaticAtom(aromaticity, to) then "-" else ""
      else if b.order == BondDouble then "="
      else if b.order == BondTriple then "#"
      else if b.order == BondAromatic && o.writeAromaticBonds then ":"
      else ""
  }

  /** The order the reader gives a chain bond written as `t` between an
      atom whose aromatic mark is `lastMarked` and the next one, marked
      `marked`. */
  function ReadBondOrder(t: string, marked: bool, lastMarked: bool): int
  {
    var pending := if t != [] && SmilesLoader.BondChar(t[0]).Some? then SmilesLoader.BondChar(t[0]).value else 0;
    SmilesLoader.ChainBondOrder(pending, marked, lastMarked)
  }

  /** A single, double, triple or aromatic bond between atoms whose
      letters carry their aromaticity is read back with its order: the
      written symbol is one the reader knows, and where nothing is written
      the reader's default (aromatic between two aromatic atoms, single
      otherwise) is the bond's order. An aromatic bond is read back only
      between two aromatic atoms and when ':' is not written. */
  lemma BondTextReadsBack(o: SaverOptions, bonds: seq<Bond>, aromaticity: seq<int>, bondIdx: int, from: int)
    requires 0 <= bondIdx < |bonds| && (bonds[bondIdx].beg == from || bonds[bondIdx].end == from)
    requires BondSingle <= bonds[bondIdx].order <= BondAromatic
    requires var b := bonds[bondIdx];
             var to := if b.end == from then b.beg else b.end;
             b.order == BondAromatic ==> IsAromaticAtom(aromaticity, from) && IsAromaticAtom(aromaticity, to) && !o.writeAromaticBonds
    ensures var b := bonds[bondIdx];
            var to := if b.end == from then b.beg else b.end;
            var t := BondText(o, bonds, aromaticity, bondIdx, from);
            (t != [] ==> SmilesLoader.BondChar(t[0]).Some?) &&
            ReadBondOrder(t, IsAromaticAtom(aromaticity, to), IsAromaticAtom(aromaticity, from)) == b.order
  {
  }

  /** With `WriteAromaticBonds` set, an aromatic bond is written ':', which
      the reader does not take as a bond symbol. */
  lemma AromaticBondColon(o: SaverOptions, bonds: seq<Bond>, aromaticity: seq<int>, bondIdx: int, from: int)
    requires 0 <= bondIdx < |bonds| && bonds[bondIdx].order == BondAromatic && o.writeAromaticBonds
    ensures BondText(o, bonds, aromaticity, bondIdx, from) == ":"
    ensures SmilesLoader.BondChar(':').None?
  {
  }

  // ---------------------------------------------------------------------
  // Branches

  /** Each text in parentheses, one after another. */
  function Parenthesized(texts: seq<string>): string
  {
    if texts == [] then "" else "(" + texts[0] + ")" + Parenthesized(texts[1..])
  }

  /** The tree loop of `dfsWrite` as written: the first child continues
      the chain and every later child goes in parentheses after it. */
  function BranchLayoutAsWritten(texts: seq<string>): string
  {
    if texts == [] then "" else texts[0] + Parenthesized(texts[1..])
  }

  /** The branch layout SMILES needs: every child but the last in
      parentheses, the last one continuing the chain, so that each child is
      bonded to the atom written before the parentheses. */
  function BranchLayout(texts: seq<string>): string
  {
    if texts == [] then ""
    else if |texts| == 1 then texts[0]
    else "(" + texts[0] + ")" + BranchLayout(texts[1..])
  }

  /** The two layouts agree exactly when there is at most one child (no
      child text is empty or starts with a parenthesis). */
  lemma LayoutsAgree(texts: seq<string>)
    requires forall k :: 0 <= k < |texts| ==> texts[k] != [] && texts[k][0] != '('
    ensures BranchLayout(texts) == BranchLayoutAsWritten(texts) <==> |texts| <= 1
  {
    if |texts| == 1 {
      assert texts[..0] == [] && texts[1..] == [];
    } else if |texts| > 1 {
      assert BranchLayout(texts)[0] == '(';
      assert BranchLayoutAsWritten(texts)[0] == texts[0][0];
    }
  }

  /** A carbon written without brackets. */
  const CarbonToken: SmilesLoader.AtomToken := SmilesLoader.AtomToken("C", 0, false, 0, 0)

  /** A 'C' followed by the end, a parenthesis or another 'C' is one
      carbon atom. */
  lemma CarbonStep(s: string, i: nat, st: SmilesLoader.ParseState)
    requires i < |s| && s[i] == 'C' && (i + 1 == |s| || s[i + 1] == '(' || s[i + 1] == ')' || s[i + 1] == 'C')
    ensures SmilesLoader.Step(s, i, st) == Ok(SmilesLoader.Cursor(i + 1, SmilesLoader.AppendAtom(st, CarbonToken.(next := i + 1), ElemC)))
  {
    assert s[i..i + 1] == "C";
    SymbolRoundTrip(ElemC);
    ElementToStringAgrees(ElemC);
    assert ElementSymbol(ElemC) == "C";
  }

  lemma CarbonThen(s: string, i: nat, st: SmilesLoader.ParseState)
    requires i < |s| && s[i] == 'C' && (i + 1 == |s| || s[i + 1] == '(' || s[i + 1] == ')' || s[i + 1] == 'C')
    ensures SmilesLoader.Run(s, i, st) == SmilesLoader.Run(s, i + 1, SmilesLoader.AppendAtom(st, CarbonToken.(next := i + 1), ElemC))
  {
    CarbonStep(s, i, st);
  }

  /** Appending a carbon bonds it by a single bond to the previous atom. */
  lemma AppendCarbon(st: SmilesLoader.ParseState, i: int)
    requires st.pendingOrder == 0
    ensures var st2 := SmilesLoader.AppendAtom(st, CarbonToken.(next := i), ElemC);
            st2.bonds == (if st.lastAtom >= 0 then st.bonds + [Bond(st.lastAtom, |st.atoms|, BondSingle, 0)] else st.bonds) &&
            st2.lastAtom == |st.atoms| && |st2.atoms| == |st.atoms| + 1 && st2.pendingOrder == 0 &&
            st2.branches == st.branches && st2.rings == st.rings
  {
  }

  lemma OpenThen(s: string, i: nat, st: SmilesLoader.ParseState)
    requires i < |s| && s[i] == '(' && st.lastAtom >= 0
    ensures SmilesLoader.Run(s, i, st) == SmilesLoader.Run(s, i + 1, st.(branches := st.branches + [st.lastAtom]))
  {
  }

  lemma CloseThen(s: string, i: nat, st: SmilesLoader.ParseState)
    requires i < |s| && s[i] == ')' && |st.branches| > 0
    ensures SmilesLoader.Run(s, i, st) ==
            SmilesLoader.Run(s, i + 1, st.(lastAtom := st.branches[|st.branches| - 1], branches := st.branches[..|st.branches| - 1]))
  {
  }

  /** Reading "CC(C)C": the fourth carbon is bonded to the second. */
  lemma BranchedChainRun(s: string, st0: SmilesLoader.ParseState)
    requires |s| == 6 && s[0] == 'C' && s[1] == 'C' && s[2] == '(' && s[3] == 'C' && s[4] == ')' && s[5] == 'C'
    requires st0 == SmilesLoader.Start
    ensures SmilesLoader.Run(s, 0, st0).Ok?
    ensures SmilesLoader.Run(s, 0, st0).value.bonds == [Bond(0, 1, BondSingle, 0), Bond(1, 2, BondSingle, 0), Bond(1, 3, BondSingle, 0)]
  {
    CarbonThen(s, 0, st0);
    var st1 := SmilesLoader.AppendAtom(st0, CarbonToken.(next := 1), ElemC);
    AppendCarbon(st0, 1);
    CarbonThen(s, 1, st1);
    var st2 := SmilesLoader.AppendAtom(st1, CarbonToken.(next := 2), ElemC);
    AppendCarbon(st1, 2);
    OpenThen(s, 2, st2);
    var st3 := st2.(branches := st2.branches + [st2.lastAtom]);
    CarbonThen(s, 3, st3);
    var st4 := SmilesLoader.AppendAtom(st3, CarbonToken.(next := 4), ElemC);
    AppendCarbon(st3, 4);
    CloseThen(s, 4, st4);
    var st5 := st4.(lastAtom := st4.branches[|st4.branches| - 1], branches := st4.branches[..|st4.branches| - 1]);
    CarbonThen(s, 5, st5);
    var st6 := SmilesLoader.AppendAtom(st5, CarbonToken.(next := 6), ElemC);
    AppendCarbon(st5, 6);
  }

  /** Reading "CCC(C)": the fourth carbon is bonded to the third. */
  lemma TrailingBranchRun(s: string, st0: SmilesLoader.ParseState)
    requires |s| == 6 && s[0] == 'C' && s[1] == 'C' && s[2] == 'C' && s[3] == '(' && s[4] == 'C' && s[5] == ')'
    requires st0 == SmilesLoader.Start
    ensures SmilesLoader.Run(s, 0, st0).Ok?
    ensures SmilesLoader.Run(s, 0, st0).value.bonds == [Bond(0, 1, BondSingle, 0), Bond(1, 2, BondSingle, 0), Bond(2, 3, BondSingle, 0)]
  {
    CarbonThen(s, 0, st0);
    var st1 := SmilesLoader.AppendAtom(st0, CarbonToken.(next := 1), ElemC);
    AppendCarbon(st0, 1);
    CarbonThen(s, 1, st1);
    var st2 := SmilesLoader.AppendAtom(st1, CarbonToken.(next := 2), ElemC);
    AppendCarbon(st1, 2);
    CarbonThen(s, 2, st2);
    var st3 := SmilesLoader.AppendAtom(st2, CarbonToken.(next := 3), ElemC);
    AppendCarbon(st2, 3);
    OpenThen(s, 3, st3);
    var st4 := st3.(branches := st3.branches + [st3.lastAtom]);
    CarbonThen(s, 4, st4);
    var st5 := SmilesLoader.AppendAtom(st4, CarbonToken.(next := 5), ElemC);
    AppendCarbon(st4, 5);
    CloseThen(s, 5, st5);
  }

  /** Isobutane (carbon 1 bonded to carbons 0, 2 and 3), walked from
      carbon 0: the source's layout writes "CCC(C)", which reads back with
      a bond 2-3 the molecule does not have and without its bond 1-3. */
  lemma BranchOrderAsWritten()
    ensures "C" + "C" + BranchLayoutAsWritten(["C", "C"]) == "CCC(C)"
    ensures SmilesLoader.Run("CCC(C)", 0, SmilesLoader.Start).Ok?
    ensures Bond(2, 3, BondSingle, 0) in SmilesLoader.Run("CCC(C)", 0, SmilesLoader.Start).value.bonds
    ensures Bond(1, 3, BondSingle, 0) !in SmilesLoader.Run("CCC(C)", 0, SmilesLoader.Start).value.bonds
  {
    assert ["C", "C"][1..] == ["C"];
    assert ["C"][..0] == [];
    TrailingBranchRun("CCC(C)", SmilesLoader.Start);
  }

  /** The corrected layout writes isobutane as "CC(C)C", which reads back
      with exactly its bonds 0-1, 1-2 and 1-3. */
  lemma BranchOrderCorrected()
    ensures "C" + "C" + BranchLayout(["C", "C"]) == "CC(C)C"
    ensures SmilesLoader.Run("CC(C)C", 0, SmilesLoader.Start).Ok?
    ensures SmilesLoader.Run("CC(C)C", 0, SmilesLoader.Start).value.bonds ==
            [Bond(0, 1, BondSingle, 0), Bond(1, 2, BondSingle, 0), Bond(1, 3, BondSingle, 0)]
  {
    assert ["C", "C"][..1] == ["C"];
    assert ["C"][..0] == [];
    BranchedChainRun("CC(C)C", SmilesLoader.Start);
  }

  // ---------------------------------------------------------------------
  // The walk

  /** Three appends in a row append their concatenation. */
  lemma Glue(o0: string, o1: string, o2: string, o3: string, a: string, r: string, b: string)
    requires o1 == o0 + a && o2 == o1 + r && o3 == o2 + b
    ensures o3 == o0 + (a + r + b)
  {
  }

  /** Two appends in a row append their concatenation. */
  lemma Glue2(o0: string, o1: string, o2: string, a: string, b: string)
    requires o1 == o0 + a && o2 == o1 + b
    ensures o2 == o0 + (a + b)
  {
  }

  /** The component loop's goal after one more walk: what is left to
      write is the rest of the loop. */
  lemma ComponentGlue(o0: string, o1: string, sep: string, piece: string, rest: string, goal: string)
    requires goal == o0 + (sep + piece + rest) && o1 == o0 + sep + piece
    ensures goal == o1 + rest
  {
  }

  /** Concatenation regroups. */
  lemma Regroup(a: string, b: string, c: string)
    ensures a + (b + c) == (a + b) + c
  {
  }

  /** How many flags are unset: what the walks use up. */
  function CountUnset(flags: seq<bool>): (n: nat)
    ensures n <= |flags|
  {
    if flags == [] then 0 else CountUnset(flags[..|flags| - 1]) + (if flags[|flags| - 1] then 0 else 1)
  }

  /** Setting an unset flag uses one up. */
  lemma {:induction false} CountUnsetSet(flags: seq<bool>, k: int)
    requires 0 <= k < |flags| && !flags[k]
    ensures CountUnset(flags[k := true]) == CountUnset(flags) - 1
  {
    var n := |flags| - 1;
    if k < n {
      assert flags[k := true][..n] == flags[..n][k := true];
      CountUnsetSet(flags[..n], k);
    } else {
      assert flags[k := true][..n] == flags[..n];
    }
  }

  /** Setting more flags never leaves more unset. */
  lemma {:induction false} CountUnsetMonotone(flags: seq<bool>, more: seq<bool>)
    requires |flags| == |more| && forall k :: 0 <= k < |flags| && flags[k] ==> more[k]
    ensures CountUnset(more) <= CountUnset(flags)
  {
    if flags != [] {
      var n := |flags| - 1;
      CountUnsetMonotone(flags[..n], more[..n]);
    }
  }

  /** No index is listed twice. */
  predicate Distinct(xs: seq<int>)
  {
    forall i, j :: 0 <= i < j < |xs| ==> xs[i] != xs[j]
  }

  /** The `k`-th atom of the visiting order. A name of its own keeps the
      facts about the order out of proofs that do not ask for them. */
  function Listed(order: seq<int>, k: int): int
    requires 0 <= k < |order|
  {
    order[k]
  }

  /** Whether atom `k` is flagged, named for the same reason. */
  predicate Flagged(visited: seq<bool>, k: int)
    requires 0 <= k < |visited|
  {
    visited[k]
  }

  /** The flags and the visiting order agree: one flag per atom, and the
      flagged atoms are exactly the ones listed, each once. */
  predicate Walked(n: int, visited: seq<bool>, order: seq<int>)
  {
    |visited| == n &&
    (forall k :: 0 <= k < |order| ==> 0 <= Listed(order, k) < n && visited[Listed(order, k)]) &&
    (forall k {:trigger Flagged(visited, k)} :: 0 <= k < n && Flagged(visited, k) ==> k in order) &&
    (forall i, j :: 0 <= i < j < |order| ==> Listed(order, i) != Listed(order, j))
  }

  /** Once every atom is flagged, every atom is listed, each once. */
  lemma WalkedDone(n: int, visited: seq<bool>, order: seq<int>)
    requires Walked(n, visited, order) && forall k :: 0 <= k < n ==> visited[k]
    ensures (forall k :: 0 <= k < n ==> k in order) && Distinct(order)
  {
    forall k | 0 <= k < n
      ensures k in order
    {
      assert Flagged(visited, k);
    }
    forall i, j | 0 <= i < j < |order|
      ensures order[i] != order[j]
    {
      assert Listed(order, i) != Listed(order, j);
    }
  }

  /** One root atom per piece, and each piece starts with its root's text. */
  predicate Rooted(o: SaverOptions, atoms: seq<Atom>, bonds: seq<Bond>, vertices: seq<seq<int>>, aromaticity: seq<int>,
                   roots: seq<int>, pieces: seq<string>)
  {
    |roots| == |pieces| && |vertices| == |atoms| &&
    forall k :: 0 <= k < |pieces| ==>
      0 <= roots[k] < |atoms| && AtomText(o, atoms, bonds, vertices, aromaticity, roots[k]) <= pieces[k]
  }

  /** A further piece that starts with its root's text keeps the pieces rooted. */
  lemma RootedSnoc(o: SaverOptions, atoms: seq<Atom>, bonds: seq<Bond>, vertices: seq<seq<int>>, aromaticity: seq<int>,
                   roots: seq<int>, pieces: seq<string>, root: int, piece: string)
    requires Rooted(o, atoms, bonds, vertices, aromaticity, roots, pieces) && 0 <= root < |atoms|
    requires forall j :: j == root ==> AtomText(o, atoms, bonds, vertices, aromaticity, j) <= piece
    ensures Rooted(o, atoms, bonds, vertices, aromaticity, roots + [root], pieces + [piece])
  {
    var rs, ps := roots + [root], pieces + [piece];
    forall k | 0 <= k < |ps|
      ensures 0 <= rs[k] < |atoms| && AtomText(o, atoms, bonds, vertices, aromaticity, rs[k]) <= ps[k]
    {
      if k < |pieces| {
        assert rs[k] == roots[k] && ps[k] == pieces[k];
      }
    }
  }

  /** Before the walk no atom is flagged and none is listed. */
  lemma WalkedStart(n: nat, visited: seq<bool>)
    requires |visited| == n && forall k :: 0 <= k < n ==> !visited[k]
    ensures Walked(n, visited, [])
  {
  }

  /** Visiting an unvisited atom keeps the flags and the order in step. */
  lemma WalkedVisit(n: int, visited: seq<bool>, order: seq<int>, a: int)
    requires Walked(n, visited, order) && 0 <= a < n && !visited[a]
    ensures Walked(n, visited[a := true], order + [a])
  {
    var v := visited[a := true];
    var o := order + [a];
    forall k | 0 <= k < |o|
      ensures 0 <= Listed(o, k) < n && v[Listed(o, k)]
    {
      if k < |order| { assert Listed(o, k) == Listed(order, k); }
    }
    forall k | 0 <= k < n && Flagged(v, k)
      ensures k in o
    {
      if k != a { assert Flagged(visited, k); }
    }
    forall i, j | 0 <= i < j < |o|
      ensures Listed(o, i) != Listed(o, j)
    {
      assert Listed(o, i) == o[i] && Listed(o, j) == o[j];
      if j == |order| {
        assert visited[Listed(order, i)];
      } else {
        assert Listed(order, i) != Listed(order, j);
      }
    }
  }


  /** Each child text is its bond symbol followed by its walk. */
  predicate LedByBonds(o: SaverOptions, bonds: seq<Bond>, aromaticity: seq<int>, from: int,
                       treeBonds: seq<int>, texts: seq<string>, bondTexts: seq<string>, bodies: seq<string>)
  {
    |texts| == |bondTexts| == |bodies| == |treeBonds| &&
    forall k :: 0 <= k < |texts| ==>
      texts[k] == bondTexts[k] + bodies[k] && treeBonds[k] < |bonds| &&
      bondTexts[k] == BondText(o, bonds, aromaticity, treeBonds[k], from)
  }

  /** One more child in front keeps the texts led by their bonds. */
  lemma LedByBondsCons(o: SaverOptions, bonds: seq<Bond>, aromaticity: seq<int>, from: int,
                       treeBonds: seq<int>, bond: string, body: string,
                       texts: seq<string>, bondTexts: seq<string>, bodies: seq<string>)
    requires treeBonds != [] && treeBonds[0] < |bonds| && bond == BondText(o, bonds, aromaticity, treeBonds[0], from)
    requires LedByBonds(o, bonds, aromaticity, from, treeBonds[1..], texts, bondTexts, bodies)
    ensures LedByBonds(o, bonds, aromaticity, from, treeBonds, [bond + body] + texts, [bond] + bondTexts, [body] + bodies)
  {
    var t, b, d := [bond + body] + texts, [bond] + bondTexts, [body] + bodies;
    forall k | 0 < k < |t|
      ensures t[k] == b[k] + d[k] && treeBonds[k] < |bonds| && b[k] == BondText(o, bonds, aromaticity, treeBonds[k], from)
    {
      assert t[k] == texts[k - 1] && b[k] == bondTexts[k - 1] && d[k] == bodies[k - 1];
      assert treeBonds[k] == treeBonds[1..][k - 1];
    }
  }

  /** Writing one child (its bond symbol and its walk), in parentheses
      unless no child follows, then the rest, writes the layout of all of
      them. */
  lemma ChildThenRest(o0: string, o1: string, o2: string, bond: string, body: string, rest: seq<string>)
    requires o1 == o0 + (if rest == [] then "" else "(") + bond + body + (if rest == [] then "" else ")")
    requires o2 == o1 + BranchLayout(rest)
    ensures o2 == o0 + BranchLayout([bond + body] + rest)
  {
    assert ([bond + body] + rest)[1..] == rest;
  }

  /** Every ring number handed out is below the next one. */
  predicate NumbersBelow(rings: map<int, int>, next: int)
  {
    1 <= next && forall key :: key in rings ==> 1 <= rings[key] < next
  }

  /** The marked closure bonds are bonds. */
  predicate AreBonds(marked: set<int>, bondCount: int)
  {
    forall b :: b in marked ==> 0 <= b < bondCount
  }

  /** Every ring number handed out is below the next one, no two pairs
      share a number and there are as many pairs as numbers below the next
      one: the numbers in use are exactly 1 up to the next one. */
  predicate Numbered(rings: map<int, int>, next: int)
  {
    NumbersBelow(rings, next) &&
    (forall k1, k2 :: k1 in rings && k2 in rings && k1 != k2 ==> rings[k1] != rings[k2]) &&
    |rings| == next - 1
  }

  /** A fresh flag for each of `n` atoms. */
  function Unflagged(n: nat): (flags: seq<bool>)
    ensures |flags| == n && CountUnset(flags) == n
  {
    if n == 0 then [] else
      assert Unflagged(n - 1) == seq(n, _ => false)[..n - 1];
      seq(n, _ => false)
  }

  // ---------------------------------------------------------------------
  // The pre-pass, as functions

  /** What the pre-pass has done so far: the atoms it has seen and the
      bonds it has marked as ring closures. */
  datatype Marking = Marking(seen: seq<bool>, marked: set<int>)

  /** The pre-pass only adds: flags stay set and marks stay. */
  predicate Grows(m: Marking, m2: Marking)
  {
    |m2.seen| == |m.seen| && (forall k :: 0 <= k < |m.seen| && m.seen[k] ==> m2.seen[k]) && m.marked <= m2.marked
  }

  /** Every bond marked after `m` joins two atoms that `m2` has seen. */
  predicate MarksJoinSeen(bonds: seq<Bond>, m: Marking, m2: Marking)
  {
    forall b :: b in m2.marked && b !in m.marked ==>
      0 <= b < |bonds| && 0 <= bonds[b].beg < |m2.seen| && 0 <= bonds[b].end < |m2.seen| &&
      m2.seen[bonds[b].beg] && m2.seen[bonds[b].end]
  }

  /** The inner walk of `identifyRingClosures` from atom `a`, entered
      through bond `parentBond`: `a` is seen, then its edge list is walked. */
  function MarkFrom(atoms: seq<Atom>, bonds: seq<Bond>, vertices: seq<seq<int>>, m: Marking, a: int, parentBond: int)
    : (r: Marking)
    requires WellFormed(atoms, bonds, vertices) && |m.seen| == |atoms| && 0 <= a < |atoms| && !m.seen[a]
    ensures Grows(m, r) && r.seen[a] && CountUnset(r.seen) < CountUnset(m.seen)
    ensures MarksJoinSeen(bonds, m, r)
    decreases CountUnset(m.seen), 0, 0
  {
    CountUnsetSet(m.seen, a);
    MarkEdgesFrom(atoms, bonds, vertices, m.(seen := m.seen[a := true]), a, parentBond, 0)
  }

  /** The loop of that walk from the `i`-th edge on: a bond other than
      the one the walk came through is marked when its far end is already
      seen, and otherwise the walk goes on from the far end. */
  function MarkEdgesFrom(atoms: seq<Atom>, bonds: seq<Bond>, vertices: seq<seq<int>>, m: Marking, a: int,
                         parentBond: int, i: nat): (r: Marking)
    requires WellFormed(atoms, bonds, vertices) && |m.seen| == |atoms| && 0 <= a < |atoms| && m.seen[a]
    requires i <= |vertices[a]|
    ensures Grows(m, r) && CountUnset(r.seen) <= CountUnset(m.seen)
    ensures MarksJoinSeen(bonds, m, r)
    decreases CountUnset(m.seen), 1, |vertices[a]| - i
  {
    if i == |vertices[a]| then m
    else
      var b := vertices[a][i];
      if b == parentBond then MarkEdgesFrom(atoms, bonds, vertices, m, a, parentBond, i + 1)
      else
        EdgeListExact(atoms, bonds, vertices, a, b);
        var nb := OtherEnd(bonds[b], a);
        if m.seen[nb] then MarkEdgesFrom(atoms, bonds, vertices, m.(marked := m.marked + {b}), a, parentBond, i + 1)
        else MarkEdgesFrom(atoms, bonds, vertices, MarkFrom(atoms, bonds, vertices, m, nb, b), a, parentBond, i + 1)
  }

  /** One pass of that loop, then the rest. */
  lemma MarkEdgesStep(atoms: seq<Atom>, bonds: seq<Bond>, vertices: seq<seq<int>>, m: Marking, a: int,
                      parentBond: int, i: nat)
    requires WellFormed(atoms, bonds, vertices) && |m.seen| == |atoms| && 0 <= a < |atoms| && m.seen[a]
    requires i < |vertices[a]|
    ensures var b := vertices[a][i];
            0 <= b < |bonds| && 0 <= OtherEnd(bonds[b], a) < |atoms| &&
            MarkEdgesFrom(atoms, bonds, vertices, m, a, parentBond, i) ==
              if b == parentBond then MarkEdgesFrom(atoms, bonds, vertices, m, a, parentBond, i + 1)
              else if m.seen[OtherEnd(bonds[b], a)] then
                MarkEdgesFrom(atoms, bonds, vertices, m.(marked := m.marked + {b}), a, parentBond, i + 1)
              else MarkEdgesFrom(atoms, bonds, vertices, MarkFrom(atoms, bonds, vertices, m, OtherEnd(bonds[b], a), b),
                                 a, parentBond, i + 1)
  {
  }

  /** The outer loop of `identifyRingClosures` from atom `i` on: a walk
      from every atom not seen yet. Every atom from `i` on ends up seen. */
  function MarkAll(atoms: seq<Atom>, bonds: seq<Bond>, vertices: seq<seq<int>>, m: Marking, i: nat): (r: Marking)
    requires WellFormed(atoms, bonds, vertices) && |m.seen| == |atoms| && i <= |atoms|
    ensures Grows(m, r) && MarksJoinSeen(bonds, m, r)
    ensures forall k :: i <= k < |atoms| ==> r.seen[k]
    decreases |atoms| - i
  {
    if i == |atoms| then m
    else if m.seen[i] then MarkAll(atoms, bonds, vertices, m, i + 1)
    else MarkAll(atoms, bonds, vertices, MarkFrom(atoms, bonds, vertices, m, i, -1), i + 1)
  }

  /** The ring-closure bonds the pre-pass finds, starting with no atom seen
      and no bond marked. */
  function RingClosureBonds(atoms: seq<Atom>, bonds: seq<Bond>, vertices: seq<seq<int>>): (marked: set<int>)
    requires WellFormed(atoms, bonds, vertices)
    ensures AreBonds(marked, |bonds|)
  {
    MarkAll(atoms, bonds, vertices, Marking(Unflagged(|atoms|), {}), 0).marked
  }

  /** Whatever the pre-pass walk from `a` marks, it marks every bond of
      `a` other than the one it came through whose far end was seen before
      the walk started. */
  lemma {:induction false} MarkFromMarksSeen(atoms: seq<Atom>, bonds: seq<Bond>, vertices: seq<seq<int>>, m: Marking,
                                             a: int, parentBond: int, k: int)
    requires WellFormed(atoms, bonds, vertices) && |m.seen| == |atoms| && 0 <= a < |atoms| && !m.seen[a]
    requires 0 <= k < |vertices[a]| && vertices[a][k] != parentBond
    requires 0 <= vertices[a][k] < |bonds| && m.seen[OtherEnd(bonds[vertices[a][k]], a)]
    ensures vertices[a][k] in MarkFrom(atoms, bonds, vertices, m, a, parentBond).marked
  {
    CountUnsetSet(m.seen, a);
    MarkEdgesMarksSeen(atoms, bonds, vertices, m.(seen := m.seen[a := true]), a, parentBond, 0, k);
  }

  /** The same for the loop from the `i`-th edge on. */
  lemma {:induction false} MarkEdgesMarksSeen(atoms: seq<Atom>, bonds: seq<Bond>, vertices: seq<seq<int>>, m: Marking,
                                              a: int, parentBond: int, i: nat, k: int)
    requires WellFormed(atoms, bonds, vertices) && |m.seen| == |atoms| && 0 <= a < |atoms| && m.seen[a]
    requires i <= k < |vertices[a]| && vertices[a][k] != parentBond
    requires 0 <= vertices[a][k] < |bonds| && m.seen[OtherEnd(bonds[vertices[a][k]], a)]
    ensures vertices[a][k] in MarkEdgesFrom(atoms, bonds, vertices, m, a, parentBond, i).marked
    decreases |vertices[a]| - i
  {
    var b := vertices[a][i];
    if b == parentBond {
      MarkEdgesMarksSeen(atoms, bonds, vertices, m, a, parentBond, i + 1, k);
    } else {
      EdgeListExact(atoms, bonds, vertices, a, b);
      var nb := OtherEnd(bonds[b], a);
      if m.seen[nb] {
        var m1 := m.(marked := m.marked + {b});
        if k > i {
          MarkEdgesMarksSeen(atoms, bonds, vertices, m1, a, parentBond, i + 1, k);
        }
      } else {
        var m1 := MarkFrom(atoms, bonds, vertices, m, nb, b);
        MarkEdgesMarksSeen(atoms, bonds, vertices, m1, a, parentBond, i + 1, k);
      }
    }
  }

  // ---------------------------------------------------------------------
  // The writing walk, as functions

  /** What the writing walk reads: the options, the molecule and the bonds
      the pre-pass marked. */
  datatype WalkInput = WalkInput(o: SaverOptions, atoms: seq<Atom>, bonds: seq<Bond>, vertices: seq<seq<int>>,
                                 aromaticity: seq<int>, marked: set<int>)

  /** What the writing walk updates: the visited flags, the ring numbers
      given to atom pairs and the next ring number. */
  datatype WalkState = WalkState(visited: seq<bool>, rings: map<int, int>, next: int)

  /** A piece of text and the state after writing it. */
  datatype Written = Written(text: string, st: WalkState)

  /** The texts of the tree neighbours and the state after writing them. */
  datatype Branches = Branches(texts: seq<string>, st: WalkState)

  /** The walk can start: a well-formed molecule, one flag per atom and
      the ring numbers below the next one. */
  predicate Ready(g: WalkInput, st: WalkState)
  {
    WellFormed(g.atoms, g.bonds, g.vertices) && |st.visited| == |g.atoms| && NumbersBelow(st.rings, st.next)
  }

  /** From `st` to `st2` the walk clears no flag, takes no ring number
      back and keeps the numbers below the next one. */
  predicate Advances(st: WalkState, st2: WalkState)
  {
    |st2.visited| == |st.visited| && (forall k :: 0 <= k < |st.visited| && st.visited[k] ==> st2.visited[k]) &&
    NumbersBelow(st2.rings, st2.next) && st.next <= st2.next &&
    (forall key :: key in st.rings ==> key in st2.rings && st2.rings[key] == st.rings[key])
  }

  /** The neighbour loop of `dfsWrite` over the first `n` edges of atom
      `a`: the bonds whose far end is not the parent atom and which the
      pre-pass marked (`ring`) or did not mark (`!ring`), in edge order. */
  function EdgesWhere(bonds: seq<Bond>, edges: seq<int>, marked: set<int>, a: int, parent: int, n: nat, ring: bool)
    : (r: seq<int>)
    requires n <= |edges| && forall k :: 0 <= k < |edges| ==> 0 <= edges[k] < |bonds|
    ensures forall k :: 0 <= k < |r| ==>
              0 <= r[k] < |bonds| && r[k] in edges && OtherEnd(bonds[r[k]], a) != parent && (r[k] in marked <==> ring)
  {
    if n == 0 then []
    else
      var rest := EdgesWhere(bonds, edges, marked, a, parent, n - 1, ring);
      var b := edges[n - 1];
      if NeighborList(bonds, edges, a)[n - 1] != parent && (b in marked <==> ring) then rest + [b] else rest
  }

  /** One pass of the ring-closure loop of `dfsWrite` for bond `b`: the
      pair gets the number it already has or the next free one, and the
      bond symbol and the number are written. */
  function ClosureStep(g: WalkInput, st: WalkState, a: int, b: int): (r: Written)
    requires NumbersBelow(st.rings, st.next) && 0 <= b < |g.bonds|
    ensures r.st.visited == st.visited && Advances(st, r.st)
    ensures RingKey(a, OtherEnd(g.bonds[b], a)) in r.st.rings
  {
    var key := RingKey(a, OtherEnd(g.bonds[b], a));
    if key in st.rings then
      Written(BondText(g.o, g.bonds, g.aromaticity, b, a) + RingNumberText(st.rings[key]), st)
    else
      Written(BondText(g.o, g.bonds, g.aromaticity, b, a) + RingNumberText(st.next),
              st.(rings := st.rings[key := st.next], next := st.next + 1))
  }

  /** The ring-closure loop of `dfsWrite` from the `i`-th closure on. */
  function ClosuresFrom(g: WalkInput, st: WalkState, a: int, ring: seq<int>, i: nat): (r: Written)
    requires NumbersBelow(st.rings, st.next) && i <= |ring| && forall k :: 0 <= k < |ring| ==> 0 <= ring[k] < |g.bonds|
    ensures r.st.visited == st.visited && Advances(st, r.st)
    ensures forall k :: i <= k < |ring| ==> RingKey(a, OtherEnd(g.bonds[ring[k]], a)) in r.st.rings
    decreases |ring| - i
  {
    if i == |ring| then Written("", st)
    else
      var c := ClosureStep(g, st, a, ring[i]);
      var rest := ClosuresFrom(g, c.st, a, ring, i + 1);
      Written(c.text + rest.text, rest.st)
  }

  /** `dfsWrite` from atom `a`, reached from atom `parent`, with the branch
      layout corrected: nothing for an atom already visited; otherwise the
      atom is flagged and `Expand` writes it. */
  function Walk(g: WalkInput, st: WalkState, a: int, parent: int): (r: Written)
    requires Ready(g, st) && 0 <= a < |g.atoms|
    ensures Advances(st, r.st) && r.st.visited[a]
    ensures st.visited[a] ==> r == Written("", st)
    decreases CountUnset(st.visited), 0, 0
  {
    if st.visited[a] then Written("", st)
    else
      CountUnsetSet(st.visited, a);
      Expand(g, st.(visited := st.visited[a := true]), a, parent)
  }

  /** The body of `dfsWrite` once atom `a` is flagged: its neighbours
      other than the parent atom, split into tree bonds and ring-closure
      bonds, are written by `Emit`. */
  function Expand(g: WalkInput, st: WalkState, a: int, parent: int): (r: Written)
    requires Ready(g, st) && 0 <= a < |g.atoms|
    ensures Advances(st, r.st)
    decreases CountUnset(st.visited), 4, 0
  {
    var edges := g.vertices[a];
    Emit(g, st, a, EdgesWhere(g.bonds, edges, g.marked, a, parent, |edges|, false),
         EdgesWhere(g.bonds, edges, g.marked, a, parent, |edges|, true))
  }

  /** Atom `a`'s text, its ring closures, then its tree neighbours, each
      after its bond symbol and all but the last in parentheses. */
  function Emit(g: WalkInput, st: WalkState, a: int, tree: seq<int>, ring: seq<int>): (r: Written)
    requires Ready(g, st) && 0 <= a < |g.atoms|
    requires forall k :: 0 <= k < |tree| ==> 0 <= tree[k] < |g.bonds|
    requires forall k :: 0 <= k < |ring| ==> 0 <= ring[k] < |g.bonds|
    ensures Advances(st, r.st)
    decreases CountUnset(st.visited), 3, 0
  {
    var c := ClosuresFrom(g, st, a, ring, 0);
    var ch := ChildrenFrom(g, c.st, a, tree, 0);
    Written(AtomText(g.o, g.atoms, g.bonds, g.vertices, g.aromaticity, a) + c.text + BranchLayout(ch.texts), ch.st)
  }

  /** The tree loop of `dfsWrite` from the `i`-th tree bond on: each
      child's text is the bond symbol followed by the walk from the far
      end. */
  function ChildrenFrom(g: WalkInput, st: WalkState, a: int, tree: seq<int>, i: nat): (r: Branches)
    requires Ready(g, st) && 0 <= a < |g.atoms| && i <= |tree| && forall k :: 0 <= k < |tree| ==> 0 <= tree[k] < |g.bonds|
    ensures Advances(st, r.st) && |r.texts| == |tree| - i
    decreases CountUnset(st.visited), 2, |tree| - i
  {
    if i == |tree| then Branches([], st)
    else
      var b := tree[i];
      var w := Walk(g, st, OtherEnd(g.bonds[b], a), a);
      CountUnsetMonotone(st.visited, w.st.visited);
      var rest := ChildrenFrom(g, w.st, a, tree, i + 1);
      Branches([BondText(g.o, g.bonds, g.aromaticity, b, a) + w.text] + rest.texts, rest.st)
  }

  /** The component loop of `SaveSMILES` from atom `i` on: a walk from
      every atom not visited yet, the walks joined by '.'. */
  function ComponentsFrom(g: WalkInput, st: WalkState, i: nat, first: bool): string
    requires Ready(g, st) && i <= |g.atoms|
    decreases |g.atoms| - i
  {
    if i == |g.atoms| then ""
    else if st.visited[i] then ComponentsFrom(g, st, i + 1, first)
    else
      var w := Walk(g, st, i, -1);
      (if first then "" else ".") + w.text + ComponentsFrom(g, w.st, i + 1, false)
  }

  /** What `SaveSMILES` writes for a molecule: "" for no atoms; otherwise
      the component loop over the bonds the pre-pass marked, with no atom
      visited, no ring number given and the next one 1. */
  function SmilesOf(o: SaverOptions, atoms: seq<Atom>, bonds: seq<Bond>, vertices: seq<seq<int>>, aromaticity: seq<int>)
    : string
    requires WellFormed(atoms, bonds, vertices)
  {
    if |atoms| == 0 then ""
    else
      ComponentsFrom(WalkInput(o, atoms, bonds, vertices, aromaticity, RingClosureBonds(atoms, bonds, vertices)),
                     WalkState(Unflagged(|atoms|), map[], 1), 0, true)
  }

  /** One pass of the component loop from an atom not visited yet, then
      the rest. */
  lemma ComponentsUnfold(g: WalkInput, st: WalkState, i: nat, first: bool)
    requires Ready(g, st) && i < |g.atoms| && !st.visited[i]
    ensures var w := Walk(g, st, i, -1);
            ComponentsFrom(g, st, i, first) == (if first then "" else ".") + w.text + ComponentsFrom(g, w.st, i + 1, false)
  {
  }

  /** A child's walk followed by the rest of the tree loop is the tree
      loop from that child on. */
  lemma ChildStep(g: WalkInput, s0: WalkState, s1: WalkState, s2: WalkState, a: int, tree: seq<int>, i: nat,
                  bond: string, body: string, rest: seq<string>)
    requires Ready(g, s0) && Ready(g, s1) && 0 <= a < |g.atoms| && i < |tree|
    requires forall k :: 0 <= k < |tree| ==> 0 <= tree[k] < |g.bonds|
    requires Walk(g, s0, OtherEnd(g.bonds[tree[i]], a), a) == Written(body, s1)
    requires ChildrenFrom(g, s1, a, tree, i + 1) == Branches(rest, s2)
    requires bond == BondText(g.o, g.bonds, g.aromaticity, tree[i], a)
    ensures ChildrenFrom(g, s0, a, tree, i) == Branches([bond + body] + rest, s2)
  {
  }

  /** One pass of the closure loop, then the rest. */
  lemma ClosuresUnfold(g: WalkInput, st: WalkState, a: int, ring: seq<int>, i: nat)
    requires NumbersBelow(st.rings, st.next) && i < |ring| && forall k :: 0 <= k < |ring| ==> 0 <= ring[k] < |g.bonds|
    ensures var c := ClosureStep(g, st, a, ring[i]);
            ClosuresFrom(g, st, a, ring, i).text == c.text + ClosuresFrom(g, c.st, a, ring, i + 1).text &&
            ClosuresFrom(g, st, a, ring, i).st == ClosuresFrom(g, c.st, a, ring, i + 1).st
  {
  }

  /** What `WriteClosure` states about its text and its new numbers is
      one step of the closure loop. */
  lemma ClosureStepOf(g: WalkInput, st: WalkState, a: int, b: int, text: string, st2: WalkState)
    requires NumbersBelow(st.rings, st.next) && 0 <= b < |g.bonds| && st2.visited == st.visited
    requires var key := RingKey(a, OtherEnd(g.bonds[b], a));
             if key in st.rings then
               st2.rings == st.rings && st2.next == st.next &&
               text == BondText(g.o, g.bonds, g.aromaticity, b, a) + RingNumberText(st.rings[key])
             else
               st2.rings == st.rings[key := st.next] && st2.next == st.next + 1 &&
               text == BondText(g.o, g.bonds, g.aromaticity, b, a) + RingNumberText(st.next)
    ensures ClosureStep(g, st, a, b) == Written(text, st2)
  {
  }

  /** A closure keeps the numbering consecutive: a pair without a number
      gets the next one. */
  lemma ClosureStepNumbered(g: WalkInput, st: WalkState, a: int, b: int)
    requires Numbered(st.rings, st.next) && 0 <= b < |g.bonds|
    ensures Numbered(ClosureStep(g, st, a, b).st.rings, ClosureStep(g, st, a, b).st.next)
  {
    var key := RingKey(a, OtherEnd(g.bonds[b], a));
    if key !in st.rings {
      assert |st.rings[key := st.next]| == |st.rings| + 1;
    }
  }

  /** The closure loop keeps the numbering consecutive. */
  lemma {:induction false} ClosuresNumbered(g: WalkInput, st: WalkState, a: int, ring: seq<int>, i: nat)
    requires Numbered(st.rings, st.next) && i <= |ring| && forall k :: 0 <= k < |ring| ==> 0 <= ring[k] < |g.bonds|
    ensures Numbered(ClosuresFrom(g, st, a, ring, i).st.rings, ClosuresFrom(g, st, a, ring, i).st.next)
    decreases |ring| - i
  {
    if i < |ring| {
      ClosureStepNumbered(g, st, a, ring[i]);
      ClosuresNumbered(g, ClosureStep(g, st, a, ring[i]).st, a, ring, i + 1);
    }
  }

  /** The whole walk keeps the ring numbers consecutive from 1: every
      number it hands out is the next one, and no number goes to two
      pairs. */
  lemma {:induction false} WalkNumbered(g: WalkInput, st: WalkState, a: int, parent: int)
    requires Ready(g, st) && 0 <= a < |g.atoms| && Numbered(st.rings, st.next)
    ensures Numbered(Walk(g, st, a, parent).st.rings, Walk(g, st, a, parent).st.next)
    decreases CountUnset(st.visited), 0, 0
  {
    if !st.visited[a] {
      CountUnsetSet(st.visited, a);
      ExpandNumbered(g, st.(visited := st.visited[a := true]), a, parent);
    }
  }

  /** The same for the body of the walk. */
  lemma {:induction false} ExpandNumbered(g: WalkInput, st: WalkState, a: int, parent: int)
    requires Ready(g, st) && 0 <= a < |g.atoms| && Numbered(st.rings, st.next)
    ensures Numbered(Expand(g, st, a, parent).st.rings, Expand(g, st, a, parent).st.next)
    decreases CountUnset(st.visited), 4, 0
  {
    var edges := g.vertices[a];
    var tree := EdgesWhere(g.bonds, edges, g.marked, a, parent, |edges|, false);
    var ring := EdgesWhere(g.bonds, edges, g.marked, a, parent, |edges|, true);
    ClosuresNumbered(g, st, a, ring, 0);
    ChildrenNumbered(g, ClosuresFrom(g, st, a, ring, 0).st, a, tree, 0);
  }

  /** The same for the tree loop. */
  lemma {:induction false} ChildrenNumbered(g: WalkInput, st: WalkState, a: int, tree: seq<int>, i: nat)
    requires Ready(g, st) && 0 <= a < |g.atoms| && i <= |tree| && forall k :: 0 <= k < |tree| ==> 0 <= tree[k] < |g.bonds|
    requires Numbered(st.rings, st.next)
    ensures Numbered(ChildrenFrom(g, st, a, tree, i).st.rings, ChildrenFrom(g, st, a, tree, i).st.next)
    decreases CountUnset(st.visited), 2, |tree| - i
  {
    if i < |tree| {
      var nb := OtherEnd(g.bonds[tree[i]], a);
      WalkNumbered(g, st, nb, a);
      var w := Walk(g, st, nb, a);
      CountUnsetMonotone(st.visited, w.st.visited);
      ChildrenNumbered(g, w.st, a, tree, i + 1);
    }
  }

  /** The state of `SmilesSaver` during `SaveSMILES`: the molecule it
      writes (its atoms, bonds, edge lists and aromaticity), the visited
      flags, the ring numbers given to atom pairs, the next ring number,
      the text written so far and the ring-closure bonds found by the
      pre-pass. `order` lists the atoms in the order they were visited. */
  class SmilesSaver {
    var opts: SaverOptions
    var atoms: seq<Atom>
    var bonds: seq<Bond>
    var vertices: seq<seq<int>>
    var aromaticity: seq<int>
    var visited: seq<bool>
    var ringClosures: map<int, int>
    var nextRingNum: int
    var output: string
    var closureBonds: set<int>
    ghost var order: seq<int>

    /** The molecule is well formed, the flags and the order agree, the
        ring numbers are below the next one and the closure bonds are
        bonds. */
    ghost predicate Valid()
      reads this
    {
      WellFormed(atoms, bonds, vertices) && Walked(|atoms|, visited, order) &&
      NumbersBelow(ringClosures, nextRingNum) && AreBonds(closureBonds, |bonds|)
    }

    /** The molecule and the marked bonds, as the walk reads them. */
    function Input(): WalkInput
      reads this`opts, this`atoms, this`bonds, this`vertices, this`aromaticity, this`closureBonds
    {
      WalkInput(opts, atoms, bonds, vertices, aromaticity, closureBonds)
    }

    /** The flags, the ring numbers and the next number, as the walk
        updates them. */
    function State(): WalkState
      reads this`visited, this`ringClosures, this`nextRingNum
    {
      WalkState(visited, ringClosures, nextRingNum)
    }

    /** `NewSmilesSaver`: no molecule yet, no ring numbers, the next ring
        number 1. */
    constructor (opts: SaverOptions)
      ensures Valid()
      ensures this.opts == opts && atoms == [] && bonds == [] && vertices == [] && aromaticity == []
      ensures visited == [] && ringClosures == map[] && nextRingNum == 1 && output == "" && closureBonds == {}
      ensures order == []
    {
      this.opts := opts;
      atoms, bonds, vertices, aromaticity := [], [], [], [];
      visited, ringClosures, nextRingNum, output, closureBonds := [], map[], 1, "", {};
      order := [];
    }

    /** `writeCharge`, with the doubled sign only for +2 and -2. */
    method WriteCharge(charge: int)
      modifies this`output
      ensures output == old(output) + ChargeText(charge)
    {
      if charge > 0 {
        if charge == 1 {
          output := output + "+";
        } else if charge <= 2 {
          var i := 0;
          while i < charge
            invariant 0 <= i <= charge
            invariant output == old(output) + Repeat("+", i)
          {
            RepeatSnoc("+", i);
            output := output + "+";
            i := i + 1;
          }
        } else {
          output := output + "+" + NatToString(charge);
        }
      } else if charge < 0 {
        if charge == -1 {
          output := output + "-";
        } else if charge >= -2 {
          var i := 0;
          while i < -charge
            invariant 0 <= i <= -charge
            invariant output == old(output) + Repeat("-", i)
          {
            RepeatSnoc("-", i);
            output := output + "-";
            i := i + 1;
          }
        } else {
          output := output + IntToString(charge);
        }
      }
    }

    /** `writeRingNumber`. */
    method WriteRingNumber(num: nat)
      modifies this`output
      ensures output == old(output) + RingNumberText(num)
    {
      if num < 10 {
        output := output + [DigitChar(num)];
      } else {
        output := output + "%" + NatToString(num);
      }
    }

    /** `getRingNumber`: the number given to the pair, in either order, or 0. */
    method GetRingNumber(a1: int, a2: int) returns (num: int)
      ensures RingKey(a1, a2) in ringClosures ==> num == ringClosures[RingKey(a1, a2)]
      ensures RingKey(a1, a2) !in ringClosures ==> num == 0
    {
      var key := RingKey(a1, a2);
      num := if key in ringClosures then ringClosures[key] else 0;
    }

    /** `setRingNumber`: gives the pair, in either order, the number `num`. */
    method SetRingNumber(a1: int, a2: int, num: int)
      modifies this`ringClosures
      ensures ringClosures == old(ringClosures)[RingKey(a1, a2) := num]
    {
      ringClosures := ringClosures[RingKey(a1, a2) := num];
    }

    /** `writeBondSymbol`. */
    method WriteBondSymbol(bondIdx: int, from: int)
      requires bondIdx < |bonds|
      modifies this`output
      ensures output == old(output) + BondText(opts, bonds, aromaticity, bondIdx, from)
    {
      if bondIdx < 0 {
        return;
      }
      var b := bonds[bondIdx];
      var to := b.end;
      if b.end == from {
        to := b.beg;
      }
      var fromAromatic := IsAromaticAtom(aromaticity, from);
      var toAromatic := IsAromaticAtom(aromaticity, to);
      if b.order == BondSingle {
        if fromAromatic && toAromatic {
          output := output + "-";
        }
      } else if b.order == BondDouble {
        output := output + "=";
      } else if b.order == BondTriple {
        output := output + "#";
      } else if b.order == BondAromatic {
        if opts.writeAromaticBonds {
          output := output + ":";
        }
      }
    }

    /** `getHydrogenCount`: counts the hydrogen neighbours in a loop. */
    method GetHydrogenCount(idx: int) returns (h: int)
      requires |vertices| == |atoms| && 0 <= idx < |atoms|
      ensures h == HydrogenCount(opts, atoms, bonds, vertices, idx)
    {
      var a := atoms[idx];
      if a.explicitImplH >= 0 {
        return a.explicitImplH;
      }
      var explicitH := 0;
      if !opts.ignoreHydrogens {
        var ns := NeighborList(bonds, vertices[idx], idx);
        var i := 0;
        while i < |ns|
          invariant 0 <= i <= |ns|
          invariant explicitH == CountHydrogens(atoms, ns[..i])
        {
          var k := ns[i];
          assert ns[..i + 1][..i] == ns[..i];
          if 0 <= k < |atoms| && atoms[k].number == ElemH {
            explicitH := explicitH + 1;
          }
          i := i + 1;
        }
        assert ns[..i] == ns;
      }
      var implicitH := 0;
      if a.number > 0 {
        implicitH := ImplicitHOf(atoms, bonds, vertices, idx);
      }
      h := explicitH + implicitH;
    }

    /** `writeAtom`: appends the atom's text. */
    method WriteAtom(idx: int)
      requires |vertices| == |atoms| && 0 <= idx < |atoms|
      modifies this`output
      ensures output == old(output) + AtomText(opts, atoms, bonds, vertices, aromaticity, idx)
    {
      var a := atoms[idx];
      if a.number == ElemPseudo {
        output := output + "[" + a.pseudoAtomValue + "]";
        return;
      }
      if a.number == ElemTemplate {
        output := output + "[" + a.templateName + "]";
        return;
      }
      var aromatic := IsAromaticAtom(aromaticity, idx);
      var brackets := NeedsBrackets(opts, a, aromatic);
      var symbol := SymbolText(a.number, aromatic);
      if !brackets {
        output := output + symbol;
        return;
      }
      WriteBracketAtom(idx, symbol);
      BracketedText(opts, atoms, bonds, vertices, aromaticity, idx);
    }

    /** The bracketed branch of `writeAtom`: the isotope, the symbol, the
        hydrogen count and the charge, in brackets. */
    method WriteBracketAtom(idx: int, symbol: string)
      requires |vertices| == |atoms| && 0 <= idx < |atoms|
      modifies this`output
      ensures var a := atoms[idx];
              var h := if ShouldWriteHCount(a) then HydrogenText(HydrogenCount(opts, atoms, bonds, vertices, idx)) else "";
              output == old(output) + ("[" + IsotopeDigits(WrittenIsotope(opts, a)) + symbol + h + ChargeText(WrittenCharge(opts, a)) + "]")
    {
      var a := atoms[idx];
      var h := "";
      if ShouldWriteHCount(a) {
        var hCount := GetHydrogenCount(idx);
        h := HydrogenText(hCount);
      }
      var head := "[" + IsotopeDigits(WrittenIsotope(opts, a)) + symbol + h;
      var c := ChargeText(WrittenCharge(opts, a));
      output := output + head;
      if opts.writeCharges && a.charge != 0 {
        WriteCharge(a.charge);
      } else {
        assert c == "";
      }
      assert output == old(output) + head + c;
      output := output + "]";
      assert output == old(output) + (head + c + "]");
    }

    /** The pre-pass's inner walk from `atomIdx`, entered through
        `parentBond`: every bond to an atom already seen, other than the one
        it came through, is a ring closure. */
    method MarkClosures(atomIdx: int, parentBond: int, seen: seq<bool>) returns (seen2: seq<bool>)
      requires WellFormed(atoms, bonds, vertices) && |seen| == |atoms| && 0 <= atomIdx < |atoms| && !seen[atomIdx]
      requires AreBonds(closureBonds, |bonds|)
      modifies this`closureBonds
      ensures |seen2| == |seen| && seen2[atomIdx]
      ensures forall k :: 0 <= k < |seen| && seen[k] ==> seen2[k]
      ensures old(closureBonds) <= closureBonds && AreBonds(closureBonds, |bonds|)
      ensures Marking(seen2, closureBonds) == MarkFrom(atoms, bonds, vertices, Marking(seen, old(closureBonds)), atomIdx, parentBond)
      decreases CountUnset(seen), 0
    {
      ghost var goal := MarkFrom(atoms, bonds, vertices, Marking(seen, closureBonds), atomIdx, parentBond);
      seen2 := seen[atomIdx := true];
      CountUnsetSet(seen, atomIdx);
      assert goal == MarkEdgesFrom(atoms, bonds, vertices, Marking(seen2, closureBonds), atomIdx, parentBond, 0);
      for i := 0 to |vertices[atomIdx]|
        invariant |seen2| == |seen| && seen2[atomIdx]
        invariant CountUnset(seen2) < CountUnset(seen)
        invariant AreBonds(closureBonds, |bonds|)
        invariant MarkEdgesFrom(atoms, bonds, vertices, Marking(seen2, closureBonds), atomIdx, parentBond, i) == goal
      {
        seen2 := MarkEdge(atomIdx, parentBond, i, seen2);
      }
      assert goal == Marking(seen2, closureBonds);
      assert Grows(Marking(seen, old(closureBonds)), goal);
    }

    /** One pass of the loop of that walk: the `i`-th bond of `atomIdx`
        is skipped when it is `parentBond`, marked when its far end is
        already seen, and otherwise the walk goes on from the far end. */
    method MarkEdge(atomIdx: int, parentBond: int, i: int, seen: seq<bool>) returns (seen2: seq<bool>)
      requires WellFormed(atoms, bonds, vertices) && |seen| == |atoms| && 0 <= atomIdx < |atoms| && seen[atomIdx]
      requires 0 <= i < |vertices[atomIdx]| && AreBonds(closureBonds, |bonds|)
      modifies this`closureBonds
      ensures |seen2| == |seen| && seen2[atomIdx] && CountUnset(seen2) <= CountUnset(seen)
      ensures AreBonds(closureBonds, |bonds|)
      ensures MarkEdgesFrom(atoms, bonds, vertices, Marking(seen2, closureBonds), atomIdx, parentBond, i + 1)
           == MarkEdgesFrom(atoms, bonds, vertices, Marking(seen, old(closureBonds)), atomIdx, parentBond, i)
      decreases CountUnset(seen), 1
    {
      MarkEdgesStep(atoms, bonds, vertices, Marking(seen, closureBonds), atomIdx, parentBond, i);
      seen2 := seen;
      var bondIdx := vertices[atomIdx][i];
      if bondIdx != parentBond {
        var nb := NeighborList(bonds, vertices[atomIdx], atomIdx)[i];
        if seen[nb] {
          closureBonds := closureBonds + {bondIdx};
        } else {
          seen2 := MarkClosures(nb, bondIdx, seen);
          CountUnsetMonotone(seen, seen2);
        }
      }
    }

    /** `identifyRingClosures`: the pre-pass walks every component in atom
        order and collects the ring-closure bonds. */
    method IdentifyRingClosures()
      requires WellFormed(atoms, bonds, vertices) && AreBonds(closureBonds, |bonds|)
      modifies this`closureBonds
      ensures old(closureBonds) <= closureBonds && AreBonds(closureBonds, |bonds|)
      ensures closureBonds == MarkAll(atoms, bonds, vertices, Marking(Unflagged(|atoms|), old(closureBonds)), 0).marked
    {
      var seen := Unflagged(|atoms|);
      ghost var goal := MarkAll(atoms, bonds, vertices, Marking(seen, closureBonds), 0);
      for i := 0 to |atoms|
        invariant |seen| == |atoms|
        invariant AreBonds(closureBonds, |bonds|)
        invariant MarkAll(atoms, bonds, vertices, Marking(seen, closureBonds), i) == goal
      {
        if !seen[i] {
          seen := MarkClosures(i, -1, seen);
        }
      }
    }
  
    /** The neighbour loop of `dfsWrite`: the neighbours other than the
        parent atom, split into ring closures (their bond was marked by the
        pre-pass) and tree neighbours, each with its bond, in edge-list
        order. */
    method SplitNeighbors(atomIdx: int, parentIdx: int)
      returns (treeNbs: seq<int>, treeBonds: seq<int>, ringNbs: seq<int>, ringBonds: seq<int>)
      requires WellFormed(atoms, bonds, vertices) && 0 <= atomIdx < |atoms|
      ensures |treeNbs| == |treeBonds| && |ringNbs| == |ringBonds|
      ensures forall k :: 0 <= k < |treeBonds| ==>
                0 <= treeBonds[k] < |bonds| && treeBonds[k] in vertices[atomIdx] && treeBonds[k] !in closureBonds &&
                treeNbs[k] == OtherEnd(bonds[treeBonds[k]], atomIdx) && 0 <= treeNbs[k] < |atoms| && treeNbs[k] != parentIdx
      ensures forall k :: 0 <= k < |ringBonds| ==>
                0 <= ringBonds[k] < |bonds| && ringBonds[k] in vertices[atomIdx] && ringBonds[k] in closureBonds &&
                ringNbs[k] == OtherEnd(bonds[ringBonds[k]], atomIdx) && 0 <= ringNbs[k] < |atoms| && ringNbs[k] != parentIdx
      ensures treeBonds == EdgesWhere(bonds, vertices[atomIdx], closureBonds, atomIdx, parentIdx, |vertices[atomIdx]|, false)
      ensures ringBonds == EdgesWhere(bonds, vertices[atomIdx], closureBonds, atomIdx, parentIdx, |vertices[atomIdx]|, true)
    {
      var edges := vertices[atomIdx];
      var ns := NeighborList(bonds, edges, atomIdx);
      treeNbs, treeBonds, ringNbs, ringBonds := [], [], [], [];
      for i := 0 to |edges|
        invariant |treeNbs| == |treeBonds| && |ringNbs| == |ringBonds|
        invariant treeBonds == EdgesWhere(bonds, edges, closureBonds, atomIdx, parentIdx, i, false)
        invariant ringBonds == EdgesWhere(bonds, edges, closureBonds, atomIdx, parentIdx, i, true)
        invariant forall k :: 0 <= k < |treeBonds| ==> treeNbs[k] == OtherEnd(bonds[treeBonds[k]], atomIdx)
        invariant forall k :: 0 <= k < |ringBonds| ==> ringNbs[k] == OtherEnd(bonds[ringBonds[k]], atomIdx)
      {
        var nb := ns[i];
        var bondIdx := edges[i];
        assert 0 <= bondIdx < |bonds|;
        if nb != parentIdx {
          if bondIdx in closureBonds {
            ringNbs, ringBonds := ringNbs + [nb], ringBonds + [bondIdx];
          } else {
            treeNbs, treeBonds := treeNbs + [nb], treeBonds + [bondIdx];
          }
        }
      }
    }

    /** One pass of the ring-closure loop of `dfsWrite`: the closure to
        `nb` gets the number already given to the pair or the next free
        one, then its bond symbol and its number are written. */
    method WriteClosure(atomIdx: int, nb: int, bondIdx: int) returns (ghost text: string)
      requires NumbersBelow(ringClosures, nextRingNum) && 0 <= bondIdx < |bonds| && nb == OtherEnd(bonds[bondIdx], atomIdx)
      modifies this`output, this`ringClosures, this`nextRingNum
      ensures NumbersBelow(ringClosures, nextRingNum) && old(nextRingNum) <= nextRingNum
      ensures output == old(output) + text
      ensures forall key :: key in old(ringClosures) ==> key in ringClosures && ringClosures[key] == old(ringClosures)[key]
      ensures RingKey(atomIdx, nb) in ringClosures
      ensures RingKey(atomIdx, nb) in old(ringClosures) ==>
                ringClosures == old(ringClosures) && nextRingNum == old(nextRingNum) &&
                text == BondText(opts, bonds, aromaticity, bondIdx, atomIdx) + RingNumberText(old(ringClosures)[RingKey(atomIdx, nb)])
      ensures RingKey(atomIdx, nb) !in old(ringClosures) ==>
                ringClosures == old(ringClosures)[RingKey(atomIdx, nb) := old(nextRingNum)] &&
                nextRingNum == old(nextRingNum) + 1 &&
                text == BondText(opts, bonds, aromaticity, bondIdx, atomIdx) + RingNumberText(old(nextRingNum))
    {
      var ringNum := GetRingNumber(atomIdx, nb);
      if ringNum == 0 {
        assert RingKey(atomIdx, nb) !in ringClosures;
        ringNum := nextRingNum;
        nextRingNum := nextRingNum + 1;
        SetRingNumber(atomIdx, nb, ringNum);
      }
      ghost var o0 := output;
      WriteBondSymbol(bondIdx, atomIdx);
      ghost var o1 := output;
      WriteRingNumber(ringNum);
      text := BondText(opts, bonds, aromaticity, bondIdx, atomIdx) + RingNumberText(ringNum);
      Glue2(o0, o1, output, BondText(opts, bonds, aromaticity, bondIdx, atomIdx), RingNumberText(ringNum));
    }

    /** The ring-closure loop of `dfsWrite`: numbers already given are
        kept, and afterwards every closure's pair has one. */
    method WriteClosures(atomIdx: int, ringNbs: seq<int>, ringBonds: seq<int>) returns (ghost text: string)
      requires NumbersBelow(ringClosures, nextRingNum) && |ringNbs| == |ringBonds|
      requires forall k :: 0 <= k < |ringBonds| ==> 0 <= ringBonds[k] < |bonds| && ringNbs[k] == OtherEnd(bonds[ringBonds[k]], atomIdx)
      modifies this`output, this`ringClosures, this`nextRingNum
      ensures NumbersBelow(ringClosures, nextRingNum) && old(nextRingNum) <= nextRingNum
      ensures output == old(output) + text
      ensures forall key :: key in old(ringClosures) ==> key in ringClosures && ringClosures[key] == old(ringClosures)[key]
      ensures forall k :: 0 <= k < |ringNbs| ==> RingKey(atomIdx, ringNbs[k]) in ringClosures
      ensures Written(text, State()) == ClosuresFrom(Input(), old(State()), atomIdx, ringBonds, 0)
    {
      text := "";
      ghost var goal := ClosuresFrom(Input(), State(), atomIdx, ringBonds, 0);
      for i := 0 to |ringNbs|
        invariant NumbersBelow(ringClosures, nextRingNum)
        invariant output == old(output) + text
        invariant goal.text == text + ClosuresFrom(Input(), State(), atomIdx, ringBonds, i).text
        invariant goal.st == ClosuresFrom(Input(), State(), atomIdx, ringBonds, i).st
      {
        ghost var before, o1 := State(), output;
        ghost var piece := WriteClosure(atomIdx, ringNbs[i], ringBonds[i]);
        ClosureStepOf(Input(), before, atomIdx, ringBonds[i], piece, State());
        ClosuresUnfold(Input(), before, atomIdx, ringBonds, i);
        Glue2(old(output), o1, output, text, piece);
        Regroup(text, piece, ClosuresFrom(Input(), State(), atomIdx, ringBonds, i + 1).text);
        text := text + piece;
      }
    }

    /** Flags atom `atomIdx` as visited and lists it. */
    method Visit(atomIdx: int)
      requires Valid() && 0 <= atomIdx < |atoms| && !visited[atomIdx]
      modifies this`visited, this`order
      ensures Valid()
      ensures visited == old(visited)[atomIdx := true] && order == old(order) + [atomIdx]
      ensures CountUnset(visited) == CountUnset(old(visited)) - 1
    {
      CountUnsetSet(visited, atomIdx);
      WalkedVisit(|atoms|, visited, order, atomIdx);
      visited := visited[atomIdx := true];
      order := order + [atomIdx];
    }

    /** `dfsWrite`, with the branch layout corrected: nothing for an atom
        already visited; otherwise the atom is flagged and listed, its text
        is written, then its ring closures, then its tree neighbours, each
        after its bond symbol and all but the last in parentheses. */
    method DfsWrite(atomIdx: int, parentIdx: int, parentBondIdx: int)
      returns (ghost written: string, ghost ringText: string, ghost childTexts: seq<string>)
      requires Valid() && 0 <= atomIdx < |atoms|
      modifies this`visited, this`output, this`ringClosures, this`nextRingNum, this`order
      ensures Valid() && visited[atomIdx]
      ensures forall k :: 0 <= k < |old(visited)| && old(visited)[k] ==> visited[k]
      ensures old(order) <= order && old(nextRingNum) <= nextRingNum
      ensures output == old(output) + written
      ensures old(visited)[atomIdx] ==>
                visited == old(visited) && order == old(order) && written == "" &&
                ringClosures == old(ringClosures) && nextRingNum == old(nextRingNum)
      ensures !old(visited)[atomIdx] ==>
                |old(order)| < |order| && order[|old(order)|] == atomIdx &&
                forall j :: j == atomIdx ==>
                  written == AtomText(opts, atoms, bonds, vertices, aromaticity, j) + ringText + BranchLayout(childTexts)
      ensures Written(written, State()) == Walk(Input(), old(State()), atomIdx, parentIdx)
      decreases CountUnset(visited), 0, 0
    {
      written, ringText, childTexts := "", "", [];
      if visited[atomIdx] {
        return;
      }
      Visit(atomIdx);
      written, ringText, childTexts := WriteVisited(atomIdx, parentIdx);
    }

    /** The body of `dfsWrite` once the atom is flagged: its neighbours
        other than the parent, split into tree and ring-closure bonds,
        are written by `WriteSplit`. */
    method WriteVisited(atomIdx: int, parentIdx: int)
      returns (ghost written: string, ghost ringText: string, ghost childTexts: seq<string>)
      requires Valid() && 0 <= atomIdx < |atoms|
      modifies this`visited, this`output, this`ringClosures, this`nextRingNum, this`order
      ensures Valid()
      ensures forall k :: 0 <= k < |old(visited)| && old(visited)[k] ==> visited[k]
      ensures old(order) <= order && old(nextRingNum) <= nextRingNum
      ensures output == old(output) + written
      ensures forall j :: j == atomIdx ==>
                written == AtomText(opts, atoms, bonds, vertices, aromaticity, j) + ringText + BranchLayout(childTexts)
      ensures Written(written, State()) == Expand(Input(), old(State()), atomIdx, parentIdx)
      decreases CountUnset(visited), 4, 0
    {
      var treeNbs, treeBonds, ringNbs, ringBonds := SplitNeighbors(atomIdx, parentIdx);
      written, ringText, childTexts := WriteSplit(atomIdx, treeNbs, treeBonds, ringNbs, ringBonds);
    }

    /** The atom's text, its ring closures, then its tree neighbours. */
    method WriteSplit(atomIdx: int, treeNbs: seq<int>, treeBonds: seq<int>, ringNbs: seq<int>, ringBonds: seq<int>)
      returns (ghost written: string, ghost ringText: string, ghost childTexts: seq<string>)
      requires Valid() && 0 <= atomIdx < |atoms|
      requires |treeNbs| == |treeBonds| && |ringNbs| == |ringBonds|
      requires forall k :: 0 <= k < |treeBonds| ==> 0 <= treeBonds[k] < |bonds| && 0 <= treeNbs[k] < |atoms|
      requires forall k :: 0 <= k < |treeBonds| ==> treeNbs[k] == OtherEnd(bonds[treeBonds[k]], atomIdx)
      requires forall k :: 0 <= k < |ringBonds| ==> 0 <= ringBonds[k] < |bonds| && 0 <= ringNbs[k] < |atoms|
      requires forall k :: 0 <= k < |ringBonds| ==> ringNbs[k] == OtherEnd(bonds[ringBonds[k]], atomIdx)
      modifies this`visited, this`output, this`ringClosures, this`nextRingNum, this`order
      ensures Valid()
      ensures forall k :: 0 <= k < |old(visited)| && old(visited)[k] ==> visited[k]
      ensures old(order) <= order && old(nextRingNum) <= nextRingNum
      ensures output == old(output) + written
      ensures forall j :: j == atomIdx ==>
                written == AtomText(opts, atoms, bonds, vertices, aromaticity, j) + ringText + BranchLayout(childTexts)
      ensures Written(written, State()) == Emit(Input(), old(State()), atomIdx, treeBonds, ringBonds)
      decreases CountUnset(visited), 3, 0
    {
      ghost var o0 := output;
      WriteAtom(atomIdx);
      ghost var o1 := output;
      ghost var atomText := AtomText(opts, atoms, bonds, vertices, aromaticity, atomIdx);
      ringText := WriteClosures(atomIdx, ringNbs, ringBonds);
      ghost var o2 := output;
      ghost var bondTexts, bodies;
      childTexts, bondTexts, bodies := WriteChildren(atomIdx, treeNbs, treeBonds, 0);
      written := atomText + ringText + BranchLayout(childTexts);
      Glue(o0, o1, o2, output, atomText, ringText, BranchLayout(childTexts));
    }

    /** One pass of the tree loop of `dfsWrite`: the bond symbol and the
        walk of tree neighbour `nb`, in parentheses unless it is the last. */
    method WriteChild(atomIdx: int, nb: int, bondIdx: int, last: bool) returns (ghost bond: string, ghost body: string)
      requires Valid() && 0 <= atomIdx < |atoms| && 0 <= nb < |atoms| && 0 <= bondIdx < |bonds|
      requires nb == OtherEnd(bonds[bondIdx], atomIdx)
      modifies this`visited, this`output, this`ringClosures, this`nextRingNum, this`order
      ensures Valid()
      ensures forall k :: 0 <= k < |old(visited)| && old(visited)[k] ==> visited[k]
      ensures old(order) <= order && old(nextRingNum) <= nextRingNum
      ensures bond == BondText(opts, bonds, aromaticity, bondIdx, atomIdx)
      ensures output == old(output) + (if last then "" else "(") + bond + body + (if last then "" else ")")
      ensures Written(body, State()) == Walk(Input(), old(State()), nb, atomIdx)
      decreases CountUnset(visited), 1, 0
    {
      ghost var walk := Walk(Input(), State(), nb, atomIdx);
      var open, close := if last then "" else "(", if last then "" else ")";
      output := output + open;
      WriteBondSymbol(bondIdx, atomIdx);
      bond := BondText(opts, bonds, aromaticity, bondIdx, atomIdx);
      ghost var r, c;
      body, r, c := DfsWrite(nb, atomIdx, bondIdx);
      assert Written(body, State()) == walk;
      output := output + close;
    }

    /** The tree loop of `dfsWrite` from the `i`-th tree neighbour on, with
        the branch layout corrected: each neighbour's bond symbol and walk,
        in parentheses unless it is the last. */
    method WriteChildren(atomIdx: int, treeNbs: seq<int>, treeBonds: seq<int>, i: nat)
      returns (ghost texts: seq<string>, ghost bondTexts: seq<string>, ghost bodies: seq<string>)
      requires Valid() && 0 <= atomIdx < |atoms|
      requires |treeNbs| == |treeBonds| && i <= |treeNbs|
      requires forall k :: 0 <= k < |treeBonds| ==> 0 <= treeBonds[k] < |bonds| && 0 <= treeNbs[k] < |atoms|
      requires forall k :: 0 <= k < |treeBonds| ==> treeNbs[k] == OtherEnd(bonds[treeBonds[k]], atomIdx)
      modifies this`visited, this`output, this`ringClosures, this`nextRingNum, this`order
      ensures Valid()
      ensures forall k :: 0 <= k < |old(visited)| && old(visited)[k] ==> visited[k]
      ensures old(order) <= order && old(nextRingNum) <= nextRingNum
      ensures output == old(output) + BranchLayout(texts)
      ensures LedByBonds(opts, bonds, aromaticity, atomIdx, treeBonds[i..], texts, bondTexts, bodies)
      ensures Branches(texts, State()) == ChildrenFrom(Input(), old(State()), atomIdx, treeBonds, i)
      decreases CountUnset(visited), 2, |treeNbs| - i
    {
      if i == |treeNbs| {
        return [], [], [];
      }
      var last := i == |treeNbs| - 1;
      ghost var s0 := State();
      ghost var bond, body := WriteChild(atomIdx, treeNbs[i], treeBonds[i], last);
      ghost var o1 := output;
      CountUnsetMonotone(old(visited), visited);
      ghost var s1 := State();
      ghost var restTexts, restBonds, restBodies := WriteChildren(atomIdx, treeNbs, treeBonds, i + 1);
      ChildStep(Input(), s0, s1, State(), atomIdx, treeBonds, i, bond, body, restTexts);
      assert |restTexts| == |treeNbs| - (i + 1);
      assert treeBonds[i..][1..] == treeBonds[i + 1..];
      LedByBondsCons(opts, bonds, aromaticity, atomIdx, treeBonds[i..], bond, body, restTexts, restBonds, restBodies);
      texts, bondTexts, bodies := [bond + body] + restTexts, [bond] + restBonds, [body] + restBodies;
      ChildThenRest(old(output), o1, output, bond, body, restTexts);
    }

    /** `SaveSMILES`: "" for no molecule or no atoms; otherwise the
        pre-pass, then one walk from every atom not yet visited, in atom
        order, the walks' texts joined by '.'. Every atom is visited
        exactly once, and each piece starts with the text of the atom its
        walk started from, the first one from atom 0. */
    method SaveSMILES(mol: Molecule?) returns (s: string, ghost roots: seq<int>, ghost pieces: seq<string>)
      requires mol != null ==> mol.Valid()
      modifies this
      ensures mol == null || |mol.atoms| == 0 ==> s == ""
      ensures mol != null && |mol.atoms| > 0 ==>
                Valid() && atoms == mol.atoms && bonds == mol.bonds && vertices == mol.vertices &&
                aromaticity == mol.aromaticity && s == output && s == Join(pieces, ".") &&
                (forall k :: 0 <= k < |atoms| ==> k in order) && Distinct(order) &&
                Rooted(opts, atoms, bonds, vertices, aromaticity, roots, pieces) && 0 < |pieces| && roots[0] == 0
      ensures mol != null ==> s == SmilesOf(opts, mol.atoms, mol.bonds, mol.vertices, mol.aromaticity)
    {
      roots, pieces := [], [];
      if mol == null || |mol.atoms| == 0 {
        return "", roots, pieces;
      }
      Load(mol);
      Reset();
      roots, pieces := WriteComponents();
      s := output;
    }

    /** The set-up of `SaveSMILES`: the molecule's atoms, bonds, edge lists
        and aromaticity are taken over and the ring-closure bonds found. */
    method Load(mol: Molecule)
      requires WellFormed(mol.atoms, mol.bonds, mol.vertices)
      modifies this`atoms, this`bonds, this`vertices, this`aromaticity, this`closureBonds
      ensures atoms == mol.atoms && bonds == mol.bonds && vertices == mol.vertices && aromaticity == mol.aromaticity
      ensures AreBonds(closureBonds, |bonds|)
      ensures closureBonds == RingClosureBonds(atoms, bonds, vertices)
    {
      atoms, bonds, vertices, aromaticity := mol.atoms, mol.bonds, mol.vertices, mol.aromaticity;
      closureBonds := {};
      IdentifyRingClosures();
    }

    /** The rest of the set-up: nothing is written or visited and no ring
        number is given. */
    method Reset()
      requires WellFormed(atoms, bonds, vertices) && AreBonds(closureBonds, |bonds|)
      modifies this`visited, this`output, this`ringClosures, this`nextRingNum, this`order
      ensures Valid() && output == "" && order == [] && ringClosures == map[] && nextRingNum == 1
      ensures |visited| == |atoms| && forall k :: 0 <= k < |atoms| ==> !visited[k]
      ensures visited == Unflagged(|atoms|)
    {
      visited := Unflagged(|atoms|);
      output, ringClosures, nextRingNum, order := "", map[], 1, [];
      WalkedStart(|atoms|, visited);
    }

    /** One pass of the component loop of `SaveSMILES`: "." unless this is
        the first component, then the walk from atom `i`. */
    method WriteComponent(i: int, first: bool, ghost roots: seq<int>, ghost pieces: seq<string>)
      returns (ghost piece: string)
      requires Valid() && 0 <= i < |atoms| && !visited[i]
      requires first <==> pieces == []
      requires output == Join(pieces, ".") && Rooted(opts, atoms, bonds, vertices, aromaticity, roots, pieces)
      modifies this`visited, this`output, this`ringClosures, this`nextRingNum, this`order
      ensures Valid() && visited[i]
      ensures forall k :: 0 <= k < |old(visited)| && old(visited)[k] ==> visited[k]
      ensures output == Join(pieces + [piece], ".")
      ensures Rooted(opts, atoms, bonds, vertices, aromaticity, roots + [i], pieces + [piece])
      ensures output == old(output) + (if first then "" else ".") + piece
      ensures Written(piece, State()) == Walk(Input(), old(State()), i, -1)
    {
      if !first {
        output := output + ".";
      }
      ghost var r, c;
      piece, r, c := DfsWrite(i, -1, -1);
      JoinSnoc(pieces, piece, ".");
      RootedSnoc(opts, atoms, bonds, vertices, aromaticity, roots, pieces, i, piece);
    }

    /** One pass of the component loop of `SaveSMILES` at atom `i`: a walk
        from it when it is not visited yet, nothing otherwise. */
    method NextComponent(i: int, first: bool, ghost goal: string, ghost roots: seq<int>, ghost pieces: seq<string>)
      returns (first2: bool, ghost roots2: seq<int>, ghost pieces2: seq<string>)
      requires Valid() && 0 <= i < |atoms|
      requires forall k :: 0 <= k < i ==> visited[k]
      requires i == 0 ==> first && forall k :: 0 <= k < |atoms| ==> !visited[k]
      requires i > 0 ==> 0 < |roots| && roots[0] == 0
      requires first <==> pieces == []
      requires output == Join(pieces, ".") && Rooted(opts, atoms, bonds, vertices, aromaticity, roots, pieces)
      requires goal == output + ComponentsFrom(Input(), State(), i, first)
      modifies this`visited, this`output, this`ringClosures, this`nextRingNum, this`order
      ensures Valid()
      ensures forall k :: 0 <= k <= i ==> visited[k]
      ensures 0 < |roots2| && roots2[0] == 0
      ensures first2 <==> pieces2 == []
      ensures output == Join(pieces2, ".") && Rooted(opts, atoms, bonds, vertices, aromaticity, roots2, pieces2)
      ensures goal == output + ComponentsFrom(Input(), State(), i + 1, first2)
    {
      first2, roots2, pieces2 := first, roots, pieces;
      if !visited[i] {
        ghost var before := State();
        ghost var o0 := output;
        ghost var piece := WriteComponent(i, first, roots, pieces);
        ComponentsUnfold(Input(), before, i, first);
        ghost var w := Walk(Input(), before, i, -1);
        assert w.text == piece && w.st == State();
        ComponentGlue(o0, output, if first then "" else ".", piece, ComponentsFrom(Input(), State(), i + 1, false), goal);
        pieces2, roots2 := pieces + [piece], roots + [i];
        first2 := false;
      }
    }

    /** The component loop of `SaveSMILES`: every atom not yet visited
        starts a walk, and the walks are joined by ".". */
    method WriteComponents() returns (ghost roots: seq<int>, ghost pieces: seq<string>)
      requires Valid() && 0 < |atoms| && output == "" && order == []
      requires forall k :: 0 <= k < |atoms| ==> !visited[k]
      modifies this`visited, this`output, this`ringClosures, this`nextRingNum, this`order
      ensures Valid() && output == Join(pieces, ".")
      ensures (forall k :: 0 <= k < |atoms| ==> k in order) && Distinct(order)
      ensures Rooted(opts, atoms, bonds, vertices, aromaticity, roots, pieces) && 0 < |pieces| && roots[0] == 0
      ensures output == ComponentsFrom(Input(), old(State()), 0, true)
    {
      roots, pieces := [], [];
      var first := true;
      ghost var goal := ComponentsFrom(Input(), State(), 0, true);
      assert goal == output + goal;
      for i := 0 to |atoms|
        invariant Valid()
        invariant forall k :: 0 <= k < i ==> visited[k]
        invariant i == 0 ==> first && forall k :: 0 <= k < |atoms| ==> !visited[k]
        invariant first <==> pieces == []
        invariant output == Join(pieces, ".")
        invariant Rooted(opts, atoms, bonds, vertices, aromaticity, roots, pieces)
        invariant i > 0 ==> 0 < |roots| && roots[0] == 0
        invariant goal == output + ComponentsFrom(Input(), State(), i, first)
      {
        first, roots, pieces := NextComponent(i, first, goal, roots, pieces);
      }
      assert ComponentsFrom(Input(), State(), |atoms|, first) == "";
      WalkedDone(|atoms|, visited, order);
    }
  }
}
