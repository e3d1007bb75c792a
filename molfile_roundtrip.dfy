/** Reading a written molfile back: each line the writer produces (the
    counts line, an atom line, a bond line, a property line) is read by the
    loader as the values it was written from, and a whole saved molecule
    loads back with its counts, chiral flag, elements, bonds and name
    (`SavedMoleculeLoads`). */
module MolfileRoundTrip {
  import opened Wrappers
  import opened Text
  import Elements
  import opened MoleculeGraph
  import opened MolfileLoader
  import opened MolfileSaver
  import opened MolfileLayout

  // ---------------------------------------------------------------------
  // Fixed-width columns

  /** A slice inside the left operand of a concatenation. */
  lemma SliceLeft(x: string, y: string, i: nat, j: nat)
    requires i <= j <= |x|
    ensures (x + y)[i..j] == x[i..j]
  {
  }

  /** A slice of a prefix is the same slice of the whole. */
  lemma SliceOfPrefix(line: string, n: nat, i: nat, j: nat)
    requires i <= j <= n <= |line|
    ensures line[0..n][i..j] == line[i..j]
  {
  }

  /** A slice inside the right operand of a concatenation. */
  lemma SliceRight(x: string, y: string, i: nat, j: nat)
    requires |x| <= i <= j <= |x| + |y|
    ensures (x + y)[i..j] == y[i - |x|..j - |x|]
  {
  }

  /** The pieces of a line written one after another are found again at
      their offsets. */
  lemma Pieces5(p1: string, p2: string, p3: string, p4: string, p5: string)
    ensures var line := p1 + p2 + p3 + p4 + p5;
            var e1 := |p1|; var e2 := e1 + |p2|; var e3 := e2 + |p3|; var e4 := e3 + |p4|;
            |line| == e4 + |p5| && line[0..e1] == p1 && line[e1..e2] == p2 && line[e2..e3] == p3 &&
            line[e3..e4] == p4 && line[e4..] == p5 && line[e2..e4] == p3 + p4
  {
  }

  /** The same for six pieces. */
  lemma Pieces6(p1: string, p2: string, p3: string, p4: string, p5: string, p6: string)
    ensures var line := p1 + p2 + p3 + p4 + p5 + p6;
            var e1 := |p1|; var e2 := e1 + |p2|; var e3 := e2 + |p3|; var e4 := e3 + |p4|; var e5 := e4 + |p5|;
            |line| == e5 + |p6| && line[0..e1] == p1 && line[e2..e3] == p3 && line[e3..e4] == p4 &&
            line[e4..e5] == p5
  {
  }

  /** A right-aligned field is read back from its columns. */
  lemma ColumnPadLeft(line: string, from: nat, t: string, w: nat)
    requires t != [] && NoSpace(t) && |t| <= w
    requires from + w <= |line| && line[from..from + w] == PadLeft(t, w)
    ensures Column(line, from, from + w) == t
  {
    TrimPadLeft(t, w);
  }

  /** A left-aligned field is read back from its columns. */
  lemma ColumnPadRight(line: string, from: nat, t: string, w: nat)
    requires t != [] && !IsSpace(t[0]) && !IsSpace(t[|t| - 1]) && |t| <= w
    requires from + w <= |line| && line[from..from + w] == PadRight(t, w)
    ensures Column(line, from, from + w) == t
  {
    TrimPadRight(t, w);
  }

  /** A small number: one to three characters, no white space, read back
      by `Atoi`. */
  lemma SmallNumber(i: int)
    requires -99 <= i <= 999
    ensures var s := IntToString(i); 1 <= |s| <= 3 && NoSpace(s) && Atoi(s) == Some(i)
    ensures -9 <= i <= 9 ==> |IntToString(i)| <= 2
    ensures 0 <= i <= 9 ==> |IntToString(i)| == 1
  {
    IntToStringWidth(i);
    IntToStringNoSpace(i);
    AtoiIntToString(i);
  }

  // ---------------------------------------------------------------------
  // Counts, atom and bond lines

  /** Three right-aligned fields at columns 1-3, 4-6 and 13-15 of a line
      laid out as the counts line is. */
  lemma CountsLayout(a: string, b: string, mid: string, c: string, tail: string)
    requires 1 <= |a| <= 3 && NoSpace(a) && 1 <= |b| <= 3 && NoSpace(b) && 1 <= |c| <= 3 && NoSpace(c)
    requires |mid| == 6
    ensures var line := PadLeft(a, 3) + PadLeft(b, 3) + mid + PadLeft(c, 3) + tail;
            |line| >= 15 && Column(line, 0, 3) == a && Column(line, 3, 6) == b && Column(line, 12, 15) == c
  {
    var pa, pb, pc := PadLeft(a, 3), PadLeft(b, 3), PadLeft(c, 3);
    assert |pa| == 3 && |pb| == 3 && |pc| == 3;
    var line := pa + pb + mid + pc + tail;
    assert Column(line, 0, 3) == a by {
      Pieces5(pa, pb, mid, pc, tail);
      ColumnPadLeft(line, 0, a, 3);
    }
    assert Column(line, 3, 6) == b by {
      Pieces5(pa, pb, mid, pc, tail);
      ColumnPadLeft(line, 3, b, 3);
    }
    assert Column(line, 12, 15) == c by {
      Pieces5(pa, pb, mid, pc, tail);
      ColumnPadLeft(line, 12, c, 3);
    }
  }

  /** The columns of the counts line hold the two counts and the flag. */
  lemma CountsColumns(numAtoms: int, numBonds: int, chiralFlag: int)
    requires 0 <= numAtoms <= 999 && 0 <= numBonds <= 999
    ensures var line := CountsLine(numAtoms, numBonds, chiralFlag);
            |line| >= 15 && Column(line, 0, 3) == IntToString(numAtoms) &&
            Column(line, 3, 6) == IntToString(numBonds) &&
            Column(line, 12, 15) == IntToString(if chiralFlag > 0 then 1 else 0)
  {
    var chiral := if chiralFlag > 0 then 1 else 0;
    SmallNumber(numAtoms);
    SmallNumber(numBonds);
    SmallNumber(chiral);
    CountsLayout(IntToString(numAtoms), IntToString(numBonds), CountsMiddle, IntToString(chiral), CountsTail);
  }

  /** `parseCountsLine` on a line long enough for the chiral flag, whose
      three fields are numbers. */
  lemma ParseCountsOfColumns(line: string, atoms: int, bonds: int, chiral: int)
    requires |line| >= 15
    requires Atoi(Column(line, 0, 3)) == Some(atoms) && Atoi(Column(line, 3, 6)) == Some(bonds)
    requires Atoi(Column(line, 12, 15)) == Some(chiral)
    ensures ParseCountsLine(line) == Ok(Counts(atoms, bonds, chiral))
  {
  }

  /** The counts line is read back as the counts and the chiral flag the
      writer normalised to 0 or 1. */
  lemma CountsLineReads(numAtoms: int, numBonds: int, chiralFlag: int)
    requires 0 <= numAtoms <= 999 && 0 <= numBonds <= 999
    ensures ParseCountsLine(CountsLine(numAtoms, numBonds, chiralFlag))
            == Ok(Counts(numAtoms, numBonds, if chiralFlag > 0 then 1 else 0))
  {
    var chiral := if chiralFlag > 0 then 1 else 0;
    CountsColumns(numAtoms, numBonds, chiralFlag);
    SmallNumber(numAtoms);
    SmallNumber(numBonds);
    SmallNumber(chiral);
    ParseCountsOfColumns(CountsLine(numAtoms, numBonds, chiralFlag), numAtoms, numBonds, chiral);
  }

  /** Three right-aligned or left-aligned fields at columns 32-34, 35-36 and
      37-39 of a line laid out as an atom line is, after 30 coordinate
      columns and a blank. */
  lemma AtomLayout(coords: string, blank: string, sym: string, m: string, c: string, tail: string)
    requires |coords| == 30 && |blank| == 1
    requires 1 <= |sym| <= 3 && !IsSpace(sym[0]) && !IsSpace(sym[|sym| - 1])
    requires 1 <= |m| <= 2 && NoSpace(m) && 1 <= |c| <= 3 && NoSpace(c)
    ensures var line := coords + blank + PadRight(sym, 3) + PadLeft(m, 2) + PadLeft(c, 3) + tail;
            |line| >= 39 && line[0..30] == coords && Column(line, 31, 34) == sym &&
            Column(line, 34, 36) == m && Column(line, 36, 39) == c
  {
    var ps, pm, pc := PadRight(sym, 3), PadLeft(m, 2), PadLeft(c, 3);
    assert |ps| == 3 && |pm| == 2 && |pc| == 3;
    var line := coords + blank + ps + pm + pc + tail;
    assert line[0..30] == coords by {
      Pieces6(coords, blank, ps, pm, pc, tail);
    }
    assert Column(line, 31, 34) == sym by {
      Pieces6(coords, blank, ps, pm, pc, tail);
      ColumnPadRight(line, 31, sym, 3);
    }
    assert Column(line, 34, 36) == m by {
      Pieces6(coords, blank, ps, pm, pc, tail);
      ColumnPadLeft(line, 34, m, 2);
    }
    assert Column(line, 36, 39) == c by {
      Pieces6(coords, blank, ps, pm, pc, tail);
      ColumnPadLeft(line, 36, c, 3);
    }
  }

  /** `parseAtomLine` on a long enough line whose coordinate fields parse,
      with an element symbol. */
  lemma ParseElementOfColumns(line: string, validFloat: string -> bool, number: int)
    requires |line| >= 34
    requires validFloat(Column(line, 0, 10)) && validFloat(Column(line, 10, 20)) && validFloat(Column(line, 20, 30))
    requires Column(line, 31, 34) != [] && Elements.ElementFromString(Column(line, 31, 34)) == Ok(number)
    ensures ParseAtomLine(line, validFloat) == Ok(ElementFields(number, MassField(line, number), ChargeField(line)))
  {
  }

  /** The mass field of a line whose columns 35-36 hold the number `d`. */
  lemma MassFieldOf(line: string, number: int, d: int)
    requires |line| >= 36 && Atoi(Column(line, 34, 36)) == Some(d)
    ensures MassField(line, number) == if d != 0 then Some(StandardMass(number) + d) else None
  {
  }

  /** The charge field of a line whose columns 37-39 hold the number `code`. */
  lemma ChargeFieldOf(line: string, code: int)
    requires |line| >= 39 && Atoi(Column(line, 36, 39)) == Some(code)
    ensures ChargeField(line) == if ConvertChargeCode(code) != 0 then Some(ConvertChargeCode(code)) else None
  {
  }

  /** `parseAtomLine` on a long enough line whose coordinate fields parse,
      with a symbol that names no element. */
  lemma ParsePseudoOfColumns(line: string, validFloat: string -> bool)
    requires |line| >= 34
    requires validFloat(Column(line, 0, 10)) && validFloat(Column(line, 10, 20)) && validFloat(Column(line, 20, 30))
    requires Column(line, 31, 34) != [] && Elements.ElementFromString(Column(line, 31, 34)).Err?
    ensures ParseAtomLine(line, validFloat) == Ok(PseudoFields(Column(line, 31, 34)))
  {
  }

  /** Coordinate columns the reader accepts: thirty characters, three
      ten-column fields that parse as numbers. Go's `%10.4f` gives exactly
      ten characters for every coordinate below 10^5 in magnitude. */
  predicate CoordsFit(coords: string, validFloat: string -> bool)
  {
    |coords| == 30 && validFloat(TrimSpace(coords[0..10])) && validFloat(TrimSpace(coords[10..20])) &&
    validFloat(TrimSpace(coords[20..30]))
  }

  /** A symbol column the reader gets back unchanged: one to three
      characters with no white space at either end. */
  predicate LabelFits(s: string)
  {
    1 <= |s| <= 3 && !IsSpace(s[0]) && !IsSpace(s[|s| - 1])
  }

  /** An atom the writer can write so that the reader knows it again: an
      element, or a pseudo atom whose label fits and names no element. */
  predicate Savable(a: Atom)
  {
    (1 <= a.number < Elements.ElementCount) ||
    (a.number == Elements.ElemPseudo && LabelFits(AtomSymbol(a)) && Elements.ElementFromString(AtomSymbol(a)).Err?)
  }

  /** The fields the reader finds on a written atom line: the element with
      the clamped mass difference and a charge of -3..3, or the pseudo atom
      with its label. */
  function LineFields(a: Atom): AtomFields
  {
    if a.number == Elements.ElemPseudo then PseudoFields(AtomSymbol(a))
    else ElementFields(a.number, LineIsotope(a), LineCharge(a))
  }

  /** The isotope the mass-difference column of a written atom line gives. */
  function LineIsotope(a: Atom): Option<int>
  {
    if MassDiff(a) != 0 then Some(StandardMass(a.number) + MassDiff(a)) else None
  }

  /** The charge the charge column of a written atom line gives. */
  function LineCharge(a: Atom): Option<int>
  {
    if -3 <= a.charge <= 3 && a.charge != 0 then Some(a.charge) else None
  }

  /** The columns of a written atom line. */
  lemma AtomColumns(coords: string, a: Atom, validFloat: string -> bool)
    requires CoordsFit(coords, validFloat) && Savable(a)
    ensures var line := AtomLine(coords, a);
            |line| >= 39 && validFloat(Column(line, 0, 10)) && validFloat(Column(line, 10, 20)) &&
            validFloat(Column(line, 20, 30)) && Column(line, 31, 34) == AtomSymbol(a) &&
            Column(line, 34, 36) == IntToString(MassDiff(a)) && Column(line, 36, 39) == IntToString(ChargeToCode(a.charge))
  {
    SymbolFits(a);
    SmallNumber(MassDiff(a));
    SmallNumber(ChargeToCode(a.charge));
    var line := AtomLine(coords, a);
    AtomLayout(coords, " ", AtomSymbol(a), IntToString(MassDiff(a)), IntToString(ChargeToCode(a.charge)), AtomTail);
    SliceOfPrefix(line, 30, 0, 10);
    SliceOfPrefix(line, 30, 10, 20);
    SliceOfPrefix(line, 30, 20, 30);
  }

  /** The symbol column of a savable atom fits. */
  lemma SymbolFits(a: Atom)
    requires Savable(a)
    ensures LabelFits(AtomSymbol(a))
  {
    if a.number != Elements.ElemPseudo {
      Elements.SymbolShape(a.number);
    }
  }

  /** A written atom line is read back as `LineFields`. */
  lemma AtomLineReads(coords: string, a: Atom, validFloat: string -> bool)
    requires CoordsFit(coords, validFloat) && Savable(a)
    ensures ParseAtomLine(AtomLine(coords, a), validFloat) == Ok(LineFields(a))
  {
    AtomColumns(coords, a, validFloat);
    AtomOfColumns(AtomLine(coords, a), a, validFloat);
  }

  /** Any line with the columns of a written atom line reads as `LineFields`. */
  lemma AtomOfColumns(line: string, a: Atom, validFloat: string -> bool)
    requires Savable(a)
    requires |line| >= 39 && validFloat(Column(line, 0, 10)) && validFloat(Column(line, 10, 20)) &&
             validFloat(Column(line, 20, 30)) && Column(line, 31, 34) == AtomSymbol(a) &&
             Column(line, 34, 36) == IntToString(MassDiff(a)) && Column(line, 36, 39) == IntToString(ChargeToCode(a.charge))
    ensures ParseAtomLine(line, validFloat) == Ok(LineFields(a))
  {
    SymbolFits(a);
    if a.number == Elements.ElemPseudo {
      ParsePseudoOfColumns(line, validFloat);
    } else {
      Elements.SymbolRoundTrip(a.number);
      SmallNumber(MassDiff(a));
      SmallNumber(ChargeToCode(a.charge));
      ParseElementOfColumns(line, validFloat, a.number);
      MassRead(line, a);
      ChargeRead(line, a);
    }
  }

  /** The mass field of a line on which the writer put a mass difference. */
  lemma MassRead(line: string, a: Atom)
    requires |line| >= 36 && Atoi(Column(line, 34, 36)) == Some(MassDiff(a))
    ensures MassField(line, a.number) == LineIsotope(a)
  {
    MassFieldOf(line, a.number, MassDiff(a));
  }

  /** The charge field of a line on which the writer put a charge code. */
  lemma ChargeRead(line: string, a: Atom)
    requires |line| >= 39 && Atoi(Column(line, 36, 39)) == Some(ChargeToCode(a.charge))
    ensures ChargeField(line) == LineCharge(a)
  {
    ChargeFieldOf(line, ChargeToCode(a.charge));
    ChargeCodeInverse(a.charge, 0);
  }

  /** Four right-aligned three-column fields at the head of a line laid
      out as a bond line is. */
  lemma BondLayout(a: string, b: string, c: string, d: string, tail: string)
    requires 1 <= |a| <= 3 && NoSpace(a) && 1 <= |b| <= 3 && NoSpace(b)
    requires 1 <= |c| <= 3 && NoSpace(c) && 1 <= |d| <= 3 && NoSpace(d)
    ensures var line := PadLeft(a, 3) + PadLeft(b, 3) + PadLeft(c, 3) + PadLeft(d, 3) + tail;
            |line| >= 12 && Column(line, 0, 3) == a && Column(line, 3, 6) == b &&
            Column(line, 6, 9) == c && Column(line, 9, 12) == d
  {
    var pa, pb, pc, pd := PadLeft(a, 3), PadLeft(b, 3), PadLeft(c, 3), PadLeft(d, 3);
    assert |pa| == 3 && |pb| == 3 && |pc| == 3 && |pd| == 3;
    var line := pa + pb + pc + pd + tail;
    assert Column(line, 0, 3) == a by {
      Pieces5(pa, pb, pc, pd, tail);
      ColumnPadLeft(line, 0, a, 3);
    }
    assert Column(line, 3, 6) == b by {
      Pieces5(pa, pb, pc, pd, tail);
      ColumnPadLeft(line, 3, b, 3);
    }
    assert Column(line, 6, 9) == c by {
      Pieces5(pa, pb, pc, pd, tail);
      ColumnPadLeft(line, 6, c, 3);
    }
    assert Column(line, 9, 12) == d by {
      Pieces5(pa, pb, pc, pd, tail);
      ColumnPadLeft(line, 9, d, 3);
    }
  }

  /** The order the reader gives a written bond: its own order when the
      writer has a code for it, single otherwise. */
  function WrittenOrder(order: int): int
  {
    if BondSingle <= order <= BondAromatic then order else BondSingle
  }

  /** The stereo field the reader finds on a written bond line: the
      direction when it is up, down or either, none otherwise. */
  function WrittenDirection(direction: int): Option<int>
  {
    if direction == BondUp || direction == BondDown || direction == BondEither then Some(direction) else None
  }

  /** `parseBondLine` on a line whose first three columns are numbers
      naming loaded atoms. */
  lemma ParseBondOfColumns(line: string, atomCount: int, beg: int, end: int, code: int)
    requires |line| >= 9 && 0 <= beg < atomCount && 0 <= end < atomCount
    requires Atoi(Column(line, 0, 3)) == Some(beg + 1) && Atoi(Column(line, 3, 6)) == Some(end + 1)
    requires Atoi(Column(line, 6, 9)) == Some(code)
    ensures ParseBondLine(line, atomCount) == Ok(BondFields(beg, end, ConvertBondType(code), StereoField(line)))
  {
  }

  /** The stereo field of a line on which the writer put a direction. */
  lemma StereoRead(line: string, direction: int)
    requires |line| >= 12 && Atoi(Column(line, 9, 12)) == Some(DirectionToStereo(direction))
    ensures StereoField(line) == WrittenDirection(direction)
  {
    StereoInverse(direction, 0);
  }

  /** A written bond line is read back with the same atoms, the order the
      writer had a code for, and the direction it had a code for. */
  lemma BondLineReads(b: Bond, atomCount: int)
    requires 0 <= b.beg < atomCount && 0 <= b.end < atomCount && atomCount <= 999
    ensures ParseBondLine(BondLine(b), atomCount) ==
            Ok(BondFields(b.beg, b.end, WrittenOrder(b.order), WrittenDirection(b.direction)))
  {
    BondTypeInverse(b.order, 0);
    StereoInverse(b.direction, 0);
    BondColumnsRead(BondLine(b), b.beg + 1, b.end + 1, BondTypeToMol(b.order), DirectionToStereo(b.direction));
    BondOfColumns(BondLine(b), b, atomCount);
  }

  /** The four numeric columns at the head of a line laid out as a bond
      line is read back as the numbers written there. */
  lemma BondColumnsRead(line: string, w: int, x: int, y: int, z: int)
    requires 0 <= w <= 999 && 0 <= x <= 999 && 0 <= y <= 999 && 0 <= z <= 999
    requires line == BondColumns(IntToString(w), IntToString(x), IntToString(y), IntToString(z))
    ensures |line| >= 12 && Atoi(Column(line, 0, 3)) == Some(w) && Atoi(Column(line, 3, 6)) == Some(x) &&
            Atoi(Column(line, 6, 9)) == Some(y) && Atoi(Column(line, 9, 12)) == Some(z)
  {
    SmallNumber(w);
    SmallNumber(x);
    SmallNumber(y);
    SmallNumber(z);
    BondLayout(IntToString(w), IntToString(x), IntToString(y), IntToString(z), BondTail);
  }

  /** Any line with the columns of a written bond line reads as that bond. */
  lemma BondOfColumns(line: string, b: Bond, atomCount: int)
    requires 0 <= b.beg < atomCount && 0 <= b.end < atomCount
    requires |line| >= 12 && Atoi(Column(line, 0, 3)) == Some(b.beg + 1) && Atoi(Column(line, 3, 6)) == Some(b.end + 1)
    requires Atoi(Column(line, 6, 9)) == Some(BondTypeToMol(b.order))
    requires Atoi(Column(line, 9, 12)) == Some(DirectionToStereo(b.direction))
    ensures ParseBondLine(line, atomCount) ==
            Ok(BondFields(b.beg, b.end, WrittenOrder(b.order), WrittenDirection(b.direction)))
  {
    ParseBondOfColumns(line, atomCount, b.beg, b.end, BondTypeToMol(b.order));
    StereoRead(line, b.direction);
    OrderRead(b.order);
  }

  /** The order code the writer puts down reads back as `WrittenOrder`. */
  lemma OrderRead(order: int)
    ensures ConvertBondType(BondTypeToMol(order)) == WrittenOrder(order)
  {
    BondTypeInverse(order, 0);
  }

  // ---------------------------------------------------------------------
  // Property lines

  /** A right-aligned field is its padding followed by the text. */
  lemma PadLeftSpaces(t: string, w: nat)
    ensures PadLeft(t, w) == Spaces(if |t| < w then w - |t| else 0) + t
  {
    if |t| >= w {
      assert Spaces(0) == [];
    }
  }

  /** The fields of written entries: each atom number, then its value. */
  function EntryFields(es: seq<(int, int)>): (fs: seq<string>)
    ensures |fs| == 2 * |es|
  {
    if es == [] then [] else [IntToString(es[0].0), IntToString(es[0].1)] + EntryFields(es[1..])
  }

  /** The field at an even position is an atom number, the next one its
      value. */
  lemma {:induction false} EntryFieldsAt(es: seq<(int, int)>, k: nat)
    requires k < |es|
    ensures EntryFields(es)[2 * k] == IntToString(es[k].0) && EntryFields(es)[2 * k + 1] == IntToString(es[k].1)
  {
    var fs := EntryFields(es);
    var head := [IntToString(es[0].0), IntToString(es[0].1)];
    assert fs == head + EntryFields(es[1..]);
    if k > 0 {
      EntryFieldsAt(es[1..], k - 1);
      assert es[1..][k - 1] == es[k];
      assert fs[2 * k] == EntryFields(es[1..])[2 * (k - 1)];
      assert fs[2 * k + 1] == EntryFields(es[1..])[2 * (k - 1) + 1];
    }
  }

  /** Written entries start with a blank. */
  lemma EntriesTextStart(es: seq<(int, int)>)
    ensures EntriesText(es) == [] || IsSpace(EntriesText(es)[0])
  {
    if es != [] {
      assert EntriesText(es)[0] == EntryText(es[0])[0];
    }
  }

  /** The blanks before a right-aligned three-column field. */
  function PadWidth(t: string): nat
  {
    if |t| < 3 then 3 - |t| else 0
  }

  /** A blank and a right-aligned three-column field are blanks and the text. */
  lemma BlankPad(t: string)
    ensures " " + PadLeft(t, 3) == Spaces(1 + PadWidth(t)) + t
  {
    PadLeftSpaces(t, 3);
    SpacesCons(1 + PadWidth(t));
  }

  lemma Assoc4(a: string, b: string, c: string, d: string)
    ensures a + b + c + d == (a + b) + (c + d)
  {
  }

  /** One written entry is two blank-separated numbers. */
  lemma EntryTextParts(e: (int, int))
    ensures EntryText(e) == Spaces(1 + PadWidth(IntToString(e.0))) + IntToString(e.0) +
                            (Spaces(1 + PadWidth(IntToString(e.1))) + IntToString(e.1))
  {
    var s1, s2 := IntToString(e.0), IntToString(e.1);
    Assoc4(" ", PadLeft(s1, 3), " ", PadLeft(s2, 3));
    BlankPad(s1);
    BlankPad(s2);
  }

  /** `strings.Fields` splits written entries back into their numbers. */
  lemma {:induction false} FieldsOfEntries(es: seq<(int, int)>)
    ensures Fields(EntriesText(es)) == EntryFields(es)
  {
    if es == [] {
      assert TrimLeft("") == "";
    } else {
      FieldsOfFirstEntry(es);
      FieldsOfEntries(es[1..]);
    }
  }

  /** Two blank-led words and the rest split into the two words and the
      fields of the rest. */
  lemma FieldsPair(k1: nat, s1: string, k2: nat, s2: string, rest: string)
    requires s1 != [] && NoSpace(s1) && s2 != [] && NoSpace(s2) && (rest == [] || IsSpace(rest[0]))
    ensures Fields(Spaces(1 + k1) + s1 + (Spaces(1 + k2) + s2 + rest)) == [s1, s2] + Fields(rest)
  {
    var tail := Spaces(1 + k2) + s2 + rest;
    assert tail[0] == ' ';
    FieldsCons(1 + k1, s1, tail);
    FieldsCons(1 + k2, s2, rest);
  }

  /** The first written entry gives the first two fields. */
  lemma FieldsOfFirstEntry(es: seq<(int, int)>)
    requires es != []
    ensures Fields(EntriesText(es)) == [IntToString(es[0].0), IntToString(es[0].1)] + Fields(EntriesText(es[1..]))
  {
    var e, rest := es[0], EntriesText(es[1..]);
    var s1, s2 := IntToString(e.0), IntToString(e.1);
    var b1, b2 := Spaces(1 + PadWidth(s1)), Spaces(1 + PadWidth(s2));
    assert EntriesText(es) == b1 + s1 + (b2 + s2 + rest) by {
      EntryTextParts(e);
      assert EntriesText(es) == EntryText(e) + rest;
      Assoc4(b1, s1, b2 + s2, rest);
    }
    IntToStringNoSpace(e.0);
    IntToStringNoSpace(e.1);
    EntriesTextStart(es[1..]);
    FieldsPair(PadWidth(s1), s1, PadWidth(s2), s2, rest);
  }

  /** The options of a sequence that are all present give their values. */
  lemma {:induction false} SomesAllPresent(ops: seq<Option<(int, int)>>, es: seq<(int, int)>)
    requires |ops| == |es| && forall k :: 0 <= k < |es| ==> ops[k] == Some(es[k])
    ensures Somes(ops) == es
    decreases |ops|
  {
    if ops != [] {
      var n := |ops| - 1;
      SomesAllPresent(ops[..n], es[..n]);
      assert es == es[..n] + [es[n]];
    }
  }

  /** A number the reader's `Atoi` accepts: within the 64-bit range. */
  predicate FitsInt64(v: int) { Int64Min <= v <= Int64Max }

  /** Entries whose numbers all fit in 64 bits. */
  predicate EntriesFit(es: seq<(int, int)>)
  {
    forall k :: 0 <= k < |es| ==> FitsInt64(es[k].0) && FitsInt64(es[k].1)
  }

  /** Fields that start with the entry count and hold, pair by pair, the
      entries read back as the entries. */
  lemma EntriesOfCountedParts(parts: seq<string>, es: seq<(int, int)>)
    requires 1 <= |es| && |parts| == 1 + 2 * |es| && Atoi(parts[0]) == Some(|es|)
    requires forall k :: 0 <= k < |es| ==> PairAt(parts, k) == Some(es[k])
    ensures EntriesOfFields(parts) == es
  {
    var n := |es|;
    assert Min(n, (|parts| - 1) / 2) == n;
    SomesAllPresent(PairOps(parts, n), es);
  }

  /** A count followed by the fields of that many entries reads back as
      the entries. */
  lemma EntriesOfCountedFields(es: seq<(int, int)>)
    requires 1 <= |es| <= 8 && EntriesFit(es)
    ensures EntriesOfFields([IntToString(|es|)] + EntryFields(es)) == es
  {
    var parts := [IntToString(|es|)] + EntryFields(es);
    AtoiIntToString(|es|);
    forall k | 0 <= k < |es|
      ensures PairAt(parts, k) == Some(es[k])
    {
      PairOfFields(es, k);
    }
    EntriesOfCountedParts(parts, es);
  }

  /** The `k`-th pair after the count is the `k`-th entry. */
  lemma PairOfFields(es: seq<(int, int)>, k: nat)
    requires k < |es| && EntriesFit(es)
    ensures PairAt([IntToString(|es|)] + EntryFields(es), k) == Some(es[k])
  {
    var fs := EntryFields(es);
    EntryFieldsAt(es, k);
    AtoiIntToString(es[k].0);
    AtoiIntToString(es[k].1);
    PairAtOf([IntToString(|es|)] + fs, k, es[k].0, es[k].1);
  }

  /** A pair whose two fields are numbers. */
  lemma PairAtOf(parts: seq<string>, k: nat, a: int, b: int)
    requires k * 2 + 2 < |parts| && |parts| >= 1
    requires Atoi(parts[1..][2 * k]) == Some(a) && Atoi(parts[1..][2 * k + 1]) == Some(b)
    ensures PairAt(parts, k) == Some((a, b))
  {
    assert parts[k * 2 + 1] == parts[1..][2 * k];
    assert parts[k * 2 + 2] == parts[1..][2 * k + 1];
  }

  /** The head of a property line is six characters: "M  " and the tag. */
  lemma HeadWidth(kind: PropertyKind)
    ensures |"M  " + Tag(kind)| == 6
  {
  }

  /** After a six-character head and a one-digit count in three columns,
      the fields start at the eighth character with a blank. */
  lemma AfterHead(head: string, cs: string, et: string)
    requires |head| == 6 && |cs| == 1
    ensures var line := head + (PadLeft(cs, 3) + et); |line| >= 9 && line[7..] == Spaces(1) + cs + et
  {
    PadLeftSpaces(cs, 3);
    SpacesCons(2);
    var line := head + (PadLeft(cs, 3) + et);
    assert line == (head + [' ']) + (Spaces(1) + cs + et);
  }

  /** A property line written for one to eight entries reads back as those
      entries. */
  lemma ChunkLineEntries(kind: PropertyKind, chunk: seq<(int, int)>)
    requires 1 <= |chunk| <= 8 && EntriesFit(chunk)
    ensures PropertyEntries(ChunkLine(kind, chunk)) == chunk
  {
    var cs := IntToString(|chunk|);
    SmallNumber(|chunk|);
    HeadWidth(kind);
    AfterHead("M  " + Tag(kind), cs, EntriesText(chunk));
    var line := ChunkLine(kind, chunk);
    assert line[7..] == Spaces(1) + cs + EntriesText(chunk);
    EntriesTextStart(chunk);
    FieldsCons(1, cs, EntriesText(chunk));
    FieldsOfEntries(chunk);
    EntriesOfCountedFields(chunk);
  }

  /** The last character of a concatenation with a non-empty right part. */
  lemma LastOfConcat(x: string, y: string)
    requires y != []
    ensures (x + y)[|x + y| - 1] == y[|y| - 1]
  {
  }

  /** The last character of a concatenation comes from its second part,
      or from the first when the second is empty. */
  lemma EndOfConcat(x: string, y: string)
    requires x != [] && !IsSpace(x[|x| - 1])
    requires y != [] ==> !IsSpace(y[|y| - 1])
    ensures var t := x + y; t != [] && !IsSpace(t[|t| - 1])
  {
    if y == [] {
      assert x + y == x;
    } else {
      LastOfConcat(x, y);
    }
  }

  /** A written entry ends with the last character of its value. */
  lemma EntryTextEnd(e: (int, int))
    ensures var t := EntryText(e); t != [] && !IsSpace(t[|t| - 1])
  {
    var s2 := IntToString(e.1);
    var p := PadLeft(s2, 3);
    IntToStringNoSpace(e.1);
    assert p[|p| - 1] == s2[|s2| - 1] by {
      assert p[|p| - |s2|..] == s2;
    }
    LastOfConcat(" " + PadLeft(IntToString(e.0), 3) + " ", p);
  }

  /** Written entries end with a digit of the last value. */
  lemma {:induction false} EntriesTextEnd(es: seq<(int, int)>)
    requires es != []
    ensures var t := EntriesText(es); t != [] && !IsSpace(t[|t| - 1])
  {
    var first, rest := EntryText(es[0]), EntriesText(es[1..]);
    assert EntriesText(es) == first + rest;
    assert first != [] && !IsSpace(first[|first| - 1]) by {
      EntryTextEnd(es[0]);
    }
    assert rest != [] ==> !IsSpace(rest[|rest| - 1]) by {
      if es[1..] != [] {
        EntriesTextEnd(es[1..]);
      }
    }
    EndOfConcat(first, rest);
  }

  /** A string with no white space at either end is its own trimmed form. */
  lemma TrimSpaceKeeps(s: string)
    requires s != [] && !IsSpace(s[0]) && !IsSpace(s[|s| - 1])
    ensures TrimSpace(s) == s
  {
    assert TrimLeft(s) == s;
  }

  /** A line the reader keeps as written: no white space at either end,
      hence no line-end characters to strip either. */
  predicate Plain(s: string)
  {
    s != [] && !IsSpace(s[0]) && !IsSpace(s[|s| - 1])
  }

  /** A plain line is read back unchanged. */
  lemma PlainReads(s: string)
    requires Plain(s)
    ensures StripEol(s) == s && TrimSpace(s) == s
  {
    TrimSpaceKeeps(s);
  }

  /** The head selects the kind, and is not the end marker. */
  lemma ChunkKind(kind: PropertyKind, rest: string)
    ensures PropertyKindOf("M  " + Tag(kind) + rest) == Some(kind)
    ensures !HasPrefix("M  " + Tag(kind) + rest, "M  END")
  {
    var head := "M  " + Tag(kind);
    var line := head + rest;
    assert |head| == 6 && line[..6] == head;
    assert line[3] == Tag(kind)[0];
    match kind
    case ChargeProperty =>
      assert HasPrefix(line, "M  CHG");
    case IsotopeProperty =>
      assert line[3] == 'I' && !HasPrefix(line, "M  CHG");
      assert HasPrefix(line, "M  ISO");
    case RadicalProperty =>
      assert line[3] == 'R' && !HasPrefix(line, "M  CHG") && !HasPrefix(line, "M  ISO");
      assert HasPrefix(line, "M  RAD");
  }

  /** Two pieces, the first starting and the second ending with a
      character other than white space, make a plain line. */
  lemma PlainConcat(x: string, y: string)
    requires x != [] && !IsSpace(x[0]) && y != [] && !IsSpace(y[|y| - 1])
    ensures Plain(x + y)
  {
    LastOfConcat(x, y);
  }

  /** A property line is of its kind and not the end marker. */
  lemma ChunkLineKind(kind: PropertyKind, chunk: seq<(int, int)>)
    ensures PropertyKindOf(ChunkLine(kind, chunk)) == Some(kind)
    ensures !HasPrefix(ChunkLine(kind, chunk), "M  END")
  {
    ChunkKind(kind, PadLeft(IntToString(|chunk|), 3) + EntriesText(chunk));
  }

  /** A property line is plain: trimming leaves it as it is. */
  lemma ChunkLinePlain(kind: PropertyKind, chunk: seq<(int, int)>)
    requires chunk != []
    ensures Plain(ChunkLine(kind, chunk))
  {
    var head, rest := "M  " + Tag(kind), PadLeft(IntToString(|chunk|), 3) + EntriesText(chunk);
    assert ChunkLine(kind, chunk) == head + rest;
    assert rest != [] && !IsSpace(rest[|rest| - 1]) by {
      EntriesTextEnd(chunk);
      LastOfConcat(PadLeft(IntToString(|chunk|), 3), EntriesText(chunk));
    }
    assert head[0] == 'M';
    PlainConcat(head, rest);
  }

  // ---------------------------------------------------------------------
  // A whole saved molecule

  /** A line whose last character is a digit loses nothing to the
      line-end stripping. */
  lemma DigitEndKept(x: string, tail: string)
    requires tail != [] && '0' <= tail[|tail| - 1] <= '9'
    ensures StripEol(x + tail) == x + tail
  {
    LastOfConcat(x, tail);
  }

  /** Atom lines that all parse give the atoms of their fields, in order. */
  lemma {:induction false} CollectAtomsOk(rs: seq<Result<AtomFields>>)
    requires forall k :: 0 <= k < |rs| ==> rs[k].Ok?
    ensures CollectAtoms(rs).Ok?
    ensures forall k :: 0 <= k < |rs| ==> CollectAtoms(rs).value[k] == LoadedAtom(rs[k].value)
  {
    if rs != [] {
      CollectAtomsOk(rs[..|rs| - 1]);
    }
  }

  /** Bond lines that all parse give the bonds of their fields, in order. */
  lemma {:induction false} CollectBondsOk(rs: seq<Result<BondFields>>)
    requires forall k :: 0 <= k < |rs| ==> rs[k].Ok?
    ensures CollectBonds(rs).Ok?
    ensures forall k :: 0 <= k < |rs| ==> CollectBonds(rs).value[k] == LoadedBond(rs[k].value)
  {
    if rs != [] {
      CollectBondsOk(rs[..|rs| - 1]);
    }
  }

  /** Property entries set charges, isotopes and radicals, never elements. */
  lemma {:induction false} EntriesKeepElements(atoms: seq<Atom>, kind: PropertyKind, es: seq<(int, int)>)
    ensures forall j :: 0 <= j < |atoms| ==> ApplyEntries(atoms, kind, es)[j].number == atoms[j].number
  {
    if es != [] {
      EntriesKeepElements(atoms, kind, es[..|es| - 1]);
    }
  }

  /** The properties block leaves every atom's element as it was. */
  lemma {:induction false} BlockKeepsElements(atoms: seq<Atom>, ts: seq<string>, pos: nat)
    ensures forall j :: 0 <= j < |atoms| ==> BlockFrom(atoms, ts, pos)[j].number == atoms[j].number
    decreases |ts| - pos
  {
    if pos < |ts| && !HasPrefix(ts[pos], "M  END") {
      var kind := PropertyKindOf(ts[pos]);
      if kind.Some? {
        EntriesKeepElements(atoms, kind.value, PropertyEntries(ts[pos]));
      }
      BlockKeepsElements(ApplyPropertyLine(atoms, ts[pos]), ts, pos + 1);
    }
  }

  /** The bond the loader builds from a written bond line. */
  function ReloadedBond(b: Bond): Bond
  {
    LoadedBond(BondFields(b.beg, b.end, WrittenOrder(b.order), WrittenDirection(b.direction)))
  }

  /** A bond with a molfile order and no stereo mark, or an up, down or
      either mark, comes back as it was. */
  predicate Reloadable(b: Bond)
  {
    BondSingle <= b.order <= BondAromatic &&
    (b.direction == 0 || b.direction == BondUp || b.direction == BondDown || b.direction == BondEither)
  }

  /** A counts line loses nothing to the line-end stripping. */
  lemma CountsLineKept(numAtoms: int, numBonds: int, chiralFlag: int)
    ensures StripEol(CountsLine(numAtoms, numBonds, chiralFlag)) == CountsLine(numAtoms, numBonds, chiralFlag)
  {
    var chiral := if chiralFlag > 0 then 1 else 0;
    DigitEndKept(PadLeft(IntToString(numAtoms), 3) + PadLeft(IntToString(numBonds), 3) + CountsMiddle +
                 PadLeft(IntToString(chiral), 3), CountsTail);
  }

  /** A written atom line loses nothing to the line-end stripping. */
  lemma AtomLineKept(coords: string, a: Atom)
    ensures StripEol(AtomLine(coords, a)) == AtomLine(coords, a)
  {
    var front := coords + " " + PadRight(AtomSymbol(a), 3) + PadLeft(IntToString(MassDiff(a)), 2) +
      PadLeft(IntToString(ChargeToCode(a.charge)), 3);
    DigitEndKept(front, AtomTail);
  }

  /** The atom built from a written atom line's fields is of the written
      atom's element. */
  lemma LineFieldsElement(a: Atom)
    ensures LoadedAtom(LineFields(a)).number == a.number
  {
  }

  /** One written atom line, as read, gives its atom's fields. */
  lemma SavedAtomReads(line: string, coords: string, a: Atom, validFloat: string -> bool)
    requires line == AtomLine(coords, a) && CoordsFit(coords, validFloat) && Savable(a)
    ensures ParseAtomLine(StripEol(line), validFloat) == Ok(LineFields(a))
    ensures LoadedAtom(LineFields(a)).number == a.number
  {
    AtomLineKept(coords, a);
    AtomLineReads(coords, a, validFloat);
    LineFieldsElement(a);
  }

  /** A written bond line loses nothing to the line-end stripping. */
  lemma BondLineKept(b: Bond)
    ensures StripEol(BondLine(b)) == BondLine(b)
  {
    var first, second := IntToString(b.beg + 1), IntToString(b.end + 1);
    var kind, stereo := IntToString(BondTypeToMol(b.order)), IntToString(DirectionToStereo(b.direction));
    DigitEndKept(PadLeft(first, 3) + PadLeft(second, 3) + PadLeft(kind, 3) + PadLeft(stereo, 3), BondTail);
  }

  /** One written bond line, as read, gives its bond's fields. */
  lemma SavedBondReads(line: string, b: Bond, atomCount: int)
    requires line == BondLine(b) && 0 <= b.beg < atomCount && 0 <= b.end < atomCount && atomCount <= 999
    ensures ParseBondLine(StripEol(line), atomCount) ==
      Ok(BondFields(b.beg, b.end, WrittenOrder(b.order), WrittenDirection(b.direction)))
  {
    BondLineKept(b);
    BondLineReads(b, atomCount);
  }

  /** The counts line of laid-out lines reads back as the atom and bond
      counts and the chiral flag. */
  lemma CountsOfLayout(ls: seq<string>, name: string, chiralFlag: int, atoms: seq<Atom>, bonds: seq<Bond>,
                       coords: int -> string)
    requires LaidOut(ls, name, chiralFlag, atoms, bonds, coords) && |atoms| <= 999 && |bonds| <= 999
    ensures ParseCountsLine(ReadLine(ls, 3)) == Ok(Counts(|atoms|, |bonds|, if chiralFlag > 0 then 1 else 0))
  {
    CountsLineKept(|atoms|, |bonds|, chiralFlag);
    CountsLineReads(|atoms|, |bonds|, chiralFlag);
  }

  /** The atom block of laid-out lines parses to atoms of the same
      elements. */
  lemma AtomsOfLayout(ls: seq<string>, name: string, chiralFlag: int, atoms: seq<Atom>, bonds: seq<Bond>,
                      coords: int -> string, validFloat: string -> bool)
    requires LaidOut(ls, name, chiralFlag, atoms, bonds, coords)
    requires forall i :: 0 <= i < |atoms| ==> CoordsFit(coords(i), validFloat) && Savable(atoms[i])
    ensures var r := ParseAtoms(ls, 4, |atoms|, validFloat);
      r.Ok? && forall i :: 0 <= i < |atoms| ==> r.value[i].number == atoms[i].number
  {
    var rs := AtomLines(ls, 4, |atoms|, validFloat);
    forall i | 0 <= i < |atoms|
      ensures rs[i] == Ok(LineFields(atoms[i])) && LoadedAtom(LineFields(atoms[i])).number == atoms[i].number
    {
      SavedAtomReads(ls[4 + i], coords(i), atoms[i], validFloat);
    }
    CollectAtomsOk(rs);
  }

  /** The bond block of laid-out lines parses to the reloaded bonds. */
  lemma BondsOfLayout(ls: seq<string>, name: string, chiralFlag: int, atoms: seq<Atom>, bonds: seq<Bond>,
                      coords: int -> string)
    requires LaidOut(ls, name, chiralFlag, atoms, bonds, coords) && |atoms| <= 999
    requires forall k :: 0 <= k < |bonds| ==> 0 <= bonds[k].beg < |atoms| && 0 <= bonds[k].end < |atoms|
    ensures var r := ParseBonds(ls, 4 + |atoms|, |bonds|, |atoms|);
      r.Ok? && forall k :: 0 <= k < |bonds| ==> r.value[k] == ReloadedBond(bonds[k])
  {
    var rs := BondLines(ls, 4 + |atoms|, |bonds|, |atoms|);
    forall k | 0 <= k < |bonds|
      ensures rs[k].Ok? && LoadedBond(rs[k].value) == ReloadedBond(bonds[k])
    {
      SavedBondReads(ls[4 + |atoms| + k], bonds[k], |atoms|);
    }
    CollectBondsOk(rs);
  }

  /** Lines whose counts line parses load as the blocks after it. */
  lemma LoadOfCounts(ls: seq<string>, counts: Counts, validFloat: string -> bool)
    requires ParseCountsLine(ReadLine(ls, 3)) == Ok(counts)
    ensures LoadSpec(ls, validFloat) == LoadBlocks(ls, counts, validFloat)
  {
  }

  /** Blocks whose atom block parses load as the bonds after it. */
  lemma LoadOfAtoms(ls: seq<string>, counts: Counts, validFloat: string -> bool)
    requires counts.atoms >= 0 && ParseAtoms(ls, 4, counts.atoms, validFloat).Ok?
    ensures LoadBlocks(ls, counts, validFloat) == LoadBonds(ls, counts, ParseAtoms(ls, 4, counts.atoms, validFloat).value)
  {
  }

  /** Atoms followed by a bond block that parses load as the finished
      molecule. */
  lemma LoadOfBonds(ls: seq<string>, counts: Counts, atoms: seq<Atom>)
    requires counts.atoms >= 0 && counts.bonds >= 0 && |atoms| == counts.atoms
    requires ParseBonds(ls, 4 + counts.atoms, counts.bonds, counts.atoms).Ok?
    ensures LoadBonds(ls, counts, atoms) ==
      Ok(Finish(ls, counts, atoms, ParseBonds(ls, 4 + counts.atoms, counts.bonds, counts.atoms).value))
  {
  }

  /** Finishing a load leaves every atom's element as parsed. */
  lemma FinishKeepsElements(ls: seq<string>, counts: Counts, atoms: seq<Atom>, bonds: seq<Bond>)
    ensures forall j :: 0 <= j < |atoms| ==> Finish(ls, counts, atoms, bonds).atoms[j].number == atoms[j].number
  {
    BlockKeepsElements(atoms, TrimmedLines(ls), 4 + Max0(counts.atoms) + Max0(counts.bonds));
  }

  /** A bond the molfile can carry is reloaded as it was. */
  lemma ReloadableKept(b: Bond)
    requires Reloadable(b)
    ensures ReloadedBond(b) == b
  {
  }

  /** Laid-out lines load back: the atom and bond counts, the chiral
      flag, every atom's element and every bond come back, each bond with
      its order and stereo mark when the molfile can carry them, and so
      does a name with no white space at either end. */
  lemma LoadOfLayout(ls: seq<string>, name: string, chiralFlag: int, atoms: seq<Atom>, bonds: seq<Bond>,
                     coords: int -> string, validFloat: string -> bool)
    requires LaidOut(ls, name, chiralFlag, atoms, bonds, coords) && |atoms| <= 999 && |bonds| <= 999
    requires forall i :: 0 <= i < |atoms| ==> CoordsFit(coords(i), validFloat) && Savable(atoms[i])
    requires forall k :: 0 <= k < |bonds| ==> 0 <= bonds[k].beg < |atoms| && 0 <= bonds[k].end < |atoms|
    ensures var r := LoadSpec(ls, validFloat);
      r.Ok? && |r.value.atoms| == |atoms| && |r.value.bonds| == |bonds| &&
      r.value.chiral == (if chiralFlag > 0 then 1 else 0) &&
      (forall i :: 0 <= i < |atoms| ==> r.value.atoms[i].number == atoms[i].number) &&
      (forall k :: 0 <= k < |bonds| ==> r.value.bonds[k] == ReloadedBond(bonds[k])) &&
      (forall k :: 0 <= k < |bonds| && Reloadable(bonds[k]) ==> r.value.bonds[k] == bonds[k]) &&
      (Plain(name) ==> r.value.name == name)
  {
    var counts := Counts(|atoms|, |bonds|, if chiralFlag > 0 then 1 else 0);
    CountsOfLayout(ls, name, chiralFlag, atoms, bonds, coords);
    AtomsOfLayout(ls, name, chiralFlag, atoms, bonds, coords, validFloat);
    BondsOfLayout(ls, name, chiralFlag, atoms, bonds, coords);
    var parsed := ParseAtoms(ls, 4, |atoms|, validFloat).value;
    var pbonds := ParseBonds(ls, 4 + |atoms|, |bonds|, |atoms|).value;
    LoadOfCounts(ls, counts, validFloat);
    LoadOfAtoms(ls, counts, validFloat);
    LoadOfBonds(ls, counts, parsed);
    FinishKeepsElements(ls, counts, parsed, pbonds);
    forall k | 0 <= k < |bonds| && Reloadable(bonds[k])
      ensures ReloadedBond(bonds[k]) == bonds[k]
    {
      ReloadableKept(bonds[k]);
    }
    if Plain(name) {
      PlainReads(name);
    }
  }

  /** A whole saved molecule loads back as `LoadOfLayout` states. */
  lemma SavedMoleculeLoads(name: string, stamp: string, chiralFlag: int, atoms: seq<Atom>, bonds: seq<Bond>,
                           coords: int -> string, validFloat: string -> bool)
    requires |atoms| <= 999 && |bonds| <= 999
    requires forall i :: 0 <= i < |atoms| ==> CoordsFit(coords(i), validFloat) && Savable(atoms[i])
    requires forall k :: 0 <= k < |bonds| ==> 0 <= bonds[k].beg < |atoms| && 0 <= bonds[k].end < |atoms|
    ensures var r := LoadSpec(SavedLines(name, stamp, chiralFlag, atoms, bonds, coords), validFloat);
      r.Ok? && |r.value.atoms| == |atoms| && |r.value.bonds| == |bonds| &&
      r.value.chiral == (if chiralFlag > 0 then 1 else 0) &&
      (forall i :: 0 <= i < |atoms| ==> r.value.atoms[i].number == atoms[i].number) &&
      (forall k :: 0 <= k < |bonds| ==> r.value.bonds[k] == ReloadedBond(bonds[k])) &&
      (forall k :: 0 <= k < |bonds| && Reloadable(bonds[k]) ==> r.value.bonds[k] == bonds[k]) &&
      (Plain(name) ==> r.value.name == name)
  {
    SavedLaidOut(name, stamp, chiralFlag, atoms, bonds, coords);
    LoadOfLayout(SavedLines(name, stamp, chiralFlag, atoms, bonds, coords), name, chiralFlag, atoms, bonds, coords,
                 validFloat);
  }
}
