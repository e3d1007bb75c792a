/** The SMILES reader (src/molecule/smiles_loader.go): one left-to-right
    scan that turns SMILES text into the atoms and bonds of a `Molecule`.
    Each character of a string stands for one byte of the Go string, read
    as the rune of the same value, so the Latin-1 letters count as letters
    for Go's `unicode` tests.

    The specification is a step function over the scanner's variables
    (`Step`), its iteration to the end of the input (`Run`) and the final
    passes (`Finish`); the `Parse` method is the loop itself, proved to
    compute `ParseSmiles`. */
module SmilesLoader {
  import opened Wrappers
  import opened Text
  import opened Elements
  import opened MoleculeGraph

  // ---------------------------------------------------------------------
  // Character classes (Go's `unicode` package on runes below 256)

  predicate RuneIsSpace(c: char)
  {
    c == ' ' || c == '\t' || c == '\n' || c == '\r' || c == '\U{000B}' || c == '\U{000C}' ||
    c == '\U{0085}' || c == '\U{00A0}'
  }

  predicate RuneIsUpper(c: char)
  {
    'A' <= c <= 'Z' || '\U{00C0}' <= c <= '\U{00D6}' || '\U{00D8}' <= c <= '\U{00DE}'
  }

  predicate RuneIsLower(c: char)
  {
    'a' <= c <= 'z' || c == '\U{00B5}' || '\U{00DF}' <= c <= '\U{00F6}' || '\U{00F8}' <= c <= '\U{00FF}'
  }

  /** The one-letter aromatic atoms: c, n, o, s, p. */
  predicate AromaticLetter(c: char)
  {
    c == 'c' || c == 'n' || c == 'o' || c == 's' || c == 'p'
  }

  /** The two-letter aromatic atoms "as" and "se" start at `i`. */
  predicate AromaticPair(s: string, i: nat)
  {
    i + 1 < |s| && ((s[i] == 'a' && s[i + 1] == 's') || (s[i] == 's' && s[i + 1] == 'e'))
  }

  /** The symbols the reader accepts as aromatic. */
  predicate AromaticSymbol(sym: string)
  {
    sym == "c" || sym == "n" || sym == "o" || sym == "s" || sym == "p" || sym == "as" || sym == "se"
  }

  /** The elements an aromatic symbol can name. */
  predicate AromaticElement(n: int)
  {
    n == ElemC || n == ElemN || n == ElemO || n == ElemS || n == ElemP || n == ElemAs || n == ElemSe
  }

  // ---------------------------------------------------------------------
  // Atom tokens

  /** What reading one atom yields: its symbol, where reading goes on,
      whether it was written in lower case, and the bracket isotope and
      charge (0 outside brackets). */
  datatype AtomToken = AtomToken(symbol: string, next: int, aromatic: bool, isotope: int, charge: int)

  /** The end of the run of decimal digits that starts at `i`. */
  function DigitRunEnd(s: string, i: nat): (j: nat)
    requires i <= |s|
    ensures i <= j <= |s| && AllDigits(s[i..j]) && (j == |s| || !IsDigit(s[j]))
    decreases |s| - i
  {
    if i < |s| && IsDigit(s[i]) then
      var j := DigitRunEnd(s, i + 1);
      assert s[i..j] == [s[i]] + s[i + 1..j];
      j
    else i
  }

  /** The end of the run of '@' that starts at `i` (stereo marks are skipped). */
  function StereoRunEnd(s: string, i: nat): (j: nat)
    requires i <= |s|
    ensures i <= j <= |s| && (j == |s| || s[j] != '@')
    decreases |s| - i
  {
    if i < |s| && s[i] == '@' then StereoRunEnd(s, i + 1) else i
  }

  /** Where an optional hydrogen count "H", "H<digits>" that starts at `i` ends. */
  function HCountEnd(s: string, i: nat): (j: nat)
    requires i <= |s|
    ensures i <= j <= |s|
  {
    if i < |s| && s[i] == 'H' then DigitRunEnd(s, i + 1) else i
  }

  datatype ChargeRead = ChargeRead(charge: int, next: int)

  /** The bracket charge that starts at `i`: "+" is +1, "++" is +2 and
      "+<digits>" is the number; the '-' forms mirror them; no sign is 0. */
  function ChargeAt(s: string, i: nat): (r: ChargeRead)
    requires i <= |s|
    ensures i <= r.next <= |s|
    ensures r.next == i <==> (i == |s| || (s[i] != '+' && s[i] != '-'))
  {
    if i < |s| && (s[i] == '+' || s[i] == '-') then
      var sign := if s[i] == '+' then 1 else -1;
      if i + 1 < |s| && s[i + 1] == s[i] then ChargeRead(2 * sign, i + 2)
      else if i + 1 < |s| && IsDigit(s[i + 1]) then
        var k := DigitRunEnd(s, i + 1);
        ChargeRead(sign * DigitsValue(s[i + 1..k]), k)
      else ChargeRead(sign, i + 1)
    else ChargeRead(0, i)
  }

  datatype SymbolRead = SymbolRead(symbol: string, aromatic: bool, next: int)

  /** The element symbol inside brackets at `i`. An upper-case letter takes
      a following lower-case letter; otherwise the aromatic forms and a bare
      'H' are tried. With `pairFirst` the two-letter aromatic forms are
      tried before the one-letter ones; without it, in the order the source
      tries them, "se" can never be read (see `BracketedAtomAsWritten`). */
  function BracketSymbol(s: string, i: nat, pairFirst: bool): (r: Result<SymbolRead>)
    requires i < |s|
    ensures r.Ok? ==> i < r.value.next <= |s| && r.value.symbol == s[i..r.value.next]
  {
    var c := s[i];
    if RuneIsUpper(c) then
      if i + 1 < |s| && s[i + 1] != '@' && s[i + 1] != 'H' && s[i + 1] != '+' && s[i + 1] != '-' &&
         s[i + 1] != ']' && RuneIsLower(s[i + 1])
      then Ok(SymbolRead(s[i..i + 2], false, i + 2))
      else Ok(SymbolRead(s[i..i + 1], false, i + 1))
    else if pairFirst && AromaticPair(s, i) then Ok(SymbolRead(s[i..i + 2], true, i + 2))
    else if AromaticLetter(c) then Ok(SymbolRead(s[i..i + 1], true, i + 1))
    else if AromaticPair(s, i) then Ok(SymbolRead(s[i..i + 2], true, i + 2))
    else if c == 'H' then Ok(SymbolRead("H", false, i + 1))
    else Err("invalid element in bracketed atom at " + IntToString(i))
  }

  function BracketedAtomWith(s: string, start: nat, pairFirst: bool): (r: Result<AtomToken>)
    ensures r.Ok? ==> start < r.value.next <= |s| && s[r.value.next - 1] == ']'
  {
    if start >= |s| || s[start] != '[' then Err("expected '[' at " + IntToString(start))
    else
      var i := DigitRunEnd(s, start + 1);
      if i >= |s| then Err("unexpected end in bracketed atom")
      else
        match BracketSymbol(s, i, pairFirst)
        case Err(e) => Err(e)
        case Ok(sym) =>
          var ch := ChargeAt(s, HCountEnd(s, StereoRunEnd(s, sym.next)));
          if ch.next >= |s| || s[ch.next] != ']' then Err("expected ']' at " + IntToString(ch.next))
          else Ok(AtomToken(sym.symbol, ch.next + 1, sym.aromatic, DigitsValue(s[start + 1..i]), ch.charge))
  }

  /** `readBracketedAtom` as the source orders its tests: the one-letter
      aromatic 's' is tried before "se". */
  function BracketedAtomAsWritten(s: string, start: nat): (r: Result<AtomToken>)
    ensures r.Ok? ==> start < r.value.next <= |s| && s[r.value.next - 1] == ']'
  {
    BracketedAtomWith(s, start, false)
  }

  /** `readBracketedAtom` with the two-letter aromatic symbols tried first:
      '[', an optional isotope, the symbol, '@' marks, an optional H count,
      an optional charge and ']'. */
  function BracketedAtom(s: string, start: nat): (r: Result<AtomToken>)
    ensures r.Ok? ==> start < r.value.next <= |s| && s[r.value.next - 1] == ']'
  {
    BracketedAtomWith(s, start, true)
  }

  /** Some ']' occurs at or after `j`. */
  predicate CloseBracketFrom(s: string, j: nat)
  {
    exists k :: j <= k < |s| && s[k] == ']'
  }

  /** An upper-case letter outside brackets takes the following lower-case
      letter into its symbol. As written, any lower-case letter is taken;
      corrected, not one of the aromatic letters c, n, o, s, p, which start
      the next atom (the two-letter symbols of the organic subset are Cl
      and Br). */
  predicate TakesSecondLetter(s: string, i: nat, corrected: bool)
  {
    i + 1 < |s| && RuneIsLower(s[i + 1]) && !(corrected && AromaticLetter(s[i + 1]))
  }

  /** `readElement`; `corrected` selects the reading order of the aromatic
      symbols (see `BracketSymbol`) and the second-letter rule (see
      `TakesSecondLetter`). */
  function ElementTokenWith(s: string, i: nat, corrected: bool): (r: Result<AtomToken>)
    ensures r.Ok? ==> i < r.value.next <= |s|
  {
    if i >= |s| then Err("unexpected end of input")
    else if s[i] == '[' then
      if CloseBracketFrom(s, i + 1) then BracketedAtomWith(s, i, corrected)
      else Err("unclosed bracket at " + IntToString(i))
    else if corrected && AromaticPair(s, i) then Ok(AtomToken(s[i..i + 2], i + 2, true, 0, 0))
    else if AromaticLetter(s[i]) then Ok(AtomToken(s[i..i + 1], i + 1, true, 0, 0))
    else if AromaticPair(s, i) then Ok(AtomToken(s[i..i + 2], i + 2, true, 0, 0))
    else if RuneIsUpper(s[i]) then
      if TakesSecondLetter(s, i, corrected) then Ok(AtomToken(s[i..i + 2], i + 2, false, 0, 0))
      else Ok(AtomToken(s[i..i + 1], i + 1, false, 0, 0))
    else Err("bad atom at " + IntToString(i))
  }

  /** `readElement` as the source writes it: "se" is never read, and an
      upper-case letter swallows a following aromatic letter ("Oc" is one
      symbol). */
  function ElementTokenAsWritten(s: string, i: nat): (r: Result<AtomToken>)
    ensures r.Ok? ==> i < r.value.next <= |s|
  {
    ElementTokenWith(s, i, false)
  }

  /** `readElement` corrected: a bracket atom when a ']' follows, else an
      aromatic symbol ("as" and "se" before the one-letter ones), or an
      upper-case letter with an optional lower-case letter that is not an
      aromatic atom of its own. */
  function ElementToken(s: string, i: nat): (r: Result<AtomToken>)
    ensures r.Ok? ==> i < r.value.next <= |s|
  {
    ElementTokenWith(s, i, true)
  }

  /** `elemToNum`: the aromatic symbols by name, anything else through the
      element table. */
  function ElementNumber(sym: string, aromatic: bool): (r: Result<int>)
    ensures aromatic ==> (r.Ok? <==> AromaticSymbol(sym))
    ensures aromatic && r.Ok? ==> AromaticElement(r.value)
    ensures !aromatic ==> r == ElementFromString(sym)
  {
    if aromatic then
      if sym == "c" then Ok(ElemC)
      else if sym == "n" then Ok(ElemN)
      else if sym == "o" then Ok(ElemO)
      else if sym == "s" then Ok(ElemS)
      else if sym == "p" then Ok(ElemP)
      else if sym == "as" then Ok(ElemAs)
      else if sym == "se" then Ok(ElemSe)
      else Err("unsupported aromatic atom: " + sym)
    else ElementFromString(sym)
  }

  /** `bondOrder`: the explicit bond characters. */
  function BondChar(c: char): Option<int>
  {
    if c == '-' then Some(BondSingle)
    else if c == '=' then Some(BondDouble)
    else if c == '#' then Some(BondTriple)
    else None
  }

  // ---------------------------------------------------------------------
  // Ring numbers

  datatype RingRef = RingRef(number: int, next: int)

  /** A ring number: one digit, or '%' and two digits. */
  function RingNumberAt(s: string, i: nat): (r: Result<RingRef>)
    requires i < |s| && (IsDigit(s[i]) || s[i] == '%')
    ensures r.Ok? ==> 0 <= r.value.number < 100 && i < r.value.next <= |s|
  {
    if s[i] == '%' then
      if i + 2 >= |s| then Err("incomplete %NN ring number at " + IntToString(i))
      else if !IsDigit(s[i + 1]) || !IsDigit(s[i + 2]) then Err("invalid %NN ring number at " + IntToString(i))
      else Ok(RingRef(DigitValue(s[i + 1]) * 10 + DigitValue(s[i + 2]), i + 3))
    else Ok(RingRef(DigitValue(s[i]), i + 1))
  }

  // ---------------------------------------------------------------------
  // The scanner's variables and one step of the loop

  /** An open ring: the atom it was opened at and the order written there (0 if none). */
  datatype RingOpen = RingOpen(atom: int, order: int)

  /** The molecule built so far and the loop's variables: the per-atom
      aromatic marks, the previous atom (-1 if none), the order of the
      pending explicit bond (0 if none), the branch stack and the open rings. */
  datatype ParseState = ParseState(atoms: seq<Atom>, bonds: seq<Bond>, marks: seq<int>, lastAtom: int,
                                   pendingOrder: int, branches: seq<int>, rings: map<int, RingOpen>)

  const Start: ParseState := ParseState([], [], [], -1, 0, [], map[])

  datatype Cursor = Cursor(next: int, state: ParseState)

  /** Atom `a` carries the aromatic mark. */
  predicate Marked(marks: seq<int>, a: int)
  {
    0 <= a < |marks| && marks[a] == AtomAromatic
  }

  /** `marks` extended with aliphatic marks to at least `n` entries. */
  function Pad(marks: seq<int>, n: int): (r: seq<int>)
    ensures |r| == if |marks| >= n then |marks| else n
    ensures r[..|marks|] == marks
    ensures forall k :: |marks| <= k < |r| ==> r[k] == AtomAliphatic
  {
    if |marks| >= n then marks else marks + seq(n - |marks|, _ => AtomAliphatic)
  }

  /** The order of a ring-closure bond: the order written at the closure,
      else the one written at the opening, else aromatic when both ends are
      aromatic, else single. */
  function RingBondOrder(pending: int, atOpening: int, hereAromatic: bool, thereAromatic: bool): int
  {
    if pending != 0 then pending
    else if atOpening != 0 then atOpening
    else if hereAromatic && thereAromatic then BondAromatic
    else BondSingle
  }

  /** The order of the bond to the previous atom: the pending explicit
      order, else aromatic when both atoms are aromatic, else single. */
  function ChainBondOrder(pending: int, aromatic: bool, lastAromatic: bool): int
  {
    if pending != 0 then pending
    else if aromatic && lastAromatic then BondAromatic
    else BondSingle
  }

  /** A ring digit (or %NN): opens the ring at the previous atom with the
      pending order, or closes it with a bond. */
  function RingStep(s: string, i: nat, st: ParseState): (r: Result<Cursor>)
    requires i < |s| && (IsDigit(s[i]) || s[i] == '%')
    ensures r.Ok? ==> i < r.value.next <= |s|
  {
    if st.lastAtom < 0 then Err("ring digit without atom at " + IntToString(i))
    else
      match RingNumberAt(s, i)
      case Err(e) => Err(e)
      case Ok(ref) =>
        if ref.number in st.rings then
          var open := st.rings[ref.number];
          var order := RingBondOrder(st.pendingOrder, open.order, Marked(st.marks, st.lastAtom), Marked(st.marks, open.atom));
          if st.pendingOrder != 0 && open.order != 0 && st.pendingOrder != open.order then
            Err("conflicting ring bond orders on ring " + IntToString(ref.number))
          else
            Ok(Cursor(ref.next, st.(bonds := st.bonds + [Bond(open.atom, st.lastAtom, order, 0)],
                                     rings := st.rings - {ref.number}, pendingOrder := 0)))
        else
          Ok(Cursor(ref.next, st.(rings := st.rings[ref.number := RingOpen(st.lastAtom, st.pendingOrder)],
                                   pendingOrder := 0)))
  }

  /** The atom `AddAtom` appends, with the isotope and charge set when given. */
  function TokenAtom(number: int, tok: AtomToken): Atom
  {
    var a := NewAtom(number);
    var a1 := if tok.isotope > 0 then a.(isotope := tok.isotope) else a;
    if tok.charge != 0 then a1.(charge := tok.charge) else a1
  }

  /** The marks after appending atom `idx`: padded to cover it, and set
      when the atom was written in lower case. */
  function MarksWith(marks: seq<int>, idx: nat, aromatic: bool): (r: seq<int>)
    ensures |r| >= idx + 1
  {
    if aromatic then Pad(marks, idx + 1)[idx := AtomAromatic] else Pad(marks, idx + 1)
  }

  /** The state after appending the atom read as `tok` with atom number
      `num`: bonded to the previous atom if there is one, and made the
      previous atom. */
  function AppendAtom(st: ParseState, tok: AtomToken, num: int): ParseState
  {
    var idx := |st.atoms|;
    var marks := MarksWith(st.marks, idx, tok.aromatic);
    var st1 := st.(atoms := st.atoms + [TokenAtom(num, tok)], marks := marks, lastAtom := idx);
    if st.lastAtom >= 0 then
      var order := ChainBondOrder(st.pendingOrder, tok.aromatic, Marked(marks, st.lastAtom));
      st1.(bonds := st.bonds + [Bond(st.lastAtom, idx, order, 0)], pendingOrder := 0)
    else st1
  }

  /** An atom: read, looked up and appended. */
  function AtomStep(s: string, i: nat, st: ParseState): (r: Result<Cursor>)
    requires i < |s|
    ensures r.Ok? ==> i < r.value.next <= |s|
  {
    match ElementToken(s, i)
    case Err(e) => Err(e)
    case Ok(tok) =>
      match ElementNumber(tok.symbol, tok.aromatic)
      case Err(e) => Err(e)
      case Ok(num) => Ok(Cursor(tok.next, AppendAtom(st, tok, num)))
  }

  /** One pass of the scanning loop at `i`. */
  function Step(s: string, i: nat, st: ParseState): (r: Result<Cursor>)
    requires i < |s|
    ensures r.Ok? ==> i < r.value.next <= |s|
  {
    var c := s[i];
    if RuneIsSpace(c) then Ok(Cursor(i + 1, st))
    else if c == '(' then
      if st.lastAtom < 0 then Err("branch without previous atom at " + IntToString(i))
      else Ok(Cursor(i + 1, st.(branches := st.branches + [st.lastAtom])))
    else if c == ')' then
      if |st.branches| == 0 then Err("unmatched ')' at " + IntToString(i))
      else Ok(Cursor(i + 1, st.(lastAtom := st.branches[|st.branches| - 1],
                                branches := st.branches[..|st.branches| - 1])))
    else if BondChar(c).Some? then Ok(Cursor(i + 1, st.(pendingOrder := BondChar(c).value)))
    else if c == '.' then Ok(Cursor(i + 1, st.(lastAtom := -1, pendingOrder := 0)))
    else if IsDigit(c) || c == '%' then RingStep(s, i, st)
    else AtomStep(s, i, st)
  }

  /** The loop from `i` to the end of the input, or its first error. */
  function Run(s: string, i: nat, st: ParseState): Result<ParseState>
    requires i <= |s|
    decreases |s| - i
  {
    if i == |s| then Ok(st)
    else
      match Step(s, i, st)
      case Err(e) => Err(e)
      case Ok(c) => Run(s, c.next, c.state)
  }

  // ---------------------------------------------------------------------
  // The finished molecule

  /** The atoms, the bonds and the `Aromaticity` list `Parse` leaves. */
  datatype ParsedMolecule = ParsedMolecule(atoms: seq<Atom>, bonds: seq<Bond>, aromaticity: seq<int>)

  /** Every bond joins two of the first `n` atoms. */
  predicate BondsWithin(bonds: seq<Bond>, n: int)
  {
    forall b :: b in bonds ==> 0 <= b.beg < n && 0 <= b.end < n
  }

  /** The marks copied to exactly `n` entries, aliphatic where none was kept. */
  function Resized(marks: seq<int>, n: nat): (r: seq<int>)
    ensures |r| == n
  {
    seq(n, k requires 0 <= k < n => if k < |marks| then marks[k] else AtomAliphatic)
  }

  /** Both ends of `b` marked aromatic if `b` is aromatic. */
  function MarkBondEnds(arom: seq<int>, b: Bond): (r: seq<int>)
    requires 0 <= b.beg < |arom| && 0 <= b.end < |arom|
    ensures |r| == |arom|
  {
    if b.order == BondAromatic then arom[b.beg := AtomAromatic][b.end := AtomAromatic] else arom
  }

  /** `MarkBondEnds` over the bonds in order. */
  function MarkAromaticEnds(arom: seq<int>, bonds: seq<Bond>): (r: seq<int>)
    requires BondsWithin(bonds, |arom|)
    ensures |r| == |arom|
  {
    if bonds == [] then arom
    else MarkBondEnds(MarkAromaticEnds(arom, bonds[..|bonds| - 1]), bonds[|bonds| - 1])
  }

  /** After the loop: an open ring is an error; otherwise the marks are
      copied to one entry per atom and the ends of aromatic bonds marked. */
  function Finish(st: ParseState): (r: Result<ParsedMolecule>)
    requires BondsWithin(st.bonds, |st.atoms|)
  {
    if |st.rings| != 0 then Err("unclosed ring bonds")
    else Ok(ParsedMolecule(st.atoms, st.bonds, MarkAromaticEnds(Resized(st.marks, |st.atoms|), st.bonds)))
  }

  // ---------------------------------------------------------------------
  // The loop invariant

  predicate OrderWritable(o: int)
  {
    o == 0 || o == BondSingle || o == BondDouble || o == BondTriple
  }

  /** What the scanner's variables always satisfy: one mark per atom, and
      a mark is aromatic only on an element that can be written in lower
      case; the previous atom, the branch stack and the open rings name
      existing atoms; pending and ring orders are 0 or an explicit order;
      every bond joins existing atoms, has order 1 to 4 and no direction,
      and an aromatic bond joins two atoms marked aromatic. */
  predicate Consistent(st: ParseState)
  {
    |st.marks| == |st.atoms| &&
    -1 <= st.lastAtom < |st.atoms| &&
    OrderWritable(st.pendingOrder) &&
    (forall k :: 0 <= k < |st.branches| ==> 0 <= st.branches[k] < |st.atoms|) &&
    (forall n :: n in st.rings ==> 0 <= st.rings[n].atom < |st.atoms| && OrderWritable(st.rings[n].order)) &&
    (forall k :: 0 <= k < |st.marks| ==>
       st.marks[k] == AtomAliphatic || (st.marks[k] == AtomAromatic && AromaticElement(st.atoms[k].number))) &&
    BondsWithin(st.bonds, |st.atoms|) &&
    (forall b :: b in st.bonds ==>
       1 <= b.order <= BondAromatic && b.direction == 0 &&
       (b.order == BondAromatic ==> Marked(st.marks, b.beg) && Marked(st.marks, b.end)))
  }

  lemma StartConsistent()
    ensures Consistent(Start)
  {
  }

  lemma RingStepKeepsConsistent(s: string, i: nat, st: ParseState)
    requires i < |s| && (IsDigit(s[i]) || s[i] == '%') && Consistent(st)
    requires RingStep(s, i, st).Ok?
    ensures Consistent(RingStep(s, i, st).value.state)
  {
    var ref := RingNumberAt(s, i).value;
    var st2 := RingStep(s, i, st).value.state;
    if ref.number in st.rings {
      var open := st.rings[ref.number];
      var b := Bond(open.atom, st.lastAtom, RingBondOrder(st.pendingOrder, open.order, Marked(st.marks, st.lastAtom), Marked(st.marks, open.atom)), 0);
      assert st2.bonds == st.bonds + [b];
      assert forall n :: n in st2.rings ==> n in st.rings && st2.rings[n] == st.rings[n];
    }
  }

  /** A bond between existing atoms, of order 1 to 4, aromatic only between
      marked atoms, keeps the invariant. */
  lemma AddBondKeepsConsistent(st: ParseState, b: Bond)
    requires Consistent(st)
    requires 0 <= b.beg < |st.atoms| && 0 <= b.end < |st.atoms| && 1 <= b.order <= BondAromatic && b.direction == 0
    requires b.order == BondAromatic ==> Marked(st.marks, b.beg) && Marked(st.marks, b.end)
    ensures Consistent(st.(bonds := st.bonds + [b], pendingOrder := 0))
  {
  }

  lemma AddAtomKeepsConsistent(st: ParseState, a: Atom, aromatic: bool)
    requires Consistent(st) && (aromatic ==> AromaticElement(a.number))
    ensures Consistent(st.(atoms := st.atoms + [a], marks := MarksWith(st.marks, |st.atoms|, aromatic), lastAtom := |st.atoms|))
  {
    var idx := |st.atoms|;
    var marks := MarksWith(st.marks, idx, aromatic);
    var atoms := st.atoms + [a];
    assert marks == st.marks + [if aromatic then AtomAromatic else AtomAliphatic];
    assert forall k :: 0 <= k < idx ==> atoms[k] == st.atoms[k] && marks[k] == st.marks[k];
  }

  lemma AppendAtomKeepsConsistent(st: ParseState, tok: AtomToken, num: int)
    requires Consistent(st) && (tok.aromatic ==> AromaticElement(num))
    ensures Consistent(AppendAtom(st, tok, num))
  {
    var idx := |st.atoms|;
    var marks := MarksWith(st.marks, idx, tok.aromatic);
    var st1 := st.(atoms := st.atoms + [TokenAtom(num, tok)], marks := marks, lastAtom := idx);
    AddAtomKeepsConsistent(st, TokenAtom(num, tok), tok.aromatic);
    if st.lastAtom >= 0 {
      var b := Bond(st.lastAtom, idx, ChainBondOrder(st.pendingOrder, tok.aromatic, Marked(marks, st.lastAtom)), 0);
      assert tok.aromatic ==> marks[idx] == AtomAromatic;
      AddBondKeepsConsistent(st1, b);
    }
  }

  lemma AtomStepKeepsConsistent(s: string, i: nat, st: ParseState)
    requires i < |s| && Consistent(st)
    requires AtomStep(s, i, st).Ok?
    ensures Consistent(AtomStep(s, i, st).value.state)
  {
    var tok := ElementToken(s, i).value;
    AppendAtomKeepsConsistent(st, tok, ElementNumber(tok.symbol, tok.aromatic).value);
  }

  lemma StepKeepsConsistent(s: string, i: nat, st: ParseState)
    requires i < |s| && Consistent(st)
    requires Step(s, i, st).Ok?
    ensures Consistent(Step(s, i, st).value.state)
  {
    var c := s[i];
    if RuneIsSpace(c) || c == '(' || c == ')' || BondChar(c).Some? || c == '.' {
    } else if IsDigit(c) || c == '%' {
      RingStepKeepsConsistent(s, i, st);
    } else {
      AtomStepKeepsConsistent(s, i, st);
    }
  }

  lemma {:induction false} RunKeepsConsistent(s: string, i: nat, st: ParseState)
    requires i <= |s| && Consistent(st)
    ensures Run(s, i, st).Ok? ==> Consistent(Run(s, i, st).value)
    decreases |s| - i
  {
    if i < |s| && Step(s, i, st).Ok? {
      StepKeepsConsistent(s, i, st);
      RunKeepsConsistent(s, Step(s, i, st).value.next, Step(s, i, st).value.state);
    }
  }

  /** `Parse` as a function of the text: the loop from the start, then the
      final passes. */
  function ParseSmiles(s: string): Result<ParsedMolecule>
  {
    match Run(s, 0, Start)
    case Err(e) => Err(e)
    case Ok(st) =>
      StartConsistent();
      RunKeepsConsistent(s, 0, Start);
      Finish(st)
  }

  // ---------------------------------------------------------------------
  // What the reader accepts and rejects

  /** Reading the symbols in the source's order never yields "se": the
      one-letter 's' is taken first, and 'e' is then no atom. */
  lemma AsWrittenNeverSelenium(s: string, i: nat)
    ensures ElementTokenAsWritten(s, i).Ok? ==> ElementTokenAsWritten(s, i).value.symbol != "se"
    ensures BracketedAtomAsWritten(s, i).Ok? ==> BracketedAtomAsWritten(s, i).value.symbol != "se"
  {
  }

  /** With the two-letter forms tried first, "se" reads as aromatic
      selenium, outside and inside brackets. */
  lemma SeleniumReads(s: string, i: nat)
    requires i + 1 < |s| && s[i] == 's' && s[i + 1] == 'e'
    ensures ElementToken(s, i) == Ok(AtomToken("se", i + 2, true, 0, 0))
    ensures ElementNumber("se", true) == Ok(ElemSe)
  {
    assert s[i..i + 2] == "se";
  }

  /** The text "se" and "[se]": read as written, "se" is 's' followed by a
      bad atom 'e', and "[se]" stops at the 'e' where ']' is expected. */
  lemma SeleniumAsWritten()
    ensures ElementTokenAsWritten("se", 0) == Ok(AtomToken("s", 1, true, 0, 0))
    ensures ElementTokenAsWritten("se", 1) == Err("bad atom at 1")
    ensures ElementToken("se", 0) == Ok(AtomToken("se", 2, true, 0, 0))
    ensures BracketedAtomAsWritten("[se]", 0) == Err("expected ']' at 2")
    ensures BracketedAtom("[se]", 0) == Ok(AtomToken("se", 4, true, 0, 0))
  {
    assert "se"[0..1] == "s";
    assert "se"[0..2] == "se";
    assert "[se]"[1..1] == [];
    assert "[se]"[1..2] == "s";
    assert "[se]"[1..3] == "se";
    assert DigitsValue([]) == 0;
    assert IntToString(1) == "1" && IntToString(2) == "2";
  }

  /** Phenol written "Oc1ccccc1": read as written, "Oc" is one symbol,
      which names no element (`OcUnknown`). */
  lemma OrganicLetterAsWritten()
    ensures ElementTokenAsWritten("Oc1ccccc1", 0) == Ok(AtomToken("Oc", 2, false, 0, 0))
  {
    assert "Oc1ccccc1"[0..2] == "Oc";
  }

  /** The same input read by the corrected reader: 'O' is an atom and the
      aromatic 'c' starts the next one. */
  lemma OrganicLetterCorrected()
    ensures ElementToken("Oc1ccccc1", 0) == Ok(AtomToken("O", 1, false, 0, 0))
    ensures ElementToken("Oc1ccccc1", 1) == Ok(AtomToken("c", 2, true, 0, 0))
  {
    assert "Oc1ccccc1"[0..1] == "O";
    assert "Oc1ccccc1"[1..2] == "c";
  }

  /** "Oc" names no element. */
  lemma OcUnknown()
    ensures ElementNumber("Oc", false) == Err("unknown element: Oc")
  {
    var r := ElementFromString("Oc");
    if r.Ok? {
      TableFacts(r.value);
      assert false;
    }
    UnknownElementMessage("Oc");
  }

  /** The first position at or after `i` that is not white space. */
  function SpaceEnd(s: string, i: nat): (j: nat)
    requires i <= |s|
    ensures i <= j <= |s| && (j == |s| || !RuneIsSpace(s[j]))
    ensures forall k :: i <= k < j ==> RuneIsSpace(s[k])
    decreases |s| - i
  {
    if i < |s| && RuneIsSpace(s[i]) then SpaceEnd(s, i + 1) else i
  }

  /** White space changes nothing. */
  lemma {:induction false} RunSkipsSpaces(s: string, i: nat, st: ParseState)
    requires i <= |s|
    ensures Run(s, i, st) == Run(s, SpaceEnd(s, i), st)
    decreases |s| - i
  {
    if i < |s| && RuneIsSpace(s[i]) {
      RunSkipsSpaces(s, i + 1, st);
    }
  }

  /** A ')' with no open branch is an error. */
  lemma UnmatchedCloseFails(s: string, i: nat, st: ParseState)
    requires i < |s| && s[i] == ')' && st.branches == []
    ensures Run(s, i, st) == Err("unmatched ')' at " + IntToString(i))
  {
  }

  /** A '(' with no previous atom is an error. */
  lemma BranchWithoutAtomFails(s: string, i: nat, st: ParseState)
    requires i < |s| && s[i] == '(' && st.lastAtom < 0
    ensures Run(s, i, st) == Err("branch without previous atom at " + IntToString(i))
  {
  }

  /** A ring number with no previous atom is an error. */
  lemma RingWithoutAtomFails(s: string, i: nat, st: ParseState)
    requires i < |s| && (IsDigit(s[i]) || s[i] == '%') && st.lastAtom < 0
    ensures Run(s, i, st) == Err("ring digit without atom at " + IntToString(i))
  {
  }

  /** A '%' needs two more characters, and both must be digits. */
  lemma BadPercentRingFails(s: string, i: nat, st: ParseState)
    requires i < |s| && s[i] == '%' && st.lastAtom >= 0
    ensures i + 2 >= |s| ==> Run(s, i, st) == Err("incomplete %NN ring number at " + IntToString(i))
    ensures i + 2 < |s| && (!IsDigit(s[i + 1]) || !IsDigit(s[i + 2])) ==>
            Run(s, i, st) == Err("invalid %NN ring number at " + IntToString(i))
  {
  }

  /** Closing a ring with an explicit order other than the one written at
      its opening is an error. */
  lemma ConflictingRingOrderFails(s: string, i: nat, st: ParseState)
    requires i < |s| && IsDigit(s[i]) && st.lastAtom >= 0
    requires DigitValue(s[i]) in st.rings
    requires st.pendingOrder != 0 && st.rings[DigitValue(s[i])].order != 0
    requires st.pendingOrder != st.rings[DigitValue(s[i])].order
    ensures Run(s, i, st) == Err("conflicting ring bond orders on ring " + IntToString(DigitValue(s[i])))
  {
  }

  /** After a '.', an atom starts a new component: it is added with no
      bond to the atoms before it, and becomes the previous atom. */
  lemma DotStartsComponent(s: string, i: nat, st: ParseState)
    requires i + 1 < |s| && s[i] == '.'
    requires Step(s, i + 1, Step(s, i, st).value.state).Ok?
    requires !RuneIsSpace(s[i + 1]) && s[i + 1] != '(' && s[i + 1] != ')' && BondChar(s[i + 1]).None? &&
             s[i + 1] != '.' && !IsDigit(s[i + 1]) && s[i + 1] != '%'
    ensures var st2 := Step(s, i + 1, Step(s, i, st).value.state).value.state;
            st2.bonds == st.bonds && |st2.atoms| == |st.atoms| + 1 && st2.atoms[..|st.atoms|] == st.atoms &&
            st2.lastAtom == |st.atoms| && st2.pendingOrder == 0
  {
    var st1 := Step(s, i, st).value.state;
    assert st1.lastAtom == -1;
    var tok := ElementToken(s, i + 1).value;
    var st2 := AppendAtom(st1, tok, ElementNumber(tok.symbol, tok.aromatic).value);
    assert st2.atoms[..|st.atoms|] == st.atoms;
  }

  /** The text fails at its first character that is not white space when
      that is a ')', a '(' or a ring number: none has an atom before it. */
  lemma LeadingCharacterFails(s: string)
    requires SpaceEnd(s, 0) < |s|
    ensures var j := SpaceEnd(s, 0);
            (s[j] == ')' ==> ParseSmiles(s) == Err("unmatched ')' at " + IntToString(j))) &&
            (s[j] == '(' ==> ParseSmiles(s) == Err("branch without previous atom at " + IntToString(j))) &&
            (IsDigit(s[j]) || s[j] == '%' ==> ParseSmiles(s) == Err("ring digit without atom at " + IntToString(j)))
  {
    var j := SpaceEnd(s, 0);
    RunSkipsSpaces(s, 0, Start);
    if s[j] == ')' {
      UnmatchedCloseFails(s, j, Start);
      ErrorRunFails(s, "unmatched ')' at " + IntToString(j));
    } else if s[j] == '(' {
      BranchWithoutAtomFails(s, j, Start);
      ErrorRunFails(s, "branch without previous atom at " + IntToString(j));
    } else if IsDigit(s[j]) || s[j] == '%' {
      RingWithoutAtomFails(s, j, Start);
      ErrorRunFails(s, "ring digit without atom at " + IntToString(j));
    }
  }

  /** A scan that fails makes the reader fail with its message. */
  lemma ErrorRunFails(s: string, e: string)
    requires Run(s, 0, Start) == Err(e)
    ensures ParseSmiles(s) == Err(e)
  {
  }

  /** When the scan succeeds, the result is an error exactly when a ring
      is still open. */
  lemma OpenRingFails(s: string)
    requires Run(s, 0, Start).Ok?
    ensures ParseSmiles(s).Err? <==> |Run(s, 0, Start).value.rings| != 0
    ensures ParseSmiles(s).Err? ==> ParseSmiles(s) == Err("unclosed ring bonds")
  {
  }

  // ---------------------------------------------------------------------
  // The reader's loops

  /** Skips the run of digits at `i`. */
  method ScanDigits(s: string, i: nat) returns (j: nat)
    requires i <= |s|
    ensures j == DigitRunEnd(s, i)
  {
    j := i;
    while j < |s| && IsDigit(s[j])
      invariant i <= j <= |s| && DigitRunEnd(s, j) == DigitRunEnd(s, i)
      decreases |s| - j
    {
      j := j + 1;
    }
  }

  /** The value of a run of digits, accumulated left to right. */
  method DigitsNumber(t: string) returns (v: nat)
    requires AllDigits(t)
    ensures v == DigitsValue(t)
  {
    v := 0;
    var k := 0;
    while k < |t|
      invariant 0 <= k <= |t| && v == DigitsValue(t[..k])
    {
      assert t[..k + 1][..k] == t[..k];
      v := v * 10 + DigitValue(t[k]);
      k := k + 1;
    }
    assert t[..|t|] == t;
  }

  /** The element symbol of a bracket atom, the two-letter aromatic forms
      tried before the one-letter ones. */
  method ReadBracketSymbol(s: string, i: nat) returns (r: Result<SymbolRead>)
    requires i < |s|
    ensures r == BracketSymbol(s, i, true)
  {
    var ch := s[i];
    if RuneIsUpper(ch) {
      var sym := s[i..i + 1];
      var j := i;
      if i + 1 < |s| && s[i + 1] != '@' && s[i + 1] != 'H' && s[i + 1] != '+' && s[i + 1] != '-' && s[i + 1] != ']' {
        if RuneIsLower(s[i + 1]) {
          sym := sym + [s[i + 1]];
          j := j + 1;
        }
      }
      assert sym == s[i..j + 1];
      return Ok(SymbolRead(sym, false, j + 1));
    } else if AromaticPair(s, i) {
      return Ok(SymbolRead(s[i..i + 2], true, i + 2));
    } else if AromaticLetter(ch) {
      return Ok(SymbolRead(s[i..i + 1], true, i + 1));
    } else if ch == 'H' {
      return Ok(SymbolRead("H", false, i + 1));
    }
    return Err("invalid element in bracketed atom at " + IntToString(i));
  }

  /** The optional charge of a bracket atom. */
  method ReadCharge(s: string, i0: nat) returns (charge: int, i: nat)
    requires i0 <= |s|
    ensures ChargeRead(charge, i) == ChargeAt(s, i0)
  {
    i := i0;
    charge := 0;
    if i < |s| {
      if s[i] == '+' {
        charge := 1;
        i := i + 1;
        if i < |s| && s[i] == '+' {
          charge := 2;
          i := i + 1;
        } else if i < |s| && IsDigit(s[i]) {
          var numStart := i;
          i := ScanDigits(s, i);
          if i > numStart {
            charge := DigitsNumber(s[numStart..i]);
          }
        }
      } else if s[i] == '-' {
        charge := -1;
        i := i + 1;
        if i < |s| && s[i] == '-' {
          charge := -2;
          i := i + 1;
        } else if i < |s| && IsDigit(s[i]) {
          var numStart := i;
          i := ScanDigits(s, i);
          if i > numStart {
            charge := DigitsNumber(s[numStart..i]);
            charge := -charge;
          }
        }
      }
    }
  }

  /** The optional isotope of a bracket atom: the leading digits and their value. */
  method ReadIsotope(s: string, i0: nat) returns (i: nat, isotope: nat)
    requires i0 <= |s|
    ensures i == DigitRunEnd(s, i0) && isotope == DigitsValue(s[i0..i])
  {
    i := i0;
    isotope := 0;
    if i < |s| && IsDigit(s[i]) {
      var isotopeStart := i;
      i := ScanDigits(s, i);
      isotope := DigitsNumber(s[isotopeStart..i]);
    }
  }

  /** Skips the '@' stereo marks and an optional H count. */
  method SkipStereoAndHCount(s: string, i0: nat) returns (i: nat)
    requires i0 <= |s|
    ensures i == HCountEnd(s, StereoRunEnd(s, i0))
  {
    i := i0;
    while i < |s| && s[i] == '@'
      invariant i0 <= i <= |s| && StereoRunEnd(s, i) == StereoRunEnd(s, i0)
      decreases |s| - i
    {
      i := i + 1;
    }
    if i < |s| && s[i] == 'H' {
      i := i + 1;
      if i < |s| && IsDigit(s[i]) {
        i := ScanDigits(s, i);
      }
    }
  }

  /** `readBracketedAtom`. */
  method ReadBracketedAtom(s: string, start: nat) returns (r: Result<AtomToken>)
    ensures r == BracketedAtom(s, start)
  {
    if start >= |s| || s[start] != '[' {
      return Err("expected '[' at " + IntToString(start));
    }
    var i, isotope := ReadIsotope(s, start + 1);
    if i >= |s| {
      return Err("unexpected end in bracketed atom");
    }
    var sym := ReadBracketSymbol(s, i);
    if sym.Err? {
      return Err(sym.error);
    }
    i := SkipStereoAndHCount(s, sym.value.next);
    var charge;
    charge, i := ReadCharge(s, i);
    if i >= |s| || s[i] != ']' {
      return Err("expected ']' at " + IntToString(i));
    }
    return Ok(AtomToken(sym.value.symbol, i + 1, sym.value.aromatic, isotope, charge));
  }

  /** `readElement`: a bracket atom when some ']' follows the '[', else an
      aromatic or organic symbol. */
  method ReadElement(s: string, i: nat) returns (r: Result<AtomToken>)
    ensures r == ElementToken(s, i)
  {
    if i >= |s| {
      return Err("unexpected end of input");
    }
    if s[i] == '[' {
      var j := i + 1;
      while j < |s| && s[j] != ']'
        invariant i + 1 <= j <= |s| && forall k :: i + 1 <= k < j ==> s[k] != ']'
        decreases |s| - j
      {
        j := j + 1;
      }
      if j < |s| && s[j] == ']' {
        r := ReadBracketedAtom(s, i);
        return;
      } else {
        return Err("unclosed bracket at " + IntToString(i));
      }
    }
    var ch := s[i];
    if AromaticPair(s, i) {
      return Ok(AtomToken(s[i..i + 2], i + 2, true, 0, 0));
    }
    if AromaticLetter(ch) {
      return Ok(AtomToken(s[i..i + 1], i + 1, true, 0, 0));
    }
    if RuneIsUpper(ch) {
      if i + 1 < |s| && RuneIsLower(s[i + 1]) && !AromaticLetter(s[i + 1]) {
        return Ok(AtomToken(s[i..i + 2], i + 2, false, 0, 0));
      }
      return Ok(AtomToken(s[i..i + 1], i + 1, false, 0, 0));
    }
    return Err("bad atom at " + IntToString(i));
  }

  // ---------------------------------------------------------------------
  // The parsing loop

  /** A ring digit or %NN at `i`: the ring is opened at the previous atom,
      or closed with a bond added to `m`. */
  method ParseRingBond(m: Molecule, s: string, i: nat, marks: seq<int>, lastAtom: int, pendingOrder: int,
                       rings: map<int, RingOpen>, ghost st: ParseState)
    returns (o: Outcome, next: nat, rings2: map<int, RingOpen>, pending2: int)
    requires i < |s| && (IsDigit(s[i]) || s[i] == '%')
    requires m.Valid() && Consistent(st)
    requires st == ParseState(m.atoms, m.bonds, marks, lastAtom, pendingOrder, st.branches, rings)
    modifies m
    ensures m.Valid() && m.atoms == old(m.atoms)
    ensures RingStep(s, i, st) ==
            if o.Fail? then Err(o.error)
            else Ok(Cursor(next, st.(bonds := m.bonds, rings := rings2, pendingOrder := pending2)))
  {
    if lastAtom < 0 {
      return Fail("ring digit without atom at " + IntToString(i)), i, rings, pendingOrder;
    }
    var ringNum := 0;
    var nextI := i + 1;
    if s[i] == '%' {
      if i + 2 >= |s| {
        return Fail("incomplete %NN ring number at " + IntToString(i)), i, rings, pendingOrder;
      }
      var d1 := s[i + 1];
      var d2 := s[i + 2];
      if d1 < '0' || d1 > '9' || d2 < '0' || d2 > '9' {
        return Fail("invalid %NN ring number at " + IntToString(i)), i, rings, pendingOrder;
      }
      ringNum := DigitValue(d1) * 10 + DigitValue(d2);
      nextI := i + 3;
    } else {
      ringNum := DigitValue(s[i]);
    }
    assert RingNumberAt(s, i) == Ok(RingRef(ringNum, nextI));
    if ringNum in rings {
      var open := rings[ringNum];
      var order := pendingOrder;
      if order == 0 {
        order := open.order;
      }
      if order == 0 {
        var currentAromatic := false;
        if lastAtom < |marks| && marks[lastAtom] == AtomAromatic {
          currentAromatic := true;
        }
        var openAromatic := false;
        if open.atom < |marks| && marks[open.atom] == AtomAromatic {
          openAromatic := true;
        }
        if currentAromatic && openAromatic {
          order := BondAromatic;
        } else {
          order := BondSingle;
        }
      }
      if pendingOrder != 0 && open.order != 0 && pendingOrder != open.order {
        return Fail("conflicting ring bond orders on ring " + IntToString(ringNum)), nextI, rings, pendingOrder;
      }
      var _ := m.AddBond(open.atom, lastAtom, order);
      rings2 := rings - {ringNum};
      pending2 := 0;
    } else {
      rings2 := rings[ringNum := RingOpen(lastAtom, pendingOrder)];
      pending2 := 0;
    }
    return Pass, nextI, rings2, pending2;
  }

  /** Lines 267-272: the marks padded to cover atom `idx` and set when it
      was written in lower case. */
  method MarkNewAtom(marks: seq<int>, idx: nat, aromatic: bool) returns (marks2: seq<int>)
    ensures marks2 == MarksWith(marks, idx, aromatic)
  {
    marks2 := marks;
    while |marks2| < idx + 1
      invariant Pad(marks2, idx + 1) == Pad(marks, idx + 1)
      decreases idx + 1 - |marks2|
    {
      assert Pad(marks2 + [AtomAliphatic], idx + 1) == Pad(marks2, idx + 1);
      marks2 := marks2 + [AtomAliphatic];
    }
    if aromatic {
      marks2 := marks2[idx := AtomAromatic];
    }
  }

  /** Lines 255-263: `AddAtom`, then the isotope and the charge when given. */
  method AddTokenAtom(m: Molecule, tok: AtomToken, num: int) returns (idx: int)
    requires m.Valid()
    modifies m
    ensures m.Valid() && idx == |old(m.atoms)|
    ensures m.atoms == old(m.atoms) + [TokenAtom(num, tok)] && m.bonds == old(m.bonds)
  {
    idx := m.AddAtom(num);
    if tok.isotope > 0 {
      m.SetAtomIsotope(idx, tok.isotope);
    }
    if tok.charge != 0 {
      m.SetAtomCharge(idx, tok.charge);
    }
  }

  /** The atom read as `tok`, with atom number `num`, added to `m` with its
      isotope and charge, marked, and bonded to the previous atom if there
      is one. */
  method AddParsedAtom(m: Molecule, tok: AtomToken, num: int, marks: seq<int>, lastAtom: int, pendingOrder: int,
                       ghost st: ParseState)
    returns (marks2: seq<int>, last2: int, pending2: int)
    requires m.Valid() && Consistent(st)
    requires st == ParseState(m.atoms, m.bonds, marks, lastAtom, pendingOrder, st.branches, st.rings)
    modifies m
    ensures m.Valid()
    ensures AppendAtom(st, tok, num) ==
            st.(atoms := m.atoms, bonds := m.bonds, marks := marks2, lastAtom := last2, pendingOrder := pending2)
  {
    var idx := AddTokenAtom(m, tok, num);
    marks2 := MarkNewAtom(marks, idx, tok.aromatic);
    pending2 := pendingOrder;
    if lastAtom >= 0 {
      var order := pendingOrder;
      if order == 0 {
        var lastAtomAromatic := false;
        if lastAtom < |marks2| && marks2[lastAtom] == AtomAromatic {
          lastAtomAromatic := true;
        }
        if tok.aromatic && lastAtomAromatic {
          order := BondAromatic;
        } else {
          order := BondSingle;
        }
      }
      var _ := m.AddBond(lastAtom, idx, order);
      pending2 := 0;
    }
    last2 := idx;
  }

  /** An atom at `i`: read, looked up and added. */
  method ParseAtom(m: Molecule, s: string, i: nat, marks: seq<int>, lastAtom: int, pendingOrder: int,
                   ghost st: ParseState)
    returns (o: Outcome, next: nat, marks2: seq<int>, last2: int, pending2: int)
    requires i < |s| && m.Valid() && Consistent(st)
    requires st == ParseState(m.atoms, m.bonds, marks, lastAtom, pendingOrder, st.branches, st.rings)
    modifies m
    ensures m.Valid()
    ensures AtomStep(s, i, st) ==
            if o.Fail? then Err(o.error)
            else Ok(Cursor(next, st.(atoms := m.atoms, bonds := m.bonds, marks := marks2, lastAtom := last2,
                                     pendingOrder := pending2)))
  {
    var tok := ReadElement(s, i);
    if tok.Err? {
      return Fail(tok.error), i, marks, lastAtom, pendingOrder;
    }
    var num := ElementNumber(tok.value.symbol, tok.value.aromatic);
    if num.Err? {
      return Fail(num.error), i, marks, lastAtom, pendingOrder;
    }
    marks2, last2, pending2 := AddParsedAtom(m, tok.value, num.value, marks, lastAtom, pendingOrder, st);
    return Pass, tok.value.next, marks2, last2, pending2;
  }

  /** The copy of the marks into `Aromaticity`, one entry per atom. */
  method CopyMarks(marks: seq<int>, n: nat) returns (arom: seq<int>)
    ensures arom == Resized(marks, n)
  {
    arom := seq(n, _ => 0);
    var k := 0;
    while k < n
      invariant 0 <= k <= n && |arom| == n
      invariant forall j :: 0 <= j < k ==> arom[j] == Resized(marks, n)[j]
    {
      if k < |marks| {
        arom := arom[k := marks[k]];
      } else {
        arom := arom[k := AtomAliphatic];
      }
      k := k + 1;
    }
  }

  /** The pass that marks both ends of every aromatic bond. */
  method MarkAromaticBonds(arom0: seq<int>, bonds: seq<Bond>) returns (arom: seq<int>)
    requires BondsWithin(bonds, |arom0|)
    ensures arom == MarkAromaticEnds(arom0, bonds)
  {
    arom := arom0;
    var k := 0;
    while k < |bonds|
      invariant 0 <= k <= |bonds| && BondsWithin(bonds[..k], |arom0|) && arom == MarkAromaticEnds(arom0, bonds[..k])
    {
      assert bonds[..k + 1][..k] == bonds[..k];
      assert bonds[k] in bonds;
      var b := bonds[k];
      if b.order == BondAromatic {
        arom := arom[b.beg := AtomAromatic];
        arom := arom[b.end := AtomAromatic];
      }
      k := k + 1;
    }
    assert bonds[..|bonds|] == bonds;
  }

  /** A step that succeeds keeps the invariant and leaves the rest of the
      run to its result. */
  lemma StepThen(s: string, i: nat, st: ParseState, c: Cursor)
    requires i < |s| && Consistent(st) && Step(s, i, st) == Ok(c)
    ensures i < c.next <= |s| && Consistent(c.state) && Run(s, i, st) == Run(s, c.next, c.state)
  {
    StepKeepsConsistent(s, i, st);
  }

  /** A step that fails ends the run with its error. */
  lemma StepFails(s: string, i: nat, st: ParseState, e: string)
    requires i < |s| && Step(s, i, st) == Err(e)
    ensures Run(s, i, st) == Err(e)
  {
  }

  /** One pass of the scanning loop of `Parse` (lines 99-242) at `i`:
      white space is skipped, a branch is opened or closed, a bond symbol is
      remembered, a dot starts a new component, a ring number opens or
      closes a ring, and anything else is read as an atom. */
  method ScanStep(m: Molecule, s: string, i: nat, marks: seq<int>, lastAtom: int, pendingOrder: int,
                  branches: seq<int>, rings: map<int, RingOpen>, ghost st: ParseState)
    returns (o: Outcome, next: nat, marks2: seq<int>, last2: int, pending2: int,
             branches2: seq<int>, rings2: map<int, RingOpen>)
    requires i < |s| && m.Valid() && Consistent(st)
    requires st == ParseState(m.atoms, m.bonds, marks, lastAtom, pendingOrder, branches, rings)
    modifies m
    ensures m.Valid()
    ensures Step(s, i, st) ==
            if o.Fail? then Err(o.error)
            else Ok(Cursor(next, ParseState(m.atoms, m.bonds, marks2, last2, pending2, branches2, rings2)))
  {
    o, next, marks2, last2, pending2, branches2, rings2 := Pass, i + 1, marks, lastAtom, pendingOrder, branches, rings;
    var ch := s[i];
    if RuneIsSpace(ch) {
      return;
    }
    if ch == '(' {
      if lastAtom < 0 {
        o := Fail("branch without previous atom at " + IntToString(i));
        return;
      }
      branches2 := branches + [lastAtom];
      return;
    }
    if ch == ')' {
      if |branches| == 0 {
        o := Fail("unmatched ')' at " + IntToString(i));
        return;
      }
      last2 := branches[|branches| - 1];
      branches2 := branches[..|branches| - 1];
      return;
    }
    var ord := BondChar(ch);
    if ord.Some? {
      pending2 := ord.value;
      return;
    }
    if ch == '.' {
      last2, pending2 := -1, 0;
      return;
    }
    if IsDigit(ch) || ch == '%' {
      o, next, rings2, pending2 := ParseRingBond(m, s, i, marks, lastAtom, pendingOrder, rings, st);
      return;
    }
    o, next, marks2, last2, pending2 := ParseAtom(m, s, i, marks, lastAtom, pendingOrder, st);
  }

  /** `Parse`: the scanning loop over the text, then the open-ring check
      and the two passes that fill `Aromaticity`. */
  method Parse(s: string) returns (r: Result<Molecule>)
    ensures r.Err? ==> ParseSmiles(s) == Err(r.error)
    ensures r.Ok? ==> ParseSmiles(s).Ok? && fresh(r.value) && r.value.Valid() &&
                      r.value.atoms == ParseSmiles(s).value.atoms && r.value.bonds == ParseSmiles(s).value.bonds &&
                      r.value.aromaticity == ParseSmiles(s).value.aromaticity
  {
    var m := new Molecule();
    var branchStack: seq<int> := [];
    var ringBonds: map<int, RingOpen> := map[];
    var atomAromaticity: seq<int> := [];
    var lastAtom := -1;
    var pendingOrder := 0;
    StartConsistent();
    var i := 0;
    while i < |s|
      invariant 0 <= i <= |s| && fresh(m) && m.Valid()
      invariant Consistent(ParseState(m.atoms, m.bonds, atomAromaticity, lastAtom, pendingOrder, branchStack, ringBonds))
      invariant Run(s, i, ParseState(m.atoms, m.bonds, atomAromaticity, lastAtom, pendingOrder, branchStack, ringBonds))
                == Run(s, 0, Start)
      decreases |s| - i
    {
      ghost var st := ParseState(m.atoms, m.bonds, atomAromaticity, lastAtom, pendingOrder, branchStack, ringBonds);
      var o, next;
      o, next, atomAromaticity, lastAtom, pendingOrder, branchStack, ringBonds :=
        ScanStep(m, s, i, atomAromaticity, lastAtom, pendingOrder, branchStack, ringBonds, st);
      if o.Fail? {
        StepFails(s, i, st, o.error);
        return Err(o.error);
      }
      StepThen(s, i, st, Cursor(next, ParseState(m.atoms, m.bonds, atomAromaticity, lastAtom, pendingOrder,
                                                 branchStack, ringBonds)));
      i := next;
    }
    ghost var st := ParseState(m.atoms, m.bonds, atomAromaticity, lastAtom, pendingOrder, branchStack, ringBonds);
    assert Run(s, 0, Start) == Ok(st);
    if |ringBonds| != 0 {
      return Err("unclosed ring bonds");
    }
    var arom := CopyMarks(atomAromaticity, |m.atoms|);
    arom := MarkAromaticBonds(arom, m.bonds);
    m.aromaticity := arom;
    return Ok(m);
  }
}
