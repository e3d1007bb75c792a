/** Reading an MDL molfile (V2000) into a molecule (src/molfile_loader.go).
    The input is the sequence of its lines, split at line feeds; a line read
    past the last one is the empty string, as the Go reader returns once the
    input is exhausted. Coordinates are not part of the model: whether a
    coordinate field parses as a float is the parameter `validFloat`. */
module MolfileLoader {
  import opened Wrappers
  import opened Text
  import Elements
  import opened MoleculeGraph

  function Max0(n: int): nat { if n > 0 then n else 0 }
  function Min(a: int, b: int): int { if a < b then a else b }

  /** `int(getAtomicMass(n, 0))`: the approximate masses of elements 1..54,
      truncated toward zero. */
  const MassTable: seq<int> := [
    0, 1, 4, 6, 9, 10, 12, 14, 16, 19, 20,
    22, 24, 26, 28, 30, 32, 35, 39, 39, 40,
    44, 47, 50, 52, 54, 55, 58, 58, 63, 65,
    69, 72, 74, 78, 79, 83, 85, 87, 88, 91,
    92, 95, 98, 101, 102, 106, 107, 112, 114, 118,
    121, 127, 126, 131
  ]

  /** The standard mass the molfile mass difference is measured from; 0 for
      numbers outside the table. */
  function StandardMass(number: int): (m: int)
    ensures !(0 < number < |MassTable|) ==> m == 0
  {
    if 0 < number < |MassTable| then MassTable[number] else 0
  }

  /** `readLine`: the line without its trailing carriage returns and line
      feeds, and the empty string past the end of the input. */
  function ReadLine(lines: seq<string>, i: int): string
  {
    if 0 <= i < |lines| then StripEol(lines[i]) else ""
  }

  /** `strings.TrimRight(line, "\r\n")`. */
  function StripEol(s: string): (r: string)
    ensures |r| <= |s| && r == s[..|r|]
    ensures r == [] || (r[|r| - 1] != '\r' && r[|r| - 1] != '\n')
    ensures (s == [] || (s[|s| - 1] != '\r' && s[|s| - 1] != '\n')) ==> r == s
  {
    if s != [] && (s[|s| - 1] == '\r' || s[|s| - 1] == '\n') then StripEol(s[..|s| - 1]) else s
  }

  /** A fixed-width field with the white space around it removed. */
  function Column(line: string, from: nat, to: nat): string
    requires from <= to <= |line|
  {
    TrimSpace(line[from..to])
  }

  // ---------------------------------------------------------------------
  // Code conversions
  // ---------------------------------------------------------------------

  /** `convertBondType`: MDL types 1..4 are single, double, triple and
      aromatic; any other code is read as single. */
  function ConvertBondType(molType: int): (order: int)
    ensures BondSingle <= order <= BondAromatic
  {
    match molType
    case 1 => BondSingle
    case 2 => BondDouble
    case 3 => BondTriple
    case 4 => BondAromatic
    case _ => BondSingle
  }

  /** `convertStereo`: stereo code 1 is a wedge up, 6 a hash down, 4
      either; anything else is no direction. */
  function ConvertStereo(stereo: int): (direction: int)
    ensures direction == 0 || direction == BondUp || direction == BondDown || direction == BondEither
    ensures direction != 0 <==> stereo == 1 || stereo == 6 || stereo == 4
  {
    match stereo
    case 1 => BondUp
    case 6 => BondDown
    case 4 => BondEither
    case _ => 0
  }

  /** `convertChargeCode`: codes 1..3 are +3..+1, 5..7 are -1..-3; code 4
      (a doublet radical) and every other code mean no charge. */
  function ConvertChargeCode(code: int): (charge: int)
    ensures -3 <= charge <= 3
    ensures charge != 0 <==> (1 <= code <= 7 && code != 4)
  {
    match code
    case 1 => 3
    case 2 => 2
    case 3 => 1
    case 4 => 0
    case 5 => -1
    case 6 => -2
    case 7 => -3
    case _ => 0
  }

  // ---------------------------------------------------------------------
  // Counts, atom and bond lines
  // ---------------------------------------------------------------------

  /** The counts line: atoms, bonds and the chiral flag (-1 when absent). */
  datatype Counts = Counts(atoms: int, bonds: int, chiral: int)

  /** `parseCountsLine`: the atom and bond counts in columns 1-3 and 4-6,
      and the chiral flag in columns 13-15 when the line reaches that far
      and the field is a number. */
  function ParseCountsLine(line: string): (r: Result<Counts>)
    ensures |line| < 6 ==> r == Err("counts line too short: " + line)
    ensures r.Ok? <==> |line| >= 6 && Atoi(Column(line, 0, 3)).Some? && Atoi(Column(line, 3, 6)).Some?
    ensures r.Ok? && |line| < 15 ==> r.value.chiral == -1
  {
    if |line| < 6 then Err("counts line too short: " + line)
    else
      var atomsText := Column(line, 0, 3);
      var bondsText := Column(line, 3, 6);
      match Atoi(atomsText)
      case None => Err("invalid atom count: " + atomsText)
      case Some(numAtoms) =>
        match Atoi(bondsText)
        case None => Err("invalid bond count: " + bondsText)
        case Some(numBonds) =>
          var chiral :=
            if |line| >= 15 && Atoi(Column(line, 12, 15)).Some? then Atoi(Column(line, 12, 15)).value
            else -1;
          Ok(Counts(numAtoms, numBonds, chiral))
  }

  /** What one atom line contributes: a symbol that is not an element makes
      a pseudo atom labelled with it; an element may carry an isotope and a
      charge. */
  datatype AtomFields =
    PseudoFields(symbol: string)
    | ElementFields(number: int, isotope: Option<int>, charge: Option<int>)

  /** The mass-difference field (columns 35-36): a non-zero difference sets
      the isotope to the standard mass plus the difference. */
  function MassField(line: string, number: int): (iso: Option<int>)
    ensures iso.Some? ==> iso.value != StandardMass(number)
  {
    if |line| < 36 then None
    else
      match Atoi(Column(line, 34, 36))
      case Some(d) => if d != 0 then Some(StandardMass(number) + d) else None
      case None => None
  }

  /** The charge field (columns 37-39): a code that stands for a charge. */
  function ChargeField(line: string): (charge: Option<int>)
    ensures charge.Some? ==> charge.value != 0 && -3 <= charge.value <= 3
  {
    if |line| < 39 then None
    else
      match Atoi(Column(line, 36, 39))
      case Some(code) => if ConvertChargeCode(code) != 0 then Some(ConvertChargeCode(code)) else None
      case None => None
  }

  /** `parseAtomLine`: a line of at least 34 characters, three coordinate
      fields that parse, and a non-empty symbol in columns 32-34. */
  function ParseAtomLine(line: string, validFloat: string -> bool): (r: Result<AtomFields>)
    ensures r.Ok? <==>
              (|line| >= 34 && validFloat(Column(line, 0, 10)) && validFloat(Column(line, 10, 20)) &&
               validFloat(Column(line, 20, 30)) && Column(line, 31, 34) != [])
    ensures r.Ok? && r.value.PseudoFields? ==>
              r.value.symbol == Column(line, 31, 34) &&
              forall n :: 1 <= n < Elements.ElementCount ==> Elements.ElementData(n).name != r.value.symbol
    ensures r.Ok? && r.value.ElementFields? ==>
              1 <= r.value.number < Elements.ElementCount &&
              Elements.ElementData(r.value.number).name == Column(line, 31, 34)
  {
    if |line| < 34 then Err("atom line too short: " + line)
    else
      var x := Column(line, 0, 10);
      var y := Column(line, 10, 20);
      var z := Column(line, 20, 30);
      var symbol := Column(line, 31, 34);
      if !validFloat(x) then Err("invalid x coordinate: " + x)
      else if !validFloat(y) then Err("invalid y coordinate: " + y)
      else if !validFloat(z) then Err("invalid z coordinate: " + z)
      else if symbol == [] then Err("missing atom symbol")
      else
        match Elements.ElementFromString(symbol)
        case Err(_) => Ok(PseudoFields(symbol))
        case Ok(number) => Ok(ElementFields(number, MassField(line, number), ChargeField(line)))
  }

  /** The atom `parseAtomLine` appends. */
  function LoadedAtom(f: AtomFields): Atom
  {
    match f
    case PseudoFields(symbol) => NewAtom(Elements.ElemPseudo).(pseudoAtomValue := symbol)
    case ElementFields(number, isotope, charge) =>
      var a := NewAtom(number);
      var a1 := if isotope.Some? then a.(isotope := isotope.value) else a;
      if charge.Some? then a1.(charge := charge.value) else a1
  }

  /** What one bond line contributes, with 0-based atom indices. */
  datatype BondFields = BondFields(beg: int, end: int, order: int, direction: Option<int>)

  /** The stereo field (columns 10-12): a non-zero code sets the direction. */
  function StereoField(line: string): (direction: Option<int>)
    ensures direction.Some? ==> 0 <= direction.value <= BondEither
  {
    if |line| < 12 then None
    else
      match Atoi(Column(line, 9, 12))
      case Some(s) => if s != 0 then Some(ConvertStereo(s)) else None
      case None => None
  }

  /** `parseBondLine` after the length check: the three leading columns,
      already trimmed, and the stereo field. */
  function BondOfColumns(first: string, second: string, kind: string, atomCount: int, stereo: Option<int>)
    : (r: Result<BondFields>)
    ensures r.Ok? ==> 0 <= r.value.beg < atomCount && 0 <= r.value.end < atomCount
    ensures r.Ok? ==> BondSingle <= r.value.order <= BondAromatic && r.value.direction == stereo
    ensures r.Ok? ==> Atoi(first) == Some(r.value.beg + 1) && Atoi(second) == Some(r.value.end + 1)
  {
    match Atoi(first)
    case None => Err("invalid first atom: " + first)
    case Some(atom1) =>
      match Atoi(second)
      case None => Err("invalid second atom: " + second)
      case Some(atom2) =>
        match Atoi(kind)
        case None => Err("invalid bond type: " + kind)
        case Some(bondType) =>
          if atom1 - 1 < 0 || atom1 - 1 >= atomCount || atom2 - 1 < 0 || atom2 - 1 >= atomCount then
            Err("invalid atom indices: " + IntToString(atom1) + ", " + IntToString(atom2))
          else
            Ok(BondFields(atom1 - 1, atom2 - 1, ConvertBondType(bondType), stereo))
  }

  /** `parseBondLine`: two 1-based atom numbers naming loaded atoms and a
      bond type; the result names atoms by 0-based index. */
  function ParseBondLine(line: string, atomCount: int): (r: Result<BondFields>)
    ensures |line| < 9 ==> r == Err("bond line too short: " + line)
    ensures r.Ok? ==> 0 <= r.value.beg < atomCount && 0 <= r.value.end < atomCount
    ensures r.Ok? ==> BondSingle <= r.value.order <= BondAromatic
    ensures r.Ok? && r.value.direction.Some? ==> 0 <= r.value.direction.value <= BondEither
  {
    if |line| < 9 then Err("bond line too short: " + line)
    else BondOfColumns(Column(line, 0, 3), Column(line, 3, 6), Column(line, 6, 9), atomCount, StereoField(line))
  }

  /** The bond `parseBondLine` appends. */
  function LoadedBond(f: BondFields): Bond
  {
    Bond(f.beg, f.end, f.order, if f.direction.Some? then f.direction.value else 0)
  }

  // ---------------------------------------------------------------------
  // The properties block
  // ---------------------------------------------------------------------

  /** The three property lines: `M  CHG`, `M  ISO` and `M  RAD`. */
  datatype PropertyKind = ChargeProperty | IsotopeProperty | RadicalProperty

  /** The field a property line sets. */
  function SetProperty(a: Atom, kind: PropertyKind, v: int): Atom
  {
    match kind
    case ChargeProperty => a.(charge := v)
    case IsotopeProperty => a.(isotope := v)
    case RadicalProperty => a.(radical := v)
  }

  /** The `i`-th (atom number, value) pair after the count, when both of
      its fields are integers. */
  function PairAt(parts: seq<string>, i: nat): Option<(int, int)>
    requires i * 2 + 2 < |parts|
  {
    var atom := Atoi(parts[i * 2 + 1]);
    var value := Atoi(parts[i * 2 + 2]);
    if atom.Some? && value.Some? then Some((atom.value, value.value)) else None
  }

  /** The first `n` pairs after the count, each parsed or not. */
  function PairOps(parts: seq<string>, n: nat): (ops: seq<Option<(int, int)>>)
    requires 2 * n < |parts|
    ensures |ops| == n
    ensures forall k :: 0 <= k < n ==> ops[k] == PairAt(parts, k)
  {
    seq(n, k requires 0 <= k < n => PairAt(parts, k))
  }

  /** The values of the options that are present, in order. */
  function Somes(ops: seq<Option<(int, int)>>): (es: seq<(int, int)>)
    ensures |es| <= |ops|
  {
    if ops == [] then []
    else
      var rest := Somes(ops[..|ops| - 1]);
      match ops[|ops| - 1]
      case Some(e) => rest + [e]
      case None => rest
  }

  /** The pairs among the first `n` that parse, in order. */
  function Pairs(parts: seq<string>, n: nat): (es: seq<(int, int)>)
    requires 2 * n < |parts|
    ensures |es| <= n
  {
    Somes(PairOps(parts, n))
  }

  /** The entries of a property line split into fields: nothing for fewer
      than three fields or a count that is not a positive number; otherwise
      as many pairs as both the count and the fields provide. */
  function EntriesOfFields(parts: seq<string>): (es: seq<(int, int)>)
    ensures |parts| < 3 ==> es == []
    ensures |es| <= |parts| / 2
  {
    if |parts| < 3 then []
    else
      match Atoi(parts[0])
      case None => []
      case Some(count) =>
        if count < 1 then [] else Pairs(parts, Min(count, (|parts| - 1) / 2))
  }

  /** The entries of a property line as the Go code reads them: the fields
      after the first seven characters. The slice needs seven characters,
      which the prefix test that selects the line does not guarantee. */
  function PropertyEntriesAsWritten(line: string): seq<(int, int)>
    requires |line| >= 7
  {
    EntriesOfFields(Fields(line[7..]))
  }

  /** The entries of a property line, with a line too short to hold any
      read as holding none. */
  function PropertyEntries(line: string): (es: seq<(int, int)>)
    ensures |line| < 7 ==> es == []
    ensures |line| >= 7 ==> es == PropertyEntriesAsWritten(line)
  {
    if |line| < 7 then [] else PropertyEntriesAsWritten(line)
  }

  /** One entry applied: an atom number that is not a loaded atom is
      skipped. */
  function ApplyEntry(atoms: seq<Atom>, kind: PropertyKind, e: (int, int)): (r: seq<Atom>)
    ensures |r| == |atoms|
  {
    if 0 <= e.0 - 1 < |atoms| then atoms[e.0 - 1 := SetProperty(atoms[e.0 - 1], kind, e.1)] else atoms
  }

  /** The entries applied in order. */
  function ApplyEntries(atoms: seq<Atom>, kind: PropertyKind, es: seq<(int, int)>): (r: seq<Atom>)
    ensures |r| == |atoms|
    decreases |es|
  {
    if es == [] then atoms
    else ApplyEntry(ApplyEntries(atoms, kind, es[..|es| - 1]), kind, es[|es| - 1])
  }

  /** An atom that no entry names keeps every field. */
  lemma {:induction false} ApplyEntriesUntouched(atoms: seq<Atom>, kind: PropertyKind, es: seq<(int, int)>, j: int)
    requires 0 <= j < |atoms|
    requires forall e :: e in es ==> e.0 != j + 1
    ensures ApplyEntries(atoms, kind, es)[j] == atoms[j]
    decreases |es|
  {
    if es != [] {
      var init := es[..|es| - 1];
      assert forall x :: x in init ==> x in es;
      ApplyEntriesUntouched(atoms, kind, init, j);
      assert es[|es| - 1] in es;
    }
  }

  /** Applying one more entry after a list of them. */
  lemma ApplyEntriesSnoc(atoms: seq<Atom>, kind: PropertyKind, es: seq<(int, int)>, e: (int, int))
    ensures ApplyEntries(atoms, kind, es + [e]) == ApplyEntry(ApplyEntries(atoms, kind, es), kind, e)
  {
    assert (es + [e])[..|es|] == es;
  }

  /** The property line kind, by prefix, in the order the Go code tests. */
  function PropertyKindOf(line: string): Option<PropertyKind>
  {
    if HasPrefix(line, "M  CHG") then Some(ChargeProperty)
    else if HasPrefix(line, "M  ISO") then Some(IsotopeProperty)
    else if HasPrefix(line, "M  RAD") then Some(RadicalProperty)
    else None
  }

  /** One trimmed line of the properties block applied to the atoms. */
  function ApplyPropertyLine(atoms: seq<Atom>, line: string): (r: seq<Atom>)
    ensures |r| == |atoms|
  {
    match PropertyKindOf(line)
    case None => atoms
    case Some(kind) => ApplyEntries(atoms, kind, PropertyEntries(line))
  }

  /** A trimmed line of fewer than seven characters leaves the atoms as
      they were, and "M  CHG" is such a line that is still selected as a
      charge line: the Go code slices it at seven characters and fails
      there, where the model reads it as holding no entries. */
  lemma ShortPropertyLine(atoms: seq<Atom>, line: string)
    requires |line| < 7
    ensures ApplyPropertyLine(atoms, line) == atoms
    ensures PropertyKindOf("M  CHG") == Some(ChargeProperty) && |"M  CHG"| < 7
  {
    assert HasPrefix("M  CHG", "M  CHG");
  }

  /** Every input line with its end of line and surrounding blanks removed. */
  function TrimmedLines(lines: seq<string>): (ts: seq<string>)
    ensures |ts| == |lines|
    ensures forall k :: 0 <= k < |lines| ==> ts[k] == TrimSpace(ReadLine(lines, k))
  {
    seq(|lines|, k requires 0 <= k < |lines| => TrimSpace(ReadLine(lines, k)))
  }

  /** Trimmed lines from `pos` on applied to the atoms until one starts
      with `M  END` or the lines run out. */
  function BlockFrom(atoms: seq<Atom>, ts: seq<string>, pos: nat): (r: seq<Atom>)
    ensures |r| == |atoms|
    decreases |ts| - pos
  {
    if pos >= |ts| then atoms
    else if HasPrefix(ts[pos], "M  END") then atoms
    else BlockFrom(ApplyPropertyLine(atoms, ts[pos]), ts, pos + 1)
  }

  /** `readPropertiesBlock`: lines from `pos` on are applied until one
      starts with `M  END` (after trimming) or the input ends. */
  function PropertyBlock(atoms: seq<Atom>, lines: seq<string>, pos: nat): (r: seq<Atom>)
    ensures |r| == |atoms|
  {
    BlockFrom(atoms, TrimmedLines(lines), pos)
  }

  /** The Go loop as written, given `fuel` iterations: it only leaves at an
      `M  END` line, since a read past the end yields "" and no error.
      `None` means the fuel ran out. */
  function PropertyLoopAsWritten(atoms: seq<Atom>, lines: seq<string>, pos: nat, fuel: nat): Option<seq<Atom>>
    decreases fuel
  {
    if fuel == 0 then None
    else
      var line := TrimSpace(ReadLine(lines, pos));
      if HasPrefix(line, "M  END") then Some(atoms)
      else PropertyLoopAsWritten(ApplyPropertyLine(atoms, line), lines, pos + 1, fuel - 1)
  }

  /** An input without an end marker from `pos` on keeps the Go loop
      running for any number of iterations. */
  lemma {:induction false} NoEndMarkerNeverStops(atoms: seq<Atom>, lines: seq<string>, pos: nat, fuel: nat)
    requires forall i :: pos <= i < |lines| ==> !HasPrefix(TrimSpace(ReadLine(lines, i)), "M  END")
    ensures PropertyLoopAsWritten(atoms, lines, pos, fuel) == None
    decreases fuel
  {
    if fuel > 0 {
      assert !HasPrefix(TrimSpace(ReadLine(lines, pos)), "M  END") by {
        if pos >= |lines| {
          assert ReadLine(lines, pos) == "";
          assert TrimSpace("") == "" by {
            assert TrimLeft("") == "";
            assert TrimRight("") == "";
          }
        }
      }
      var next := ApplyPropertyLine(atoms, TrimSpace(ReadLine(lines, pos)));
      NoEndMarkerNeverStops(next, lines, pos + 1, fuel - 1);
    }
  }

  /** With an end marker in the input, the Go loop stops there and yields
      what `PropertyBlock` yields. */
  lemma {:induction false} EndMarkerStops(atoms: seq<Atom>, lines: seq<string>, pos: nat, endPos: nat, fuel: nat)
    requires pos <= endPos < |lines| && EndLineAt(lines, endPos)
    requires fuel > endPos - pos
    ensures LoopsAgree(atoms, lines, pos, fuel)
    decreases endPos - pos
  {
    var isEnd, next := BothLoopsStep(atoms, lines, pos, fuel);
    if !isEnd {
      assert pos != endPos;
      EndMarkerStops(next, lines, pos + 1, endPos, fuel - 1);
    }
  }

  /** The Go loop as written, given `fuel` iterations, stops and yields
      what `PropertyBlock` yields. */
  predicate LoopsAgree(atoms: seq<Atom>, lines: seq<string>, pos: nat, fuel: nat)
  {
    PropertyLoopAsWritten(atoms, lines, pos, fuel) == Some(PropertyBlock(atoms, lines, pos))
  }

  /** Line `i`, trimmed, starts with the end marker. */
  predicate EndLineAt(lines: seq<string>, i: nat)
  {
    HasPrefix(TrimSpace(ReadLine(lines, i)), "M  END")
  }

  /** One iteration of the Go loop and of `PropertyBlock`: at an end marker
      both stop; at any other line both apply the line and go on, so they
      agree when they agree from the next line on. */
  lemma BothLoopsStep(atoms: seq<Atom>, lines: seq<string>, pos: nat, fuel: nat) returns (isEnd: bool, next: seq<Atom>)
    requires pos < |lines| && fuel > 0
    ensures isEnd == EndLineAt(lines, pos)
    ensures isEnd ==> LoopsAgree(atoms, lines, pos, fuel)
    ensures !isEnd && LoopsAgree(next, lines, pos + 1, fuel - 1) ==> LoopsAgree(atoms, lines, pos, fuel)
  {
    var ts := TrimmedLines(lines);
    var line := TrimSpace(ReadLine(lines, pos));
    assert ts[pos] == line;
    isEnd := HasPrefix(line, "M  END");
    next := ApplyPropertyLine(atoms, line);
  }

  // ---------------------------------------------------------------------
  // The whole file
  // ---------------------------------------------------------------------

  /** A loaded molecule: name, chiral flag, atoms and bonds. */
  datatype Loaded = Loaded(name: string, chiral: int, atoms: seq<Atom>, bonds: seq<Bond>)

  /** Each of the `n` atom lines from `start`, parsed on its own. */
  function AtomLines(lines: seq<string>, start: nat, n: nat, validFloat: string -> bool)
    : (rs: seq<Result<AtomFields>>)
    ensures |rs| == n
    ensures forall k :: 0 <= k < n ==> rs[k] == ParseAtomLine(ReadLine(lines, start + k), validFloat)
  {
    seq(n, k requires 0 <= k < n => ParseAtomLine(ReadLine(lines, start + k), validFloat))
  }

  /** The atoms of parsed atom lines, in order; the first line that failed
      gives the error, prefixed with its 1-based atom number. */
  function CollectAtoms(rs: seq<Result<AtomFields>>): (r: Result<seq<Atom>>)
    ensures r.Ok? ==> |r.value| == |rs|
    decreases |rs|
  {
    if rs == [] then Ok([])
    else
      match CollectAtoms(rs[..|rs| - 1])
      case Err(e) => Err(e)
      case Ok(atoms) =>
        match rs[|rs| - 1]
        case Err(e) => Err("error parsing atom " + IntToString(|rs|) + ": " + e)
        case Ok(f) => Ok(atoms + [LoadedAtom(f)])
  }

  /** The first `n` atom lines from `start`. */
  function ParseAtoms(lines: seq<string>, start: nat, n: nat, validFloat: string -> bool): (r: Result<seq<Atom>>)
    ensures r.Ok? ==> |r.value| == n
  {
    CollectAtoms(AtomLines(lines, start, n, validFloat))
  }

  /** Each of the `n` bond lines from `start`, parsed on its own against
      `atomCount` atoms. */
  function BondLines(lines: seq<string>, start: nat, n: nat, atomCount: int): (rs: seq<Result<BondFields>>)
    ensures |rs| == n
    ensures forall k :: 0 <= k < n ==> rs[k] == ParseBondLine(ReadLine(lines, start + k), atomCount)
  {
    seq(n, k requires 0 <= k < n => ParseBondLine(ReadLine(lines, start + k), atomCount))
  }

  /** The bonds of parsed bond lines, in order; the first line that failed
      gives the error, prefixed with its 1-based bond number. */
  function CollectBonds(rs: seq<Result<BondFields>>): (r: Result<seq<Bond>>)
    ensures r.Ok? ==> |r.value| == |rs|
    decreases |rs|
  {
    if rs == [] then Ok([])
    else
      match CollectBonds(rs[..|rs| - 1])
      case Err(e) => Err(e)
      case Ok(bonds) =>
        match rs[|rs| - 1]
        case Err(e) => Err("error parsing bond " + IntToString(|rs|) + ": " + e)
        case Ok(f) => Ok(bonds + [LoadedBond(f)])
  }

  /** The first `n` bond lines from `start`. */
  function ParseBonds(lines: seq<string>, start: nat, n: nat, atomCount: int): (r: Result<seq<Bond>>)
    ensures r.Ok? ==> |r.value| == n
  {
    CollectBonds(BondLines(lines, start, n, atomCount))
  }

  /** `LoadMolecule`: the header (the name on line 1), the counts line on
      line 4, the atom and bond blocks, then the properties block. A
      negative count reads no lines. Every bond joins two loaded atoms. */
  function LoadSpec(lines: seq<string>, validFloat: string -> bool): (r: Result<Loaded>)
    ensures r.Ok? ==> ParseCountsLine(ReadLine(lines, 3)).Ok?
    ensures r.Ok? ==> |r.value.atoms| == Max0(ParseCountsLine(ReadLine(lines, 3)).value.atoms)
    ensures r.Ok? ==> |r.value.bonds| == Max0(ParseCountsLine(ReadLine(lines, 3)).value.bonds)
  {
    match ParseCountsLine(ReadLine(lines, 3))
    case Err(e) => Err(e)
    case Ok(counts) => LoadBlocks(lines, counts, validFloat)
  }

  /** The part of `LoadMolecule` after the counts line. */
  function LoadBlocks(lines: seq<string>, counts: Counts, validFloat: string -> bool): (r: Result<Loaded>)
    ensures r.Ok? ==> |r.value.atoms| == Max0(counts.atoms) && |r.value.bonds| == Max0(counts.bonds)
    ensures r.Ok? ==> r.value.name == TrimSpace(ReadLine(lines, 0)) && r.value.chiral == counts.chiral
  {
    match ParseAtoms(lines, 4, Max0(counts.atoms), validFloat)
    case Err(e) => Err(e)
    case Ok(atoms) => LoadBonds(lines, counts, atoms)
  }

  /** The part of `LoadMolecule` after the atom block. */
  function LoadBonds(lines: seq<string>, counts: Counts, atoms: seq<Atom>): (r: Result<Loaded>)
    requires |atoms| == Max0(counts.atoms)
    ensures r.Ok? ==> |r.value.atoms| == Max0(counts.atoms) && |r.value.bonds| == Max0(counts.bonds)
    ensures r.Ok? ==> r.value.name == TrimSpace(ReadLine(lines, 0)) && r.value.chiral == counts.chiral
  {
    match ParseBonds(lines, 4 + Max0(counts.atoms), Max0(counts.bonds), Max0(counts.atoms))
    case Err(e) => Err(e)
    case Ok(bonds) => Ok(Finish(lines, counts, atoms, bonds))
  }

  /** The loaded molecule once both blocks have loaded: the header name,
      the chiral flag and the atoms after the properties block. */
  function Finish(lines: seq<string>, counts: Counts, atoms: seq<Atom>, bonds: seq<Bond>): (l: Loaded)
    ensures |l.atoms| == |atoms| && l.bonds == bonds
    ensures l.name == TrimSpace(ReadLine(lines, 0)) && l.chiral == counts.chiral
  {
    Loaded(TrimSpace(ReadLine(lines, 0)), counts.chiral,
           PropertyBlock(atoms, lines, 4 + Max0(counts.atoms) + Max0(counts.bonds)), bonds)
  }

  // ---------------------------------------------------------------------
  // The loader's steps on a molecule
  // ---------------------------------------------------------------------

  /** The atom half of `parseAtomLine`: add the atom, make it a pseudo atom
      or give it its isotope and charge, and record that coordinates are
      present. */
  method LoadAtom(mol: Molecule, f: AtomFields)
    requires mol.Valid()
    modifies mol`atoms, mol`vertices, mol`editRevision, mol`haveXYZ
    modifies mol`implicitH, mol`totalH, mol`connectivity, mol`valence
    ensures mol.Valid()
    ensures mol.atoms == old(mol.atoms) + [LoadedAtom(f)]
    ensures mol.haveXYZ
  {
    match f
    case PseudoFields(symbol) =>
      var idx := mol.AddAtom(Elements.ElemPseudo);
      mol.SetPseudoAtom(idx, symbol);
      mol.SetAtomXYZ(idx);
      mol.SetAtomXY(idx);
    case ElementFields(number, isotope, charge) =>
      var idx := mol.AddAtom(number);
      mol.SetAtomXYZ(idx);
      mol.SetAtomXY(idx);
      SetIsotopeAndCharge(mol, idx, isotope, charge);
  }

  /** The optional isotope, then the optional charge, of the atom just
      added. */
  method SetIsotopeAndCharge(mol: Molecule, idx: int, isotope: Option<int>, charge: Option<int>)
    requires mol.Valid() && 0 <= idx < |mol.atoms|
    modifies mol`atoms, mol`editRevision, mol`implicitH, mol`totalH, mol`connectivity, mol`valence
    ensures mol.Valid()
    ensures var a := old(mol.atoms)[idx];
            var a1 := if isotope.Some? then a.(isotope := isotope.value) else a;
            mol.atoms == old(mol.atoms)[idx := if charge.Some? then a1.(charge := charge.value) else a1]
  {
    if isotope.Some? {
      mol.SetAtomIsotope(idx, isotope.value);
    }
    if charge.Some? {
      mol.SetAtomCharge(idx, charge.value);
    }
  }

  /** The bond half of `parseBondLine`: add the bond, then set its
      direction when the stereo field gave one. */
  method LoadBond(mol: Molecule, f: BondFields)
    requires mol.Valid()
    requires 0 <= f.beg < |mol.atoms| && 0 <= f.end < |mol.atoms|
    modifies mol`bonds, mol`bondOrders, mol`vertices, mol`editRevision
    modifies mol`connectivity, mol`aromaticity, mol`implicitH, mol`totalH, mol`valence, mol`aromatized
    ensures mol.Valid()
    ensures mol.bonds == old(mol.bonds) + [LoadedBond(f)]
  {
    var idx := mol.AddBond(f.beg, f.end, f.order);
    if f.direction.Some? {
      mol.SetBondDirection(idx, f.direction.value);
    }
  }

  /** The setter a property line calls for one entry. */
  method SetAtomProperty(mol: Molecule, kind: PropertyKind, idx: int, v: int)
    requires mol.Valid() && 0 <= idx < |mol.atoms|
    modifies mol`atoms, mol`implicitH, mol`totalH, mol`connectivity, mol`valence, mol`editRevision
    ensures mol.Valid()
    ensures mol.atoms == old(mol.atoms)[idx := SetProperty(old(mol.atoms)[idx], kind, v)]
  {
    match kind
    case ChargeProperty => mol.SetAtomCharge(idx, v);
    case IsotopeProperty => mol.SetAtomIsotope(idx, v);
    case RadicalProperty => mol.SetAtomRadical(idx, v);
  }

  /** A pair that parsed, applied; one that did not, skipped. */
  function ApplyPairAt(atoms: seq<Atom>, kind: PropertyKind, pair: Option<(int, int)>): (r: seq<Atom>)
    ensures |r| == |atoms|
  {
    if pair.Some? then ApplyEntry(atoms, kind, pair.value) else atoms
  }

  /** Applying the present values of `ops[..i + 1]` is applying those of
      `ops[..i]` and then `ops[i]` when it is present. */
  lemma SomesStep(atoms: seq<Atom>, kind: PropertyKind, ops: seq<Option<(int, int)>>, i: nat)
    requires i < |ops|
    ensures ApplyEntries(atoms, kind, Somes(ops[..i + 1])) ==
              ApplyPairAt(ApplyEntries(atoms, kind, Somes(ops[..i])), kind, ops[i])
  {
    var es := Somes(ops[..i]);
    assert ops[..i + 1][..i] == ops[..i];
    match ops[i]
    case Some(e) =>
      assert Somes(ops[..i + 1]) == es + [e];
      ApplyEntriesSnoc(atoms, kind, es, e);
    case None =>
      assert Somes(ops[..i + 1]) == es;
  }

  /** One (atom number, value) pair of a property line: both numbers must
      parse and the atom must be loaded. */
  method ApplyPair(mol: Molecule, kind: PropertyKind, parts: seq<string>, i: nat)
    requires mol.Valid() && i * 2 + 2 < |parts|
    modifies mol`atoms, mol`implicitH, mol`totalH, mol`connectivity, mol`valence, mol`editRevision
    ensures mol.Valid()
    ensures mol.atoms == ApplyPairAt(old(mol.atoms), kind, PairAt(parts, i))
  {
    var atomNum := Atoi(parts[i * 2 + 1]);
    var value := Atoi(parts[i * 2 + 2]);
    if atomNum.Some? && value.Some? {
      var atomIdx := atomNum.value - 1;
      if atomIdx >= 0 && atomIdx < |mol.atoms| {
        SetAtomProperty(mol, kind, atomIdx, value.value);
      }
    }
  }

  /** `parseChargeProperty`, `parseIsotopeProperty` and
      `parseRadicalProperty`, which differ only in the setter: the count,
      then (atom number, value) pairs, each applied to a loaded atom. A line
      of fewer than seven characters, on which the Go slice would fail, is
      taken as holding no entries. */
  method ApplyProperty(mol: Molecule, kind: PropertyKind, line: string)
    requires mol.Valid()
    modifies mol`atoms, mol`implicitH, mol`totalH, mol`connectivity, mol`valence, mol`editRevision
    ensures mol.Valid()
    ensures mol.atoms == ApplyEntries(old(mol.atoms), kind, PropertyEntries(line))
  {
    if |line| < 7 {
      assert ApplyEntries(mol.atoms, kind, []) == mol.atoms;
      return;
    }
    var parts := Fields(line[7..]);
    assert PropertyEntries(line) == EntriesOfFields(parts);
    if |parts| < 3 {
      assert ApplyEntries(mol.atoms, kind, []) == mol.atoms;
      return;
    }
    var count := Atoi(parts[0]);
    if count.None? || count.value < 1 {
      assert ApplyEntries(mol.atoms, kind, []) == mol.atoms;
      return;
    }
    ApplyPairs(mol, kind, parts, count.value);
  }

  /** The loop over the pairs of a property line: at most `count` of them,
      as far as the fields go. */
  method ApplyPairs(mol: Molecule, kind: PropertyKind, parts: seq<string>, count: int)
    requires mol.Valid() && |parts| >= 3 && count >= 1
    modifies mol`atoms, mol`implicitH, mol`totalH, mol`connectivity, mol`valence, mol`editRevision
    ensures mol.Valid()
    ensures mol.atoms == ApplyEntries(old(mol.atoms), kind, Pairs(parts, Min(count, (|parts| - 1) / 2)))
  {
    ghost var n := Min(count, (|parts| - 1) / 2);
    ghost var ops := PairOps(parts, n);
    var i := 0;
    while i < count && i * 2 + 2 < |parts|
      invariant 0 <= i <= n
      invariant mol.Valid()
      invariant mol.atoms == ApplyEntries(old(mol.atoms), kind, Somes(ops[..i]))
    {
      SomesStep(old(mol.atoms), kind, ops, i);
      ApplyPair(mol, kind, parts, i);
      i := i + 1;
    }
    assert ops[..i] == ops;
  }

  /** One line of the properties block: a charge, isotope or radical
      line is applied, any other line is skipped. */
  method ReadPropertyLine(mol: Molecule, line: string)
    requires mol.Valid()
    modifies mol`atoms, mol`implicitH, mol`totalH, mol`connectivity, mol`valence, mol`editRevision
    ensures mol.Valid()
    ensures mol.atoms == ApplyPropertyLine(old(mol.atoms), line)
  {
    if HasPrefix(line, "M  CHG") {
      ApplyProperty(mol, ChargeProperty, line);
    } else if HasPrefix(line, "M  ISO") {
      ApplyProperty(mol, IsotopeProperty, line);
    } else if HasPrefix(line, "M  RAD") {
      ApplyProperty(mol, RadicalProperty, line);
    }
  }

  /** `readPropertiesBlock`, stopping at `M  END` or at the end of the
      input. */
  method ReadPropertiesBlock(mol: Molecule, lines: seq<string>, start: nat)
    requires mol.Valid()
    modifies mol`atoms, mol`implicitH, mol`totalH, mol`connectivity, mol`valence, mol`editRevision
    ensures mol.Valid()
    ensures mol.atoms == PropertyBlock(old(mol.atoms), lines, start)
  {
    ghost var ts := TrimmedLines(lines);
    var pos := start;
    while pos < |lines|
      invariant mol.Valid()
      invariant BlockFrom(mol.atoms, ts, pos) == BlockFrom(old(mol.atoms), ts, start)
      decreases |lines| - pos
    {
      var stop := ReadPropertyStep(mol, lines, pos, ts);
      if stop {
        return;
      }
      pos := pos + 1;
    }
    BlockStops(mol.atoms, ts, pos);
  }

  /** One turn of the `readPropertiesBlock` loop: the line at `pos` either
      ends the block or is applied. */
  method ReadPropertyStep(mol: Molecule, lines: seq<string>, pos: nat, ghost ts: seq<string>) returns (stop: bool)
    requires mol.Valid() && ts == TrimmedLines(lines) && pos < |lines|
    modifies mol`atoms, mol`implicitH, mol`totalH, mol`connectivity, mol`valence, mol`editRevision
    ensures mol.Valid()
    ensures stop ==> BlockFrom(old(mol.atoms), ts, pos) == mol.atoms
    ensures !stop ==> BlockFrom(old(mol.atoms), ts, pos) == BlockFrom(mol.atoms, ts, pos + 1)
  {
    var line := TrimSpace(ReadLine(lines, pos));
    assert line == ts[pos];
    if HasPrefix(line, "M  END") {
      BlockStops(mol.atoms, ts, pos);
      return true;
    }
    ghost var prev := mol.atoms;
    ReadPropertyLine(mol, line);
    BlockStep(prev, ts, pos);
    return false;
  }

  lemma BlockStops(atoms: seq<Atom>, ts: seq<string>, pos: nat)
    requires pos >= |ts| || HasPrefix(ts[pos], "M  END")
    ensures BlockFrom(atoms, ts, pos) == atoms
  {
  }

  lemma BlockStep(atoms: seq<Atom>, ts: seq<string>, pos: nat)
    requires pos < |ts| && !HasPrefix(ts[pos], "M  END")
    ensures BlockFrom(atoms, ts, pos) == BlockFrom(ApplyPropertyLine(atoms, ts[pos]), ts, pos + 1)
  {
  }

  /** One more parsed atom line after `i` successful ones. */
  lemma CollectAtomsNext(rs: seq<Result<AtomFields>>, i: nat)
    requires i < |rs| && CollectAtoms(rs[..i]).Ok?
    ensures CollectAtoms(rs[..i + 1]) ==
              match rs[i]
              case Err(e) => Err("error parsing atom " + IntToString(i + 1) + ": " + e)
              case Ok(f) => Ok(CollectAtoms(rs[..i]).value + [LoadedAtom(f)])
  {
    assert rs[..i + 1][..i] == rs[..i];
  }

  /** One more parsed bond line after `j` successful ones. */
  lemma CollectBondsNext(rs: seq<Result<BondFields>>, j: nat)
    requires j < |rs| && CollectBonds(rs[..j]).Ok?
    ensures CollectBonds(rs[..j + 1]) ==
              match rs[j]
              case Err(e) => Err("error parsing bond " + IntToString(j + 1) + ": " + e)
              case Ok(f) => Ok(CollectBonds(rs[..j]).value + [LoadedBond(f)])
  {
    assert rs[..j + 1][..j] == rs[..j];
  }

  /** Once an atom line fails, the lines after it do not change the error. */
  lemma {:induction false} CollectAtomsErrorStays(rs: seq<Result<AtomFields>>, i: nat)
    requires i <= |rs| && CollectAtoms(rs[..i]).Err?
    ensures CollectAtoms(rs) == CollectAtoms(rs[..i])
    decreases |rs|
  {
    if i == |rs| {
      assert rs[..i] == rs;
    } else {
      var init := rs[..|rs| - 1];
      assert init[..i] == rs[..i];
      CollectAtomsErrorStays(init, i);
    }
  }

  /** Once a bond line fails, the lines after it do not change the error. */
  lemma {:induction false} CollectBondsErrorStays(rs: seq<Result<BondFields>>, j: nat)
    requires j <= |rs| && CollectBonds(rs[..j]).Err?
    ensures CollectBonds(rs) == CollectBonds(rs[..j])
    decreases |rs|
  {
    if j == |rs| {
      assert rs[..j] == rs;
    } else {
      var init := rs[..|rs| - 1];
      assert init[..j] == rs[..j];
      CollectBondsErrorStays(init, j);
    }
  }

  /** The atom block of `LoadMolecule`: `count` atom lines from line 5 on,
      stopping at the first that fails. */
  method LoadAtomBlock(mol: Molecule, lines: seq<string>, count: int, validFloat: string -> bool)
    returns (err: Option<string>)
    requires mol.Valid() && mol.atoms == [] && !mol.haveXYZ
    modifies mol`atoms, mol`vertices, mol`editRevision, mol`haveXYZ
    modifies mol`implicitH, mol`totalH, mol`connectivity, mol`valence
    ensures mol.Valid()
    ensures ParseAtoms(lines, 4, Max0(count), validFloat).Err? ==>
              err == Some(ParseAtoms(lines, 4, Max0(count), validFloat).error)
    ensures ParseAtoms(lines, 4, Max0(count), validFloat).Ok? ==>
              err.None? && mol.atoms == ParseAtoms(lines, 4, Max0(count), validFloat).value &&
              mol.haveXYZ == (count > 0)
  {
    ghost var rs := AtomLines(lines, 4, Max0(count), validFloat);
    var i := 0;
    while i < count
      invariant 0 <= i <= Max0(count)
      invariant mol.Valid()
      invariant CollectAtoms(rs[..i]) == Ok(mol.atoms)
      invariant mol.haveXYZ == (i > 0)
    {
      CollectAtomsNext(rs, i);
      var f := ParseAtomLine(ReadLine(lines, 4 + i), validFloat);
      assert f == rs[i];
      if f.Err? {
        var msg := "error parsing atom " + IntToString(i + 1) + ": " + f.error;
        CollectAtomsErrorStays(rs, i + 1);
        return Some(msg);
      }
      LoadAtom(mol, f.value);
      i := i + 1;
    }
    assert rs[..i] == rs;
    return None;
  }

  /** The bond block of `LoadMolecule`: `count` bond lines from `start`. */
  method LoadBondBlock(mol: Molecule, lines: seq<string>, start: nat, count: int) returns (err: Option<string>)
    requires mol.Valid() && mol.bonds == []
    modifies mol`bonds, mol`bondOrders, mol`vertices, mol`editRevision
    modifies mol`connectivity, mol`aromaticity, mol`implicitH, mol`totalH, mol`valence, mol`aromatized
    ensures mol.Valid()
    ensures ParseBonds(lines, start, Max0(count), |mol.atoms|).Err? ==>
              err == Some(ParseBonds(lines, start, Max0(count), |mol.atoms|).error)
    ensures ParseBonds(lines, start, Max0(count), |mol.atoms|).Ok? ==>
              err.None? && mol.bonds == ParseBonds(lines, start, Max0(count), |mol.atoms|).value
  {
    ghost var rs := BondLines(lines, start, Max0(count), |mol.atoms|);
    var j := 0;
    while j < count
      invariant 0 <= j <= Max0(count)
      invariant mol.Valid()
      invariant CollectBonds(rs[..j]) == Ok(mol.bonds)
    {
      CollectBondsNext(rs, j);
      var f := ParseBondLine(ReadLine(lines, start + j), |mol.atoms|);
      assert f == rs[j];
      if f.Err? {
        var msg := "error parsing bond " + IntToString(j + 1) + ": " + f.error;
        CollectBondsErrorStays(rs, j + 1);
        return Some(msg);
      }
      LoadBond(mol, f.value);
      j := j + 1;
    }
    assert rs[..j] == rs;
    return None;
  }

  /** The blocks of `LoadBlocks` loaded into an empty molecule: the atoms,
      then the bonds, then the properties block; the first error ends the
      load. */
  method LoadBlocksInto(mol: Molecule, lines: seq<string>, counts: Counts, validFloat: string -> bool)
    returns (err: Option<string>)
    requires mol.Valid() && mol.atoms == [] && mol.bonds == [] && !mol.haveXYZ
    modifies mol`atoms, mol`vertices, mol`editRevision, mol`haveXYZ
    modifies mol`bonds, mol`bondOrders, mol`aromaticity, mol`aromatized
    modifies mol`implicitH, mol`totalH, mol`connectivity, mol`valence
    ensures mol.Valid()
    ensures err.Some? <==> LoadBlocks(lines, counts, validFloat).Err?
    ensures err.Some? ==> LoadBlocks(lines, counts, validFloat) == Err(err.value)
    ensures err.None? ==>
              var l := LoadBlocks(lines, counts, validFloat).value;
              mol.atoms == l.atoms && mol.bonds == l.bonds && mol.haveXYZ == (l.atoms != [])
  {
    err := LoadAtomBlock(mol, lines, counts.atoms, validFloat);
    if err.Some? {
      return;
    }
    ghost var atoms := mol.atoms;
    err := LoadBondsInto(mol, lines, counts, atoms);
    LoadBlocksSteps(lines, counts, validFloat, atoms);
  }

  /** `LoadBlocks` once the atom block has loaded. */
  lemma LoadBlocksSteps(lines: seq<string>, counts: Counts, validFloat: string -> bool, atoms: seq<Atom>)
    requires ParseAtoms(lines, 4, Max0(counts.atoms), validFloat) == Ok(atoms)
    ensures |atoms| == Max0(counts.atoms)
    ensures var pb := ParseBonds(lines, 4 + Max0(counts.atoms), Max0(counts.bonds), Max0(counts.atoms));
            LoadBlocks(lines, counts, validFloat) == if pb.Err? then Err(pb.error) else Ok(Finish(lines, counts, atoms, pb.value))
  {
  }

  /** What `LoadBonds` yields when the bond block loads. */
  lemma LoadBondsOk(lines: seq<string>, counts: Counts, atoms: seq<Atom>, bonds: seq<Bond>)
    requires |atoms| == Max0(counts.atoms)
    requires ParseBonds(lines, 4 + Max0(counts.atoms), Max0(counts.bonds), Max0(counts.atoms)) == Ok(bonds)
    ensures LoadBonds(lines, counts, atoms) == Ok(Finish(lines, counts, atoms, bonds))
  {
  }

  /** The blocks of `LoadBonds` loaded into a molecule holding the atom
      block: the bonds, then the properties block. */
  method LoadBondsInto(mol: Molecule, lines: seq<string>, counts: Counts, ghost atoms: seq<Atom>)
    returns (err: Option<string>)
    requires mol.Valid() && mol.atoms == atoms && |atoms| == Max0(counts.atoms) && mol.bonds == []
    modifies mol`atoms, mol`vertices, mol`editRevision
    modifies mol`bonds, mol`bondOrders, mol`aromaticity, mol`aromatized
    modifies mol`implicitH, mol`totalH, mol`connectivity, mol`valence
    ensures mol.Valid()
    ensures var pb := ParseBonds(lines, 4 + Max0(counts.atoms), Max0(counts.bonds), Max0(counts.atoms));
            pb.Err? ==> err == Some(pb.error)
    ensures var pb := ParseBonds(lines, 4 + Max0(counts.atoms), Max0(counts.bonds), Max0(counts.atoms));
            pb.Ok? ==> err.None? && mol.bonds == pb.value && mol.atoms == Finish(lines, counts, atoms, pb.value).atoms
  {
    var na := Max0(counts.atoms);
    var nb := Max0(counts.bonds);
    err := LoadBondBlock(mol, lines, 4 + na, counts.bonds);
    if err.None? {
      assert mol.atoms == atoms;
      ReadPropertiesBlock(mol, lines, 4 + na + nb);
      assert mol.atoms == PropertyBlock(atoms, lines, 4 + na + nb);
    }
  }

  /** `LoadMolecule`: a new molecule holding what `LoadSpec` describes, or
      the error `LoadSpec` reports. */
  method LoadMolecule(lines: seq<string>, validFloat: string -> bool) returns (r: Result<Molecule>)
    ensures r.Ok? <==> LoadSpec(lines, validFloat).Ok?
    ensures r.Err? ==> LoadSpec(lines, validFloat) == Err(r.error)
    ensures r.Ok? ==> fresh(r.value) && r.value.Valid()
    ensures r.Ok? ==>
              var l := LoadSpec(lines, validFloat).value;
              r.value.name == l.name && r.value.chiralFlag == l.chiral &&
              r.value.atoms == l.atoms && r.value.bonds == l.bonds && r.value.haveXYZ == (l.atoms != [])
  {
    var mol := new Molecule();
    var name := TrimSpace(ReadLine(lines, 0));
    var counts := ParseCountsLine(ReadLine(lines, 3));
    if counts.Err? {
      return Err(counts.error);
    }
    var err := LoadBlocksInto(mol, lines, counts.value, validFloat);
    if err.Some? {
      return Err(err.value);
    }
    // Go stores the name and the chiral flag as soon as it reads them; on
    // an error the molecule is dropped, so storing them last is the same.
    mol.name := name;
    mol.chiralFlag := counts.value.chiral;
    return Ok(mol);
  }
}
