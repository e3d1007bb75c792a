/** Writing an MDL molfile (V2000) from a molecule (src/molfile_saver.go).
    The writer's content is the sequence of lines written so far; each line
    goes out followed by a line feed. Two inputs are parameters: the time
    stamp on the second header line (Go formats the clock) and the
    coordinate columns of each atom (Go formats floats with `%10.4f`,
    taking 3D or 2D positions by `HaveXYZ`). */
module MolfileSaver {
  import opened Wrappers
  import opened Text
  import Elements
  import opened MoleculeGraph
  import opened MolfileLoader

  // ---------------------------------------------------------------------
  // Code conversions
  // ---------------------------------------------------------------------

  /** `convertBondTypeToMol`: single, double, triple and aromatic are 1..4;
      every other order is written as single. */
  function BondTypeToMol(order: int): (code: int)
    ensures 1 <= code <= 4
    ensures code != 1 <==> order == BondDouble || order == BondTriple || order == BondAromatic
  {
    if order == BondSingle then 1
    else if order == BondDouble then 2
    else if order == BondTriple then 3
    else if order == BondAromatic then 4
    else 1
  }

  /** `convertDirectionToStereo`: up is 1, down 6, either 4, anything else 0. */
  function DirectionToStereo(direction: int): (stereo: int)
    ensures stereo == 0 || stereo == 1 || stereo == 4 || stereo == 6
    ensures stereo != 0 <==> direction == BondUp || direction == BondDown || direction == BondEither
  {
    if direction == BondUp then 1
    else if direction == BondDown then 6
    else if direction == BondEither then 4
    else 0
  }

  /** `convertChargeToCode`: charges +3..+1 are codes 1..3, -1..-3 are 5..7;
      every other charge is code 0 and is carried by the `M  CHG` lines. */
  function ChargeToCode(charge: int): (code: int)
    ensures 0 <= code <= 7 && code != 4
    ensures code != 0 <==> -3 <= charge <= 3 && charge != 0
  {
    if charge == 3 then 1
    else if charge == 2 then 2
    else if charge == 1 then 3
    else if charge == -1 then 5
    else if charge == -2 then 6
    else if charge == -3 then 7
    else 0
  }

  /** The writer's bond codes and the reader's are inverse on the four
      orders and codes they share. */
  lemma BondTypeInverse(order: int, code: int)
    ensures BondSingle <= order <= BondAromatic ==> ConvertBondType(BondTypeToMol(order)) == order
    ensures 1 <= code <= 4 ==> BondTypeToMol(ConvertBondType(code)) == code
    ensures !(BondSingle <= order <= BondAromatic) ==> ConvertBondType(BondTypeToMol(order)) == BondSingle
  {
  }

  /** The stereo codes are inverse on up, down and either (codes 1, 6, 4). */
  lemma StereoInverse(direction: int, stereo: int)
    ensures direction == BondUp || direction == BondDown || direction == BondEither ==>
              ConvertStereo(DirectionToStereo(direction)) == direction
    ensures stereo == 1 || stereo == 4 || stereo == 6 ==> DirectionToStereo(ConvertStereo(stereo)) == stereo
  {
  }

  /** The charge codes are inverse on charges -3..3 and on the codes 1..7
      other than 4 (the doublet radical code, which carries no charge). */
  lemma ChargeCodeInverse(charge: int, code: int)
    ensures -3 <= charge <= 3 ==> ConvertChargeCode(ChargeToCode(charge)) == charge
    ensures 1 <= code <= 7 && code != 4 ==> ChargeToCode(ConvertChargeCode(code)) == code
  {
  }

  // ---------------------------------------------------------------------
  // Header, counts, atom and bond lines
  // ---------------------------------------------------------------------

  /** The first header line: the name, or "Untitled" for none. */
  function HeaderName(name: string): (line: string)
    ensures line != []
    ensures name != [] ==> line == name
  {
    if name == "" then "Untitled" else name
  }

  /** The second header line: program name, time stamp and "2D". */
  function ProgramLine(stamp: string): string
  {
    "  go-chem" + stamp + "2D"
  }

  const CountsMiddle: string := "  0  0"
  const CountsTail: string := "  0  0  0  0  0999 V2000"

  /** `writeCountsLine`: atom and bond counts right-aligned in three columns
      each, and the chiral flag 1 when `ChiralFlag` is positive, else 0;
      Go's `"  %d"` on that one digit fills three columns, right-aligned. */
  function CountsLine(numAtoms: int, numBonds: int, chiralFlag: int): string
  {
    var chiral := if chiralFlag > 0 then 1 else 0;
    PadLeft(IntToString(numAtoms), 3) + PadLeft(IntToString(numBonds), 3) + CountsMiddle +
    PadLeft(IntToString(chiral), 3) + CountsTail
  }

  /** The symbol column: the element symbol, or the pseudo atom's label
      ("R" when it has none). */
  function AtomSymbol(a: Atom): (s: string)
    ensures a.number == Elements.ElemPseudo ==> s != []
  {
    if a.number == Elements.ElemPseudo then
      (if a.pseudoAtomValue == "" then "R" else a.pseudoAtomValue)
    else Elements.ElementSymbol(a.number)
  }

  /** The mass difference column: for an atom with an isotope, the isotope
      less the standard mass, clamped to -3..4; otherwise 0. */
  function MassDiff(a: Atom): (d: int)
    ensures -3 <= d <= 4
    ensures a.isotope <= 0 ==> d == 0
    ensures a.isotope > 0 && -3 <= a.isotope - StandardMass(a.number) <= 4 ==>
              d == a.isotope - StandardMass(a.number)
    ensures a.isotope > 0 && a.isotope - StandardMass(a.number) < -3 ==> d == -3
    ensures a.isotope > 0 && a.isotope - StandardMass(a.number) > 4 ==> d == 4
  {
    if a.isotope > 0 then
      var diff := a.isotope - StandardMass(a.number);
      if diff < -3 then -3 else if diff > 4 then 4 else diff
    else 0
  }

  /** The fixed tail of an atom line. */
  const AtomTail: string := "  0  0  0  0  0  0  0  0  0  0"

  /** `writeAtomLine`: the coordinate columns `coords`, a blank, the symbol
      left-aligned in three columns, the mass difference in two and the
      charge code in three, then ten zero columns. */
  function AtomLine(coords: string, a: Atom): string
  {
    coords + " " + PadRight(AtomSymbol(a), 3) + PadLeft(IntToString(MassDiff(a)), 2) +
    PadLeft(IntToString(ChargeToCode(a.charge)), 3) + AtomTail
  }

  /** `writeBondLine`: the 1-based atom numbers, the bond code and the
      stereo code, three columns each, then three zero columns. */
  function BondLine(b: Bond): string
  {
    BondColumns(IntToString(b.beg + 1), IntToString(b.end + 1),
                IntToString(BondTypeToMol(b.order)), IntToString(DirectionToStereo(b.direction)))
  }

  /** The fixed tail of a bond line. */
  const BondTail: string := "  0  0  0"

  /** Four right-aligned three-column fields and the unused columns. */
  function BondColumns(first: string, second: string, kind: string, stereo: string): string
  {
    PadLeft(first, 3) + PadLeft(second, 3) + PadLeft(kind, 3) + PadLeft(stereo, 3) + BondTail
  }

  // ---------------------------------------------------------------------
  // The properties block
  // ---------------------------------------------------------------------

  /** Whether an atom goes on a line of this kind: a non-zero charge, a
      positive isotope, a positive radical. */
  predicate Listed(a: Atom, kind: PropertyKind)
  {
    match kind
    case ChargeProperty => a.charge != 0
    case IsotopeProperty => a.isotope > 0
    case RadicalProperty => a.radical > 0
  }

  /** The value a property line carries for an atom. */
  function Value(a: Atom, kind: PropertyKind): int
  {
    match kind
    case ChargeProperty => a.charge
    case IsotopeProperty => a.isotope
    case RadicalProperty => a.radical
  }

  /** The three-letter tag after "M  ". */
  function Tag(kind: PropertyKind): string
  {
    match kind
    case ChargeProperty => "CHG"
    case IsotopeProperty => "ISO"
    case RadicalProperty => "RAD"
  }

  /** The (1-based atom number, value) entries of the first `n` atoms that
      are listed for this kind, in atom order: the pairs Go collects into
      `chargedAtoms`/`charges` and the like. */
  function Entries(atoms: seq<Atom>, kind: PropertyKind, n: nat): (es: seq<(int, int)>)
    requires n <= |atoms|
    ensures |es| <= n
  {
    if n == 0 then []
    else if Listed(atoms[n - 1], kind) then Entries(atoms, kind, n - 1) + [(n, Value(atoms[n - 1], kind))]
    else Entries(atoms, kind, n - 1)
  }

  /** One entry written as " %3d %3d". */
  function EntryText(e: (int, int)): string
  {
    " " + PadLeft(IntToString(e.0), 3) + " " + PadLeft(IntToString(e.1), 3)
  }

  /** The entries written one after another. */
  function EntriesText(es: seq<(int, int)>): string
  {
    if es == [] then "" else EntryText(es[0]) + EntriesText(es[1..])
  }

  /** One property line: "M  ", the tag, the entry count in three columns
      and the entries. */
  function ChunkLine(kind: PropertyKind, chunk: seq<(int, int)>): string
  {
    "M  " + Tag(kind) + (PadLeft(IntToString(|chunk|), 3) + EntriesText(chunk))
  }

  /** The property lines for the entries from `start` on: eight entries a
      line, the last line taking what is left. */
  function ChunkLinesFrom(kind: PropertyKind, es: seq<(int, int)>, start: nat): (ls: seq<string>)
    decreases |es| - start
  {
    if start >= |es| then []
    else
      var end := if start + 8 > |es| then |es| else start + 8;
      [ChunkLine(kind, es[start..end])] + ChunkLinesFrom(kind, es, start + 8)
  }

  /** The chunks the lines are made of, from `start` on. */
  function ChunksFrom(es: seq<(int, int)>, start: nat): (cs: seq<seq<(int, int)>>)
    decreases |es| - start
  {
    if start >= |es| then []
    else
      var end := if start + 8 > |es| then |es| else start + 8;
      [es[start..end]] + ChunksFrom(es, start + 8)
  }

  function Flatten(cs: seq<seq<(int, int)>>): seq<(int, int)>
  {
    if cs == [] then [] else cs[0] + Flatten(cs[1..])
  }

  /** The chunks cover the entries from `start` on, in order, each holding
      one to eight of them: every listed atom appears on exactly one line. */
  lemma {:induction false} ChunksCover(es: seq<(int, int)>, start: nat)
    requires start <= |es|
    ensures Flatten(ChunksFrom(es, start)) == es[start..]
    ensures forall k :: 0 <= k < |ChunksFrom(es, start)| ==> 1 <= |ChunksFrom(es, start)[k]| <= 8
    decreases |es| - start
  {
    if start < |es| {
      var end := if start + 8 > |es| then |es| else start + 8;
      if start + 8 <= |es| {
        ChunksCover(es, start + 8);
      } else {
        assert ChunksFrom(es, start + 8) == [];
      }
      var cs := ChunksFrom(es, start);
      assert cs[1..] == ChunksFrom(es, start + 8);
      assert es[start..] == es[start..end] + es[end..];
    }
  }

  /** Line `k` is the line of chunk `k`, and there are as many lines as
      chunks. */
  lemma {:induction false} ChunkLinesAreChunks(kind: PropertyKind, es: seq<(int, int)>, start: nat)
    ensures |ChunkLinesFrom(kind, es, start)| == |ChunksFrom(es, start)|
    ensures forall k :: 0 <= k < |ChunksFrom(es, start)| ==>
              ChunkLinesFrom(kind, es, start)[k] == ChunkLine(kind, ChunksFrom(es, start)[k])
    decreases |es| - start
  {
    if start < |es| {
      ChunkLinesAreChunks(kind, es, start + 8);
    }
  }

  /** What the entries are: atom `i` (1-based) is listed with its value
      exactly when it carries the property, and the atom numbers rise
      strictly, so no atom is listed twice. */
  lemma {:induction false} EntriesSpec(atoms: seq<Atom>, kind: PropertyKind, n: nat)
    requires n <= |atoms|
    ensures forall i, v :: (i, v) in Entries(atoms, kind, n) <==>
              1 <= i <= n && Listed(atoms[i - 1], kind) && v == Value(atoms[i - 1], kind)
    ensures forall j, k :: 0 <= j < k < |Entries(atoms, kind, n)| ==>
              Entries(atoms, kind, n)[j].0 < Entries(atoms, kind, n)[k].0
    ensures forall j :: 0 <= j < |Entries(atoms, kind, n)| ==> 1 <= Entries(atoms, kind, n)[j].0 <= n
  {
    if n > 0 {
      EntriesSpec(atoms, kind, n - 1);
    }
  }

  /** All lines of one kind. */
  function PropertyLines(atoms: seq<Atom>, kind: PropertyKind): seq<string>
  {
    ChunkLinesFrom(kind, Entries(atoms, kind, |atoms|), 0)
  }

  /** `writePropertiesBlock`: charge lines, then isotope lines, then
      radical lines. */
  function PropertiesBlock(atoms: seq<Atom>): seq<string>
  {
    PropertyLines(atoms, ChargeProperty) + PropertyLines(atoms, IsotopeProperty) +
    PropertyLines(atoms, RadicalProperty)
  }

  /** `SaveMolecule`: three header lines, the counts line, one line per
      atom and per bond, the properties block and the end marker. */
  function SavedLines(name: string, stamp: string, chiralFlag: int, atoms: seq<Atom>, bonds: seq<Bond>,
                      coords: int -> string): seq<string>
  {
    SavedHead(name, stamp, chiralFlag, |atoms|, |bonds|) + AtomBlock(atoms, coords) + BondBlock(bonds) + PropertiesBlock(atoms) + ["M  END"]
  }

  /** One atom line per atom, in order. */
  function AtomBlock(atoms: seq<Atom>, coords: int -> string): (ls: seq<string>)
    ensures |ls| == |atoms|
    ensures forall i :: 0 <= i < |atoms| ==> ls[i] == AtomLine(coords(i), atoms[i])
  {
    seq(|atoms|, i requires 0 <= i < |atoms| => AtomLine(coords(i), atoms[i]))
  }

  /** One bond line per bond, in order. */
  function BondBlock(bonds: seq<Bond>): (ls: seq<string>)
    ensures |ls| == |bonds|
    ensures forall k :: 0 <= k < |bonds| ==> ls[k] == BondLine(bonds[k])
  {
    seq(|bonds|, k requires 0 <= k < |bonds| => BondLine(bonds[k]))
  }

  /** The first four lines `SaveMolecule` writes. */
  function SavedHead(name: string, stamp: string, chiralFlag: int, atomCount: int, bondCount: int): (h: seq<string>)
    ensures |h| == 4 && h[0] == HeaderName(name) && h[3] == CountsLine(atomCount, bondCount, chiralFlag)
  {
    [HeaderName(name), ProgramLine(stamp), "", CountsLine(atomCount, bondCount, chiralFlag)]
  }

  /** `SaveMoleculeToString`: every line followed by a line feed. */
  function Output(lines: seq<string>): string
  {
    if lines == [] then "" else Output(lines[..|lines| - 1]) + lines[|lines| - 1] + "\n"
  }

  /** Appending one more entry's text to the entries written so far. */
  lemma {:induction false} EntriesTextSnoc(es: seq<(int, int)>, i: nat)
    requires i < |es|
    ensures EntriesText(es[..i + 1]) == EntriesText(es[..i]) + EntryText(es[i])
  {
    var t := es[..i + 1];
    if i == 0 {
      assert t[1..] == [];
    } else {
      var rest := es[1..];
      assert t[1..] == rest[..i];
      assert es[..i][1..] == rest[..i - 1];
      EntriesTextSnoc(rest, i - 1);
      Assoc(EntryText(es[0]), EntriesText(rest[..i - 1]), EntryText(es[i]));
    }
  }
}
