// Where `SaveMolecule` puts each line of a saved molecule.

module MolfileLayout {
  import opened MoleculeGraph
  import opened MolfileSaver

  /** Line `j` of five concatenated parts, for `j` inside the first three. */
  lemma PartAt(h: seq<string>, x: seq<string>, y: seq<string>, p: seq<string>, e: seq<string>, j: int)
    requires 0 <= j < |h| + |x| + |y|
    ensures (h + x + y + p + e)[j] == if j < |h| then h[j] else if j < |h| + |x| then x[j - |h|] else y[j - |h| - |x|]
  {
  }

  /** Line `4 + i` of a saved molecule is line `i` of the atom block. */
  lemma SavedAtomBlockAt(name: string, stamp: string, chiralFlag: int, atoms: seq<Atom>, bonds: seq<Bond>,
                         coords: int -> string, i: int)
    requires 0 <= i < |atoms|
    ensures SavedLines(name, stamp, chiralFlag, atoms, bonds, coords)[4 + i] == AtomBlock(atoms, coords)[i]
  {
  }

  /** Line `4 + |atoms| + k` of a saved molecule is line `k` of the bond
      block. */
  lemma SavedBondBlockAt(name: string, stamp: string, chiralFlag: int, atoms: seq<Atom>, bonds: seq<Bond>,
                         coords: int -> string, k: int)
    requires 0 <= k < |bonds|
    ensures SavedLines(name, stamp, chiralFlag, atoms, bonds, coords)[4 + |atoms| + k] == BondBlock(bonds)[k]
  {
  }

  /** Line `4 + i` of a saved molecule is atom `i`'s line. */
  lemma SavedAtomLineAt(name: string, stamp: string, chiralFlag: int, atoms: seq<Atom>, bonds: seq<Bond>,
                        coords: int -> string, i: int)
    requires 0 <= i < |atoms|
    ensures SavedLines(name, stamp, chiralFlag, atoms, bonds, coords)[4 + i] == AtomLine(coords(i), atoms[i])
  {
    SavedAtomBlockAt(name, stamp, chiralFlag, atoms, bonds, coords, i);
  }

  /** Line `4 + |atoms| + k` of a saved molecule is bond `k`'s line. */
  lemma SavedBondLineAt(name: string, stamp: string, chiralFlag: int, atoms: seq<Atom>, bonds: seq<Bond>,
                        coords: int -> string, k: int)
    requires 0 <= k < |bonds|
    ensures SavedLines(name, stamp, chiralFlag, atoms, bonds, coords)[4 + |atoms| + k] == BondLine(bonds[k])
  {
    SavedBondBlockAt(name, stamp, chiralFlag, atoms, bonds, coords, k);
  }

  /** `SaveMolecule` puts the name first and the counts line fourth, and
      writes more lines than the header, atom and bond lines. */
  lemma SavedHeadAt(name: string, stamp: string, chiralFlag: int, atoms: seq<Atom>, bonds: seq<Bond>,
                    coords: int -> string)
    ensures var ls := SavedLines(name, stamp, chiralFlag, atoms, bonds, coords);
      |ls| > 4 + |atoms| + |bonds| && ls[0] == HeaderName(name) && ls[3] == CountsLine(|atoms|, |bonds|, chiralFlag)
  {
    var h := SavedHead(name, stamp, chiralFlag, |atoms|, |bonds|);
    PartAt(h, AtomBlock(atoms, coords), BondBlock(bonds), PropertiesBlock(atoms), ["M  END"], 0);
    PartAt(h, AtomBlock(atoms, coords), BondBlock(bonds), PropertiesBlock(atoms), ["M  END"], 3);
  }

  /** `SaveMolecule` writes atom `i`'s line as line `4 + i`. */
  lemma SavedAtomLinesAt(name: string, stamp: string, chiralFlag: int, atoms: seq<Atom>, bonds: seq<Bond>,
                         coords: int -> string)
    ensures var ls := SavedLines(name, stamp, chiralFlag, atoms, bonds, coords);
      forall i :: 0 <= i < |atoms| ==> ls[4 + i] == AtomLine(coords(i), atoms[i])
  {
    var ls := SavedLines(name, stamp, chiralFlag, atoms, bonds, coords);
    forall i | 0 <= i < |atoms|
      ensures 4 + i < |ls| && ls[4 + i] == AtomLine(coords(i), atoms[i])
    {
      SavedAtomLineAt(name, stamp, chiralFlag, atoms, bonds, coords, i);
    }
  }

  /** `SaveMolecule` writes bond `k`'s line after the atom lines, as line
      `4 + |atoms| + k`. */
  lemma SavedBondLinesAt(name: string, stamp: string, chiralFlag: int, atoms: seq<Atom>, bonds: seq<Bond>,
                         coords: int -> string)
    ensures var ls := SavedLines(name, stamp, chiralFlag, atoms, bonds, coords);
      forall k :: 0 <= k < |bonds| ==> ls[4 + |atoms| + k] == BondLine(bonds[k])
  {
    var ls := SavedLines(name, stamp, chiralFlag, atoms, bonds, coords);
    forall k | 0 <= k < |bonds|
      ensures 4 + |atoms| + k < |ls| && ls[4 + |atoms| + k] == BondLine(bonds[k])
    {
      SavedBondLineAt(name, stamp, chiralFlag, atoms, bonds, coords, k);
    }
  }

  /** Lines laid out as `SaveMolecule` lays them out: the name first, the
      counts line fourth, then one line per atom and one per bond, and
      more lines after those. */
  predicate LaidOut(ls: seq<string>, name: string, chiralFlag: int, atoms: seq<Atom>, bonds: seq<Bond>,
                    coords: int -> string)
  {
    |ls| > 4 + |atoms| + |bonds| && ls[0] == HeaderName(name) &&
    ls[3] == CountsLine(|atoms|, |bonds|, chiralFlag) &&
    (forall i :: 0 <= i < |atoms| ==> ls[4 + i] == AtomLine(coords(i), atoms[i])) &&
    (forall k :: 0 <= k < |bonds| ==> ls[4 + |atoms| + k] == BondLine(bonds[k]))
  }

  /** `SaveMolecule` lays its lines out so. */
  lemma SavedLaidOut(name: string, stamp: string, chiralFlag: int, atoms: seq<Atom>, bonds: seq<Bond>,
                     coords: int -> string)
    ensures LaidOut(SavedLines(name, stamp, chiralFlag, atoms, bonds, coords), name, chiralFlag, atoms, bonds, coords)
  {
    SavedHeadAt(name, stamp, chiralFlag, atoms, bonds, coords);
    SavedAtomLinesAt(name, stamp, chiralFlag, atoms, bonds, coords);
    SavedBondLinesAt(name, stamp, chiralFlag, atoms, bonds, coords);
  }
}
