/** The writer of src/molfile_saver.go as it runs: the lines go out one
    by one, and the properties block is collected and chunked in loops.
    Each method is proved to write exactly the lines the functions of
    `MolfileSaver` describe. */
module MolfileWriting {
  import opened Text
  import opened MoleculeGraph
  import opened MolfileLoader
  import opened MolfileSaver

  // Regrouping appended lines. Stated over any sequences, so that the
  // solver never looks inside the lines themselves.

  lemma AppendFour<T>(o: seq<T>, a: seq<T>, b: seq<T>, c: seq<T>)
    ensures o + a + b + c == o + (a + b + c)
  {
  }

  lemma AppendChain<T>(o0: seq<T>, o1: seq<T>, o2: seq<T>, o3: seq<T>, o4: seq<T>, o5: seq<T>,
                       a: seq<T>, b: seq<T>, c: seq<T>, d: seq<T>, e: seq<T>)
    requires o1 == o0 + a && o2 == o1 + b && o3 == o2 + c && o4 == o3 + d && o5 == o4 + e
    ensures o5 == o0 + (a + b + c + d + e)
  {
  }

  lemma AppendHead<T>(o: seq<T>, h0: T, h1: T, h2: T, h3: T)
    ensures o + [h0] + [h1] + [h2] + [h3] == o + [h0, h1, h2, h3]
  {
  }

  /** One more element of `block` written after its first `i`. */
  lemma AppendNext<T>(o: seq<T>, block: seq<T>, i: nat)
    requires i < |block|
    ensures o + block[..i] + [block[i]] == o + block[..i + 1]
  {
    assert block[..i + 1] == block[..i] + [block[i]];
  }

  /** A line written, and the lines still to come, together are that
      line followed by them. */
  lemma AppendFront<T>(o: seq<T>, x: T, rest: seq<T>)
    ensures (o + [x]) + rest == o + ([x] + rest)
  {
  }

  /** `MolfileSaver`: the lines written so far, in order. */
  class MolfileWriter {
    var lines: seq<string>

    /** `NewMolfileSaver`: nothing written yet. */
    constructor ()
      ensures lines == []
    {
      lines := [];
    }

    /** `writeLine`: one more line. */
    method WriteLine(line: string)
      modifies this`lines
      ensures lines == old(lines) + [line]
    {
      lines := lines + [line];
    }

    /** `SaveMolecule`: the header, the counts line, the atom and bond
        blocks, the properties block and "M  END", exactly the lines of
        `SavedLines`. The time stamp and each atom's coordinate columns
        are parameters. */
    method SaveMolecule(mol: Molecule, stamp: string, coords: int -> string)
      modifies this`lines
      ensures lines == old(lines) + SavedLines(mol.name, stamp, mol.chiralFlag, mol.atoms, mol.bonds, coords)
    {
      var atoms, bonds := mol.atoms, mol.bonds;
      ghost var o0 := lines;
      WriteHead(mol.name, stamp, mol.chiralFlag, |atoms|, |bonds|);
      ghost var o1 := lines;
      WriteAtomBlock(atoms, coords);
      ghost var o2 := lines;
      WriteBondBlock(bonds);
      ghost var o3 := lines;
      WritePropertiesBlock(atoms);
      ghost var o4 := lines;
      WriteLine("M  END");
      AppendChain(o0, o1, o2, o3, o4, lines, SavedHead(mol.name, stamp, mol.chiralFlag, |atoms|, |bonds|),
                  AtomBlock(atoms, coords), BondBlock(bonds), PropertiesBlock(atoms), ["M  END"]);
    }

    /** `writeHeader` and `writeCountsLine`: the name line, the program
        line, an empty comment line and the counts line. */
    method WriteHead(name: string, stamp: string, chiralFlag: int, atomCount: int, bondCount: int)
      modifies this`lines
      ensures lines == old(lines) + SavedHead(name, stamp, chiralFlag, atomCount, bondCount)
    {
      ghost var o := lines;
      var h0, h1, h3 := HeaderName(name), ProgramLine(stamp), CountsLine(atomCount, bondCount, chiralFlag);
      WriteLine(h0);
      WriteLine(h1);
      WriteLine("");
      WriteLine(h3);
      AppendHead(o, h0, h1, "", h3);
    }

    /** The atom loop of `SaveMolecule`: one `writeAtomLine` per atom. */
    method WriteAtomBlock(atoms: seq<Atom>, coords: int -> string)
      modifies this`lines
      ensures lines == old(lines) + AtomBlock(atoms, coords)
    {
      ghost var block := AtomBlock(atoms, coords);
      for i := 0 to |atoms|
        invariant lines == old(lines) + block[..i]
      {
        var line := AtomLine(coords(i), atoms[i]);
        assert line == block[i];
        WriteLine(line);
        AppendNext(old(lines), block, i);
      }
      assert block[..|atoms|] == block;
    }

    /** The bond loop of `SaveMolecule`: one `writeBondLine` per bond. */
    method WriteBondBlock(bonds: seq<Bond>)
      modifies this`lines
      ensures lines == old(lines) + BondBlock(bonds)
    {
      ghost var block := BondBlock(bonds);
      for k := 0 to |bonds|
        invariant lines == old(lines) + block[..k]
      {
        var line := BondLine(bonds[k]);
        assert line == block[k];
        WriteLine(line);
        AppendNext(old(lines), block, k);
      }
      assert block[..|bonds|] == block;
    }

    /** `writePropertiesBlock`: the charge lines, then the isotope lines,
        then the radical lines. */
    method WritePropertiesBlock(atoms: seq<Atom>)
      modifies this`lines
      ensures lines == old(lines) + PropertiesBlock(atoms)
    {
      ghost var o := lines;
      WritePropertyLines(atoms, ChargeProperty);
      WritePropertyLines(atoms, IsotopeProperty);
      WritePropertyLines(atoms, RadicalProperty);
      AppendFour(o, PropertyLines(atoms, ChargeProperty), PropertyLines(atoms, IsotopeProperty),
                 PropertyLines(atoms, RadicalProperty));
    }

    /** One kind of property line: the atoms carrying the property are
        collected, then written eight to a line. */
    method WritePropertyLines(atoms: seq<Atom>, kind: PropertyKind)
      modifies this`lines
      ensures lines == old(lines) + PropertyLines(atoms, kind)
    {
      var es := CollectEntries(atoms, kind);
      WriteChunks(kind, es);
    }

    /** The chunking loop: from each multiple of eight, a line with the
        count and the entries up to eight further on. */
    method WriteChunks(kind: PropertyKind, es: seq<(int, int)>)
      modifies this`lines
      ensures lines == old(lines) + ChunkLinesFrom(kind, es, 0)
    {
      var start := 0;
      while start < |es|
        invariant old(lines) + ChunkLinesFrom(kind, es, 0) == lines + ChunkLinesFrom(kind, es, start)
        decreases |es| - start
      {
        var end := start + 8;
        if end > |es| {
          end := |es|;
        }
        var line := FormatChunk(kind, es, start, end);
        ghost var rest := ChunkLinesFrom(kind, es, start + 8);
        assert ChunkLinesFrom(kind, es, start) == [line] + rest;
        AppendFront(lines, line, rest);
        WriteLine(line);
        start := start + 8;
      }
      assert ChunkLinesFrom(kind, es, start) == [];
    }
  }

  /** The collecting loop of `writePropertiesBlock`: the 1-based atom
      numbers and values of the atoms carrying the property. */
  method CollectEntries(atoms: seq<Atom>, kind: PropertyKind) returns (es: seq<(int, int)>)
    ensures es == Entries(atoms, kind, |atoms|)
  {
    es := [];
    for i := 0 to |atoms|
      invariant es == Entries(atoms, kind, i)
    {
      if Listed(atoms[i], kind) {
        es := es + [(i + 1, Value(atoms[i], kind))];
      }
    }
  }

  /** One property line as Go's string builder makes it: the tag and the
      count, then the entries of the chunk. */
  method FormatChunk(kind: PropertyKind, es: seq<(int, int)>, start: nat, end: nat) returns (line: string)
    requires start <= end <= |es|
    ensures line == ChunkLine(kind, es[start..end])
  {
    var count := PadLeft(IntToString(end - start), 3);
    var entries := FormatEntries(es[start..end]);
    line := "M  " + Tag(kind) + (count + entries);
  }

  /** The entry loop of that builder: " %3d %3d" for each entry. */
  method FormatEntries(chunk: seq<(int, int)>) returns (entries: string)
    ensures entries == EntriesText(chunk)
  {
    entries := "";
    for i := 0 to |chunk|
      invariant entries == EntriesText(chunk[..i])
    {
      EntriesTextSnoc(chunk, i);
      entries := entries + EntryText(chunk[i]);
    }
    assert chunk[..|chunk|] == chunk;
  }
}
