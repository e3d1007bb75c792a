# go-chem core, modelled in Dafny

This project models the cheminformatics core of go-chem, a Go library for
molecules and reactions. The model covers:

- the molecule graph: atoms, bonds, per-atom edge lists, caches and flags;
- the element table;
- the SMILES reader and writer;
- the MDL molfile reader and writer;
- aromatisation and dearomatisation;
- the gross (Hill) formula and the Lipinski counts;
- stereocentres, cis/trans bonds and S-groups;
- fingerprint bit vectors and the molecule hash;
- substructure search;
- the InChI layer writer and the InChIKey;
- reactions, with their molecules and metadata.

Go structs whose fields the library updates in place are Dafny classes
(`Molecule`, `BaseMolecule`, `BaseReaction`, `MoleculeStereocenters`,
`MoleculeCisTrans`, `MoleculeSGroups`, `Fingerprint`, `InChIGenerator`,
`SmilesSaver`, `MolfileWriter`).
Each keeps its invariant as a `Valid()` predicate, and each method states
its whole new state. Parsers, writers and formulas are functions on values,
specified by round trips and by independent reference definitions. Loops in
the Go code are methods with loop invariants, proved against those
functions.

The Go code is followed where it deviates from what its comments, its tests
or chemistry evidently intend. In those places the model keeps both halves:

- the code as written, with a lemma on the input that shows the difference;
- the intended behaviour, which the rest of the model uses.

Each such pair is listed under "Findings".

Most modules are one `.dfy` file named after the Go file they model. The
exceptions: `molecule_inchi.go` is split into `inchi_layers.dfy` and
`inchi_key.dfy`; the functions of `molfile_saver.go` are in
`molfile_saver.dfy` and its writing loops in `molfile_writer.dfy`; the
molfile round trip is proved in `molfile_layout.dfy` and
`molfile_roundtrip.dfy`. `wrappers.dfy` (Option and Result), `text.dfy` (string helpers: integer
formatting and parsing, trimming, splitting) and `sorting.dfy` are shared
helpers.

## Model

| member | source | states |
|---|---|---|
| MoleculeGraph.BondOrderOf | src/molecule/molecule.go:398-403 | `GetBondOrder`: the order of an existing bond, -1 for any other index |
| MoleculeGraph.EdgesConnectivityStaysAromatic | src/molecule/molecule.go:505-530 | once the connectivity scan meets an aromatic bond the result is -1 whatever follows |
| MoleculeGraph.EdgesConnectivitySameOrders | src/molecule/molecule.go:505-530 | the connectivity of an atom depends only on the orders of its listed bonds |
| MoleculeGraph.ImplicitHydrogens | src/molecule/molecule.go:532-587 | neutral C, N, O are filled up to valence 4, 3, 2; other elements and charged atoms get 0; an aromatic atom (connectivity -1) gets 1 only as a two-bonded neutral carbon |
| MoleculeGraph.ImplicitHMethylCarbon | src/molecule/molecule.go:532-587 | the table as written gives a methyl carbon 0 hydrogens where the valence rule gives 3 |
| MoleculeGraph.ImplicitHAgreement | src/molecule/molecule.go:532-587 | the table as written and the valence rule agree exactly except for neutral C and N below connectivity 2 and neutral O at connectivity 0 |
| MoleculeGraph.CacheStore | src/molecule/molecule.go:512-529 | storing into a per-atom cache grows it with -1 entries up to the index and changes only that entry |
| MoleculeGraph.FirstJoining | src/molecule/molecule.go:253-265 | the bond `FlipBond` finds is the first joining the two atoms, and -1 exactly when none does |
| MoleculeGraph.RemoveFirst | src/molecule/molecule.go:253-314 | removing an edge reference takes away one occurrence of the bond and nothing else |
| MoleculeGraph.EdgeListExact | src/molecule/molecule.go:219-239 | in a well-formed molecule a bond is in an atom's edge list exactly when the atom is one of its ends |
| MoleculeGraph.FlipKeepsValid | src/molecule/molecule.go:253-314 | the edit `FlipBond` makes keeps the edge lists consistent and the caches coherent |
| MoleculeGraph.AddAtomKeepsValid | src/molecule/molecule.go:196-206 | appending an atom with an empty edge list keeps the molecule well formed and its caches coherent |
| MoleculeGraph.AddBondKeepsWellFormed | src/molecule/molecule.go:219-239 | a bond listed on both endpoints keeps the molecule well formed |
| MoleculeGraph.FlipEdgeLists | src/molecule/molecule.go:253-314 | after `FlipBond` the `from` atom's edge list has lost one occurrence of the bond and the `to` atom's has gained one |
| MoleculeGraph.Molecule.constructor | src/molecule/molecule.go:132-139 | `NewMolecule`: no atoms, bonds or caches, flags unset |
| MoleculeGraph.Molecule.Clone | src/molecule/molecule.go:142-164 | `Clone`: a fresh molecule with the same atoms, bonds, edge lists and flags, empty caches and empty `BondOrders` |
| MoleculeGraph.Molecule.UpdateEditRevision | src/molecule/molecule.go:172-174 | the revision counter moves on by one, nothing else changes |
| MoleculeGraph.Molecule.Clear | src/molecule/molecule.go:177-193 | `Clear`: no atoms, bonds or caches, default flags, one more revision |
| MoleculeGraph.Molecule.AddAtom | src/molecule/molecule.go:196-206 | `AddAtom`: the atom is appended with an empty edge list and its index is the old atom count |
| MoleculeGraph.Molecule.AddBond | src/molecule/molecule.go:219-239 | `AddBond`: the bond and its order are appended, listed on both endpoints, every cache is dropped; the molecule stays valid |
| MoleculeGraph.Molecule.InvalidateCache | src/molecule/molecule.go:242-249 | `invalidateCache`: every per-atom cache is emptied |
| MoleculeGraph.Molecule.InvalidateAtomCache | src/molecule/molecule.go:346-359 | `invalidateAtomCache`: one atom's implicit-H, total-H, connectivity and valence entries are marked not cached |
| MoleculeGraph.Molecule.FindJoining | src/molecule/molecule.go:253-265 | the search loop of `FlipBond` returns `FirstJoining` |
| MoleculeGraph.Molecule.FlipBond | src/molecule/molecule.go:253-314 | `FlipBond`: fails exactly when no bond joins parent and `from`, and then nothing changes; otherwise the first such bond is moved to `to`, the edge lists follow, the three atoms' caches and the aromaticity are dropped; `to` must be an atom only once a bond is found, where Go indexes its edge list |
| MoleculeGraph.Molecule.SetAtomCharge | src/molecule/molecule.go:317-324 | `SetAtomCharge`: the charge is set, the atom's caches are invalidated and the revision moves on; other indices change nothing |
| MoleculeGraph.Molecule.SetAtomIsotope | src/molecule/molecule.go:327-333 | `SetAtomIsotope`: only the isotope and the revision change |
| MoleculeGraph.Molecule.SetAtomRadical | src/molecule/molecule.go:336-343 | `SetAtomRadical`: the radical is set, the atom's caches are invalidated, the revision moves on |
| MoleculeGraph.Molecule.SetPseudoAtom | src/molecule/molecule.go:361-364 | `SetPseudoAtom`: the atom becomes a pseudo atom with that label; caches and revision are untouched |
| MoleculeGraph.Molecule.SetAtomXYZ | src/molecule/molecule.go:449-456 | `SetAtomXYZ`: on an existing atom `HaveXYZ` is raised and the revision moves on |
| MoleculeGraph.Molecule.SetAtomXY | src/molecule/molecule.go:467-473 | `SetAtomXY`: on an existing atom only the revision moves on |
| MoleculeGraph.Molecule.GetPseudoAtom | src/molecule/molecule.go:370-375 | `GetPseudoAtom`: the label of a pseudo atom, an error for any other atom |
| MoleculeGraph.Molecule.GetAtomNumber | src/molecule/molecule.go:390-395 | `GetAtomNumber`: the element number of an atom, -1 for an index that is not an atom |
| MoleculeGraph.Molecule.SetBondOrder | src/molecule/molecule.go:406-421 | `SetBondOrder`: the order is set in the bond and, when it reaches that far, in `BondOrders`; both endpoints' caches are dropped and `Aromatized` is cleared |
| MoleculeGraph.Molecule.GetBondDirection | src/molecule/molecule.go:424-429 | `GetBondDirection`: the direction of a bond, 0 for another index |
| MoleculeGraph.Molecule.SetBondDirection | src/molecule/molecule.go:432-438 | `SetBondDirection`: only the direction and the revision change |
| MoleculeGraph.Molecule.SetBondOrderInternalAsWritten | src/molecule/molecule.go:477-499 | `setBondOrderInternal` as written: only `BondOrders` changes, so `GetBondOrder` still reports the old order |
| MoleculeGraph.Molecule.SetBondOrderInternal | src/molecule/molecule.go:477-499 | the corrected `setBondOrderInternal`: the bond and `BondOrders` both hold the new order, which `GetBondOrder` then reports |
| MoleculeGraph.Molecule.GetAtomConnectivityNoImplH | src/molecule/molecule.go:505-530 | `getAtomConnectivityNoImplH`: the result equals the uncached scan of the atom's bonds, and the caches stay coherent |
| MoleculeGraph.Molecule.GetImplicitH | src/molecule/molecule.go:532-587 | `GetImplicitH`: the result equals the implicit-H rule for the atom's element, charge and connectivity, and is cached coherently |
| MoleculeGraph.Molecule.GetAtomConnectivity | src/molecule/molecule.go:501-503 | `GetAtomConnectivity`: the bond-order connectivity plus the implicit hydrogens |
| MoleculeGraph.Molecule.GetAtomAromaticity | src/molecule/molecule.go:589-608 | `GetAtomAromaticity`: aromatic exactly when one of the atom's bonds is aromatic |
| MoleculeGraph.Molecule.GetNeighbors | src/molecule/molecule.go:655-670 | `GetNeighbors`: the far ends of the atom's bonds in edge-list order; a neighbour is listed exactly when a bond joins it to the atom |
| MoleculeGraph.Molecule.GetNeighborBonds | src/molecule/molecule.go:673-680 | `GetNeighborBonds`: the edge list, whose entries are exactly the bonds touching the atom |
| MoleculeGraph.Molecule.GetOtherBondEnd | src/molecule/molecule.go:683-694 | `GetOtherBondEnd`: the opposite endpoint, -1 for a bond index out of range or an atom not on the bond |
| MoleculeGraph.Molecule.OtherBondEndInvolutive | src/molecule/molecule.go:683-694 | crossing a bond twice returns to the starting atom |
| MoleculeGraph.Molecule.FindBond | src/molecule/molecule.go:697-708 | `FindBond`: -1 exactly when no bond joins the two atoms, otherwise the first joining bond in the first atom's edge list |
| MoleculeGraph.Molecule.TotalHydrogensCount | src/molecule/molecule.go:711-720 | `TotalHydrogensCount`: explicit H atoms plus every atom's implicit hydrogens |
| Elements.TableFacts | molecule/elements.go:142-264 | each row of the element table holds the symbol, outer electrons, period and aromatic flag of that element |
| Elements.SymbolsDistinct | molecule/elements.go:142-264 | no two elements share a symbol |
| Elements.SymbolTableValues | molecule/elements.go:267-274 | the symbol map built by the initialisation loop sends every symbol to the element whose row carries it |
| Elements.ElementFromString | molecule/elements.go:277-282 | `ElementFromString`: an Ok number is the element whose symbol was given; an error means no element has it |
| Elements.UnknownElementMessage | molecule/elements.go:277-282 | an unknown symbol is reported as "unknown element: " followed by the symbol |
| Elements.ElementFromStringIsTableLookup | molecule/elements.go:267-282 | the lookup succeeds exactly when the symbol map holds the symbol, and then gives the mapped number |
| Elements.ElementFromString2 | molecule/elements.go:285-290 | `ElementFromString2`: the same lookup with -1 for an unknown symbol, and -1 exactly when `ElementFromString` fails |
| Elements.ElementSymbol | molecule/elements.go:293-298 | `ElementSymbol`: the table symbol for an element, "Elem" and the number otherwise |
| Elements.SymbolRoundTrip | molecule/elements.go:277-298 | the symbol of an element reads back as that element; the text given for any other number is not read as an element |
| Elements.ElementGroup | molecule/elements.go:301-306 | `ElementGroup`: 0 exactly outside the table, otherwise a group from 1 to 8 |
| Elements.ElementPeriod | molecule/elements.go:309-314 | `ElementPeriod`: 0 exactly outside the table, otherwise a period from 1 to 7 |
| Elements.ElementIsHalogen | molecule/elements.go:317-319 | `ElementIsHalogen`: exactly F, Cl, Br and I, all of group 7 |
| Elements.ElementCanBeAromatic | molecule/elements.go:322-327 | `ElementCanBeAromatic`: only elements whose row has the aromatic flag |
| Elements.RadicalElectrons | molecule/elements.go:330-338 | `RadicalElectrons`: 1 for a doublet, 2 for a singlet, 0 otherwise |
| Elements.RadicalOrbitals | molecule/elements.go:340-345 | `RadicalOrbitals`: 0 exactly for no radical, else 1 |
| Elements.ElementOrbitals | molecule/elements.go:348-362 | `ElementOrbitals`: 1, 2, 4 or 9, and 9 only with d orbitals allowed beyond period 2 |
| Elements.ElementMaximumConnectivity | molecule/elements.go:365-379 | `ElementMaximumConnectivity`: with e electrons and v vacant orbitals (after the radical), v - abs(v - e), which never exceeds v |
| Elements.ElementToString | molecule/elements.go:382-632 | `ElementToString`: the names of the three special atoms, and "?" with the number outside 1..118 |
| Elements.ElementToStringAgrees | molecule/elements.go:382-632 | for every element the switch spells the same symbol as the table |
| Elements.SymbolShape | molecule/elements.go:142-264 | every symbol is an upper-case letter, optionally followed by one lower-case letter |
| Text.NatToStringRoundTrip | src/molfile_saver.go:90-105 | the decimal digits the writers print for a natural number read back as that number |
| Text.AtoiIntToString | src/molfile_loader.go:105-137 | `strconv.Atoi` reads back every 64-bit integer that `%d` printed |
| Text.TrimSpaceEnds | src/molfile_loader.go:284 | `strings.TrimSpace` leaves white space at neither end |
| Text.TrimPadLeft | src/molfile_loader.go:114-115 | a right-aligned field (`%3d`) is read back by trimming |
| Text.TrimPadRight | src/molfile_loader.go:172 | a left-aligned field (`%-3s`) is read back by trimming |
| Text.SplitTwoParts | molecule/molecule_inchi.go:1057-1065 | `strings.Split` gives at least two pieces exactly when the separator occurs |
| Text.LexLessTransitive | src/molecule/gross_formula.go:172-175 | the string order used to compare element symbols is transitive |
| Text.LexLessTotal | src/molecule/gross_formula.go:172-175 | two different symbols are ordered one way or the other |
| Sorting.InsertionSortCorrect | src/molecule/gross_formula.go:147-185 | the reference sort used for `sort.Slice`: under a strict order its result is sorted and a permutation of its input |
| GrossFormula.GrossCountsKeys | src/molecule/gross_formula.go:38-66 | every key of the counts is positive with a count of at least 1, every counted atom's key is present, and every key other than H comes from a counted atom |
| GrossFormula.IsotopeKeyDecode | src/molecule/gross_formula.go:53-55 | the isotope key `(isotope << 8) + number` is taken apart by `& 0xFF` and `>> 8` |
| GrossFormula.CountAtoms | src/molecule/gross_formula.go:38-66 | the atom loop counts every non-special atom under its key and adds its implicit hydrogens to H |
| GrossFormula.CollectGross | src/molecule/gross_formula.go:29-68 | `CollectGross`: one unit with no multiplier, holding exactly those counts |
| GrossFormula.HillLessIrreflexive | src/molecule/gross_formula.go:147-185 | the Hill comparator never puts an entry before itself |
| GrossFormula.HillLessTransitive | src/molecule/gross_formula.go:147-185 | the Hill comparator is transitive |
| GrossFormula.HillLessStrict | src/molecule/gross_formula.go:147-185 | the Hill comparator is a strict order, so `sort.Slice` with it is well defined |
| GrossFormula.SortedIsHillOrdered | src/molecule/gross_formula.go:147-185 | entries sorted by the comparator are in Hill order: with carbon, C first, then H, then by symbol; empty counts last |
| GrossFormula.AnyHasCarbon | src/molecule/gross_formula.go:214-221 | `anyHas` with the carbon test: true exactly when some key's element is carbon |
| GrossFormula.CollectHillEntries | src/molecule/gross_formula.go:137-145 | the entry loop yields one entry per key except R#, with element, isotope and count decoded from the key |
| GrossFormula.AllEntries | src/molecule/gross_formula.go:137-145 | once every key is visited the entries are exactly those of the map |
| GrossFormula.RSitePart | src/molecule/gross_formula.go:199-207 | the R# part appears only when asked for and present with a positive count, and starts with "R#" |
| GrossFormula.HillFromIsotopes | src/molecule/gross_formula.go:134-212 | `hillFromIsotopes`: the map's entries, sorted by the Hill comparator (carbon, then hydrogen when carbon is present, then symbols alphabetically, isotopes of one element by mass), each printed once when its count is positive, joined by spaces, then the R# part |
| GrossFormula.SortKeepsEntries | src/molecule/gross_formula.go:147 | a permutation of the entries is still the map's entries |
| GrossFormula.GrossUnitsToStringHill | src/molecule/gross_formula.go:123-131 | `GrossUnitsToStringHill`: empty for no units, otherwise the first unit's entries sorted by the Hill comparator and joined as `hillFromIsotopes` does |
| GrossFormula.CounterLessStrict | src/molecule/gross_formula.go:82-95 | the comparator of `GrossToString` is a strict order |
| GrossFormula.CollectCounters | src/molecule/gross_formula.go:74-81 | the counter loop yields one counter per positive key except R# |
| GrossFormula.SortKeepsCounters | src/molecule/gross_formula.go:82 | a permutation of the counters is still the map's counters |
| GrossFormula.GrossToString | src/molecule/gross_formula.go:71-120 | `GrossToString`: the map's counters sorted by the comparator, printed and joined by spaces, then the R# part |
| GrossFormula.HydrogenLast | src/molecule/gross_formula.go:82-95 | in `GrossToString` order every H counter comes after the others, and the others are by atomic number |
| SmilesLoader.ChargeAt | src/molecule/smiles_loader.go:400-446 | the bracket charge reader consumes input exactly when a sign follows, and stays within the text |
| SmilesLoader.BracketSymbol | src/molecule/smiles_loader.go:355-379 | a bracket symbol read is the text it consumed |
| SmilesLoader.BracketedAtom | src/molecule/smiles_loader.go:323-454 | `readBracketedAtom`: a bracket atom read ends just after a ']' |
| SmilesLoader.ElementToken | src/molecule/smiles_loader.go:52-98 | `readElement` (with the corrected symbol order): an atom read consumes at least one character and stays within the text |
| SmilesLoader.ElementNumber | src/molecule/smiles_loader.go:100-126 | `elemToNum`: an aromatic symbol is accepted exactly when it is one of c, n, o, s, p, as, se and gives an aromatic element; any other symbol goes through the element table |
| SmilesLoader.RingNumberAt | src/molecule/smiles_loader.go:186-200 | a ring number is a digit or '%' and two digits, below 100 |
| SmilesLoader.RingStep | src/molecule/smiles_loader.go:178-240 | a ring number opens or closes a ring and moves forward |
| SmilesLoader.Step | src/molecule/smiles_loader.go:142-290 | one pass of the scanning loop moves forward |
| SmilesLoader.RunKeepsConsistent | src/molecule/smiles_loader.go:142-297 | the scan keeps the state consistent: bonds join existing atoms with orders 1 to 4, and an aromatic bond joins two lower-case atoms |
| SmilesLoader.AsWrittenNeverSelenium | src/molecule/smiles_loader.go:75-84 | with the source's test order no atom is ever read as "se", inside or outside brackets |
| SmilesLoader.SeleniumReads | src/molecule/smiles_loader.go:78-83 | with the two-letter forms tried first, "se" reads as aromatic selenium |
| SmilesLoader.SeleniumAsWritten | src/molecule/smiles_loader.go:75-84 | "se" as written reads 's' and then fails at 'e', and "[se]" fails where ']' is expected; corrected, both read selenium |
| SmilesLoader.OrganicLetterAsWritten | src/molecule/smiles_loader.go:86-96 | "Oc1ccccc1" as written reads the two-letter symbol "Oc" |
| SmilesLoader.OrganicLetterCorrected | src/molecule/smiles_loader.go:86-96 | corrected, "Oc1ccccc1" reads 'O' and then aromatic 'c' |
| SmilesLoader.OcUnknown | src/molecule/smiles_loader.go:100-126 | "Oc" names no element, so the reading as written fails |
| SmilesLoader.RunSkipsSpaces | src/molecule/smiles_loader.go:144-148 | white space changes nothing in the scan |
| SmilesLoader.UnmatchedCloseFails | src/molecule/smiles_loader.go:158-161 | a ')' with no open branch is the error "unmatched ')' at i" |
| SmilesLoader.BranchWithoutAtomFails | src/molecule/smiles_loader.go:150-153 | a '(' with no previous atom is the error "branch without previous atom at i" |
| SmilesLoader.RingWithoutAtomFails | src/molecule/smiles_loader.go:180-183 | a ring number with no previous atom is an error |
| SmilesLoader.BadPercentRingFails | src/molecule/smiles_loader.go:188-197 | '%' needs two more characters, both digits; otherwise "incomplete" or "invalid %NN ring number" |
| SmilesLoader.ConflictingRingOrderFails | src/molecule/smiles_loader.go:226-233 | closing a ring with an explicit order other than the one written at its opening is an error |
| SmilesLoader.DotStartsComponent | src/molecule/smiles_loader.go:172-177 | after '.', the next atom is added with no bond to the atoms before it and becomes the previous atom |
| SmilesLoader.LeadingCharacterFails | src/molecule/smiles_loader.go:150-183 | a text whose first non-blank character is ')', '(' or a ring number fails with the matching message |
| SmilesLoader.ErrorRunFails | src/molecule/smiles_loader.go:142-297 | a scan that fails makes the reader fail with the same message |
| SmilesLoader.OpenRingFails | src/molecule/smiles_loader.go:294-297 | after a successful scan the reader fails exactly when a ring is still open, with "unclosed ring bonds" |
| SmilesLoader.DigitsNumber | src/molecule/smiles_loader.go:410-421 | the digit loop accumulates the decimal value of the digits |
| SmilesLoader.ReadCharge | src/molecule/smiles_loader.go:400-446 | the charge loop computes `ChargeAt` |
| SmilesLoader.ReadBracketedAtom | src/molecule/smiles_loader.go:323-454 | the method computes `BracketedAtom` |
| SmilesLoader.ReadElement | src/molecule/smiles_loader.go:52-98 | the method computes `ElementToken` |
| SmilesLoader.ParseRingBond | src/molecule/smiles_loader.go:178-240 | the ring branch of the loop, on the molecule, computes `RingStep` and keeps it valid |
| SmilesLoader.ParseAtom | src/molecule/smiles_loader.go:243-289 | the atom branch of the loop (read, look up, add, mark, bond to the previous atom) computes the atom step and keeps the molecule valid |
| SmilesLoader.ScanStep | src/molecule/smiles_loader.go:142-290 | one pass of the scanning loop on the molecule computes `Step` |
| SmilesLoader.CopyMarks | src/molecule/smiles_loader.go:299-308 | the marks are copied to exactly one entry per atom, aliphatic where none was kept |
| SmilesLoader.MarkAromaticBonds | src/molecule/smiles_loader.go:310-318 | both ends of every aromatic bond are marked aromatic |
| SmilesLoader.Parse | src/molecule/smiles_loader.go:35-320 | `Parse`: fails exactly with the reference reader's error, and otherwise returns a fresh valid molecule with the reference reader's atoms, bonds and aromaticity |
| SmilesSaver.ChargeText | molecule/smiles_saver.go:383-405 | `writeCharge` (corrected): nothing exactly for charge 0, and a text starting with the charge's sign otherwise |
| SmilesSaver.ChargeTextDiffers | molecule/smiles_saver.go:383-405 | the writer as written and the corrected one differ exactly on +3 and -3 |
| SmilesSaver.ChargeReadsBack | molecule/smiles_saver.go:383-405 | every charge the corrected writer produces is read back, with the reader stopping right after it |
| SmilesSaver.TripleChargeAsWritten | molecule/smiles_saver.go:383-405 | +3 as written is "+++", which the reader takes as +2 and a stray '+' |
| SmilesSaver.TripleChargeRejected | molecule/smiles_saver.go:383-405 | so "[Al+++]" is rejected where ']' is expected |
| SmilesSaver.TripleChargeCorrected | molecule/smiles_saver.go:383-405 | the corrected "+3" is read back inside brackets |
| SmilesSaver.RingNumberReadsBack | molecule/smiles_saver.go:448-454 | `writeRingNumber`: every ring number from 1 to 99 is read back with its length |
| SmilesSaver.LargeRingNumberMisread | molecule/smiles_saver.go:448-454 | ring 100 is written "%100", which the reader takes as ring 10 |
| SmilesSaver.RingKeySymmetric | molecule/smiles_saver.go:457-474 | the ring-number key of a pair does not depend on the order of its atoms |
| SmilesSaver.RingKeyInjective | molecule/smiles_saver.go:457-474 | below 100000 atoms the key names exactly one unordered pair |
| SmilesSaver.RingKeyCollides | molecule/smiles_saver.go:457-474 | from 100000 atoms on two pairs share a key |
| SmilesSaver.HydrogenCount | molecule/smiles_saver.go:355-380 | `getHydrogenCount`: the explicit count when set, otherwise a count that is not negative, 0 for an ignored hydrogen |
| SmilesSaver.SymbolTextReadsBack | molecule/smiles_saver.go:218-278 | each element's written symbol has the shape the reader expects and names the same element again |
| SmilesSaver.BracketAtomReadsBack | molecule/smiles_saver.go:218-306 | an atom that `needsBrackets` is read back by the bracket reader: same element, isotope, charge and aromaticity, ending after ']' |
| SmilesSaver.BareAtomReadsBack | molecule/smiles_saver.go:218-327 | an organic-subset atom written without brackets is read back as the same element and aromaticity |
| SmilesSaver.BondText | molecule/smiles_saver.go:408-445 | `writeBondSymbol` writes at most one character |
| SmilesSaver.BondTextReadsBack | molecule/smiles_saver.go:408-445 | single, double, triple and aromatic bonds are read back with their order |
| SmilesSaver.AromaticBondColon | molecule/smiles_saver.go:408-445 | with aromatic bonds written, they are written ':', which the reader does not take as a bond |
| SmilesSaver.LayoutsAgree | molecule/smiles_saver.go:189-212 | the branch layout as written and the corrected one agree exactly when an atom has at most one tree neighbour |
| SmilesSaver.BranchOrderAsWritten | molecule/smiles_saver.go:189-212 | isobutane is written "CCC(C)", which reads back with bond 2-3 and without bond 1-3 |
| SmilesSaver.BranchOrderCorrected | molecule/smiles_saver.go:189-212 | the corrected layout writes "CC(C)C", which reads back with exactly bonds 0-1, 1-2 and 1-3 |
| SmilesSaver.ChildThenRest | molecule/smiles_saver.go:189-212 | each child written in turn (in parentheses unless it is the last) builds the corrected branch layout |
| SmilesSaver.SmilesSaver.WriteCharge | molecule/smiles_saver.go:383-405 | appends `ChargeText` |
| SmilesSaver.SmilesSaver.WriteRingNumber | molecule/smiles_saver.go:448-454 | appends the ring number's text |
| SmilesSaver.SmilesSaver.GetRingNumber | molecule/smiles_saver.go:457-464 | the number stored for the pair, or 0 |
| SmilesSaver.SmilesSaver.SetRingNumber | molecule/smiles_saver.go:467-474 | stores the number under the pair's key and changes no other key |
| SmilesSaver.SmilesSaver.WriteBondSymbol | molecule/smiles_saver.go:408-445 | appends `BondText` |
| SmilesSaver.SmilesSaver.GetHydrogenCount | molecule/smiles_saver.go:355-380 | the loop computes `HydrogenCount` |
| SmilesSaver.SmilesSaver.WriteAtom | molecule/smiles_saver.go:218-278 | appends the atom's text |
| SmilesSaver.SmilesSaver.MarkClosures | molecule/smiles_saver.go:104-124 | the pre-pass walk from one atom sees and marks exactly what `MarkFrom` says, forgetting no atom already seen and only adding bonds of the molecule |
| SmilesSaver.SmilesSaver.IdentifyRingClosures | molecule/smiles_saver.go:100-132 | the ring-closure bonds become exactly those `MarkAll` marks from no atom seen; they only grow and are all bonds of the molecule |
| SmilesSaver.SmilesSaver.SplitNeighbors | molecule/smiles_saver.go:155-170 | every neighbour other than the parent goes to the tree list or the closure list, by whether its bond is a closure |
| SmilesSaver.SmilesSaver.WriteClosure | molecule/smiles_saver.go:172-187 | one closure: a pair with a number keeps it; a new pair gets the next number and the counter moves on by one; the bond symbol and that number are appended |
| SmilesSaver.SmilesSaver.WriteClosures | molecule/smiles_saver.go:172-187 | ring numbers already given are kept, every closure pair ends with one, and text and state are those of `ClosuresFrom` |
| SmilesSaver.SmilesSaver.DfsWrite | molecule/smiles_saver.go:135-215 | nothing for an atom already visited; otherwise the atom is visited and listed once, and its text is its atom text, its ring closures and its children in the corrected branch layout; text and state are those of `Walk` |
| SmilesSaver.SmilesSaver.WriteChild | molecule/smiles_saver.go:189-212 | one tree neighbour: its bond symbol and its walk, in parentheses unless it is the last |
| SmilesSaver.SmilesSaver.WriteChildren | molecule/smiles_saver.go:189-212 | each tree neighbour's bond symbol and walk, in the corrected branch layout; texts and state are those of `ChildrenFrom` |
| SmilesSaver.SmilesSaver.WriteComponents | molecule/smiles_saver.go:80-94 | every atom is listed exactly once, the component walks are joined by ".", and the text is `ComponentsFrom` |
| SmilesSaver.SmilesSaver.SaveSMILES | molecule/smiles_saver.go:63-97 | "" for no molecule or no atoms; otherwise the walks of the components joined by ".", the first from atom 0, every atom visited exactly once; the result is `SmilesOf` the molecule |
| SmilesSaver.MarkFrom | molecule/smiles_saver.go:104-124 | the pre-pass walk from an unseen atom sees it, clears no flag, leaves fewer atoms unseen and marks only bonds whose two ends it has seen |
| SmilesSaver.MarkEdgesFrom | molecule/smiles_saver.go:110-123 | the edge loop of that walk clears no flag and marks only bonds whose two ends are seen |
| SmilesSaver.MarkAll | molecule/smiles_saver.go:100-132 | the outer pre-pass loop leaves every atom from its start on seen, and marks only bonds whose two ends are seen |
| SmilesSaver.RingClosureBonds | molecule/smiles_saver.go:100-132 | the ring-closure bonds found from scratch are bonds of the molecule |
| SmilesSaver.MarkFromMarksSeen | molecule/smiles_saver.go:104-124 | a bond of the walked atom, other than the one the walk came through, whose far end was seen before is marked |
| SmilesSaver.ClosureStep | molecule/smiles_saver.go:172-187 | one closure leaves the flags alone, takes no number back and gives the pair a number |
| SmilesSaver.ClosuresFrom | molecule/smiles_saver.go:172-187 | the closure loop gives every remaining closure pair a number and keeps the numbers given before |
| SmilesSaver.Walk | molecule/smiles_saver.go:135-215 | the walk from an atom leaves it visited, clears no flag and takes no ring number back; for an atom already visited it writes nothing and changes nothing |
| SmilesSaver.ChildrenFrom | molecule/smiles_saver.go:189-212 | one text per remaining tree neighbour, and the walk state only advances |
| SmilesSaver.ClosureStepNumbered | molecule/smiles_saver.go:172-187 | a closure keeps the ring numbers consecutive: a new pair gets exactly the next one |
| SmilesSaver.ClosuresNumbered | molecule/smiles_saver.go:172-187 | the closure loop keeps the ring numbers consecutive |
| SmilesSaver.WalkNumbered | molecule/smiles_saver.go:135-215 | the whole walk hands out ring numbers consecutively, no number to two pairs |
| MolfileLoader.StandardMass | src/molfile_loader.go:437-441 | the mass table gives 0 outside its range |
| MolfileLoader.StripEol | src/molfile_loader.go:94-102 | `readLine`'s trimming: a prefix of the line that no longer ends in CR or LF, and the line itself when it did not |
| MolfileLoader.ConvertBondType | src/molfile_loader.go:385-398 | `convertBondType`: every code gives an order from single to aromatic |
| MolfileLoader.ConvertStereo | src/molfile_loader.go:401-412 | `convertStereo`: a direction exactly for codes 1, 6 and 4 |
| MolfileLoader.ConvertChargeCode | src/molfile_loader.go:415-434 | `convertChargeCode`: a charge from -3 to 3, non-zero exactly for codes 1-3 and 5-7 |
| MolfileLoader.ParseCountsLine | src/molfile_loader.go:105-137 | `parseCountsLine`: "counts line too short" below 6 characters; succeeds exactly when both counts parse; no chiral flag on a line shorter than 15 |
| MolfileLoader.ParseAtomLine | src/molfile_loader.go:140-215 | `parseAtomLine`: succeeds exactly for a line of 34 characters with three coordinates and a symbol; a pseudo atom exactly when the symbol is not an element |
| MolfileLoader.ParseBondLine | src/molfile_loader.go:218-271 | `parseBondLine`: "bond line too short" below 9 characters; a bond joins loaded atoms, with an order from single to aromatic |
| MolfileLoader.PropertyEntries | src/molfile_loader.go:305-332 | the entries of a property line; none for a trimmed line too short to hold the field text |
| MolfileLoader.ApplyEntriesUntouched | src/molfile_loader.go:305-382 | an atom that no entry names keeps all its fields |
| MolfileLoader.ShortPropertyLine | src/molfile_loader.go:301-311 | the 6-character line "M  CHG" is taken as a charge line and, in the model, leaves the atoms as they were |
| MolfileLoader.PropertyBlock | src/molfile_loader.go:274-302 | the properties block keeps the number of atoms |
| MolfileLoader.NoEndMarkerNeverStops | src/molfile_loader.go:274-302 | without "M  END" the loop as written never stops, because `readLine` turns the end of input into an empty line |
| MolfileLoader.EndMarkerStops | src/molfile_loader.go:274-302 | with "M  END" the loop as written stops there with the same atoms as `PropertyBlock` (`LoopsAgree`) |
| MolfileLoader.CollectAtomsErrorStays | src/molfile_loader.go:64-73 | the first atom line that fails decides the error |
| MolfileLoader.CollectBondsErrorStays | src/molfile_loader.go:76-85 | the first bond line that fails decides the error |
| MolfileLoader.LoadSpec | src/molfile_loader.go:29-91 | a load succeeds only when the counts line parses, and then holds as many atoms and bonds as it says |
| MolfileLoader.LoadAtom | src/molfile_loader.go:140-215 | the atom is appended as parsed and coordinates are recorded |
| MolfileLoader.LoadBond | src/molfile_loader.go:218-271 | the bond is appended as parsed |
| MolfileLoader.ApplyPair | src/molfile_loader.go:318-330 | one (atom, value) pair is applied when both parse and the atom is loaded |
| MolfileLoader.ApplyProperty | src/molfile_loader.go:305-382 | the line's entries are applied in order |
| MolfileLoader.ReadPropertyLine | src/molfile_loader.go:290-298 | a charge, isotope or radical line is applied; any other line changes nothing |
| MolfileLoader.ReadPropertiesBlock | src/molfile_loader.go:274-302 | the loop computes `PropertyBlock` |
| MolfileLoader.LoadAtomBlock | src/molfile_loader.go:64-73 | the atom loop loads `ParseAtoms`, or reports its error |
| MolfileLoader.LoadBondBlock | src/molfile_loader.go:76-85 | the bond loop loads `ParseBonds`, or reports its error |
| MolfileLoader.LoadMolecule | src/molfile_loader.go:29-91 | `LoadMolecule` succeeds exactly when `LoadSpec` does, with its error or a fresh valid molecule with its name, chiral flag, atoms and bonds |
| MolfileSaver.BondTypeToMol | src/molfile_saver.go:288-301 | `convertBondTypeToMol`: codes 1 to 4, other than 1 exactly for double, triple and aromatic |
| MolfileSaver.DirectionToStereo | src/molfile_saver.go:304-315 | `convertDirectionToStereo`: codes 0, 1, 4, 6, non-zero exactly for up, down and either |
| MolfileSaver.ChargeToCode | src/molfile_saver.go:318-336 | `convertChargeToCode`: a code from 0 to 7 other than 4, non-zero exactly for charges -3..3 other than 0 |
| MolfileSaver.BondTypeInverse | src/molfile_saver.go:288-301 | the writer's and the reader's bond codes are inverse on orders 1-4 and codes 1-4; any other order reads back as single |
| MolfileSaver.StereoInverse | src/molfile_saver.go:304-315 | the stereo codes are inverse on up, down and either |
| MolfileSaver.ChargeCodeInverse | src/molfile_saver.go:318-336 | the charge codes are inverse on charges -3..3 and on codes 1-7 other than 4 |
| MolfileSaver.HeaderName | src/molfile_saver.go:64-87 | the first header line is never empty, and is the name when there is one |
| MolfileSaver.AtomSymbol | src/molfile_saver.go:108-153 | a pseudo atom always gets a symbol |
| MolfileSaver.MassDiff | src/molfile_saver.go:133-143 | the mass difference is the isotope less the standard mass, clamped to -3..4, and 0 without an isotope |
| MolfileSaver.Entries | src/molfile_saver.go:177-279 | at most one entry per atom |
| MolfileSaver.EntriesSpec | src/molfile_saver.go:177-279 | atom i is listed with its value exactly when it carries the property, in increasing atom order |
| MolfileSaver.ChunksCover | src/molfile_saver.go:177-279 | the chunks cover the entries in order, each holding one to eight of them |
| MolfileSaver.ChunkLinesAreChunks | src/molfile_saver.go:177-279 | one property line per chunk |
| MolfileRoundTrip.CountsLineReads | src/molfile_saver.go:90-105 | the written counts line is read by `parseCountsLine` as the counts and the chiral flag normalised to 0 or 1 |
| MolfileRoundTrip.AtomLineReads | src/molfile_saver.go:108-153 | a written atom line is read by `parseAtomLine` as the atom's element or label, isotope and charge |
| MolfileRoundTrip.BondLineReads | src/molfile_saver.go:156-174 | a written bond line is read by `parseBondLine` as the same atoms, order and direction |
| MolfileRoundTrip.ChunkLineEntries | src/molfile_saver.go:177-279 | a written property line of one to eight entries is read back by the loader as those entries |
| MolfileRoundTrip.ChunkLineKind | src/molfile_saver.go:177-279 | a written property line is selected as its own kind and is not the end marker |
| MolfileRoundTrip.MassRead | src/molfile_saver.go:133-143 | the written mass column reads back as the isotope |
| MolfileRoundTrip.ChargeRead | src/molfile_saver.go:145-150 | the written charge column reads back as the charge |
| MolfileRoundTrip.StereoRead | src/molfile_saver.go:304-315 | the written stereo column reads back as the direction |
| MolfileSaver.SavedHead | src/molfile_saver.go:25-33 | the four lines before the atom block: the name line first and the counts line fourth |
| MolfileSaver.AtomBlock | src/molfile_saver.go:35-40 | one atom line per atom, in atom order |
| MolfileSaver.BondBlock | src/molfile_saver.go:42-47 | one bond line per bond, in bond order |
| MolfileWriting.MolfileWriter.constructor | src/molfile_saver.go:18-22 | a new writer has written nothing |
| MolfileWriting.MolfileWriter.WriteLine | src/molfile_saver.go:281-285 | `writeLine` appends exactly one line |
| MolfileWriting.MolfileWriter.SaveMolecule | src/molfile_saver.go:25-61 | `SaveMolecule` appends exactly the saved molfile's lines, the ones the reader's round trip is proved on |
| MolfileWriting.MolfileWriter.WriteHead | src/molfile_saver.go:64-104 | `writeHeader` and `writeCountsLine` append the name line, the program line, an empty line and the counts line |
| MolfileWriting.MolfileWriter.WriteAtomBlock | src/molfile_saver.go:37-41 | the atom loop appends the atom block |
| MolfileWriting.MolfileWriter.WriteBondBlock | src/molfile_saver.go:44-48 | the bond loop appends the bond block |
| MolfileWriting.MolfileWriter.WritePropertiesBlock | src/molfile_saver.go:177-280 | `writePropertiesBlock` appends the charge, isotope and radical lines, in that order |
| MolfileWriting.MolfileWriter.WritePropertyLines | src/molfile_saver.go:177-211 | one property: its collected entries, one line per chunk of eight |
| MolfileWriting.MolfileWriter.WriteChunks | src/molfile_saver.go:192-210 | the chunking loop appends one line per chunk, from each multiple of eight |
| MolfileWriting.CollectEntries | src/molfile_saver.go:179-189 | the collecting loop lists exactly the atoms carrying the property, 1-based, with their values, in atom order |
| MolfileWriting.FormatChunk | src/molfile_saver.go:198-205 | the string builder makes the chunk's line: tag, three-column count, then the entries |
| MolfileWriting.FormatEntries | src/molfile_saver.go:202-204 | the entry loop writes each entry of the chunk in order, as `EntriesText` |
| MolfileLayout.SavedLaidOut | src/molfile_saver.go:24-61 | a saved molecule has its name line first, its counts line fourth, atom `i`'s line at `4 + i`, bond `k`'s line right after the atom lines, and more lines after them |
| MolfileRoundTrip.AtomLineKept | src/molfile_loader.go:94-102 | a written atom line ends in a digit, so `readLine` gives it back whole |
| MolfileRoundTrip.BondLineKept | src/molfile_loader.go:94-102 | a written bond line ends in a digit, so `readLine` gives it back whole |
| MolfileRoundTrip.CountsLineKept | src/molfile_loader.go:94-102 | a written counts line ends in a digit, so `readLine` gives it back whole |
| MolfileRoundTrip.LineFieldsElement | src/molfile_loader.go:140-215 | the atom the loader builds from a written atom line has the written atom's element |
| MolfileRoundTrip.CollectAtomsOk | src/molfile_loader.go:64-73 | when every atom line parses the atom block loads, atom `k` built from line `k` |
| MolfileRoundTrip.CollectBondsOk | src/molfile_loader.go:76-85 | when every bond line parses the bond block loads, bond `k` built from line `k` |
| MolfileRoundTrip.EntriesKeepElements | src/molfile_loader.go:305-382 | property entries set charges, isotopes and radicals and never change an element |
| MolfileRoundTrip.BlockKeepsElements | src/molfile_loader.go:274-302 | the properties block never changes an atom's element |
| MolfileRoundTrip.ReloadableKept | src/molfile_saver.go:156-174 | a bond of order single to aromatic with no mark, or an up, down or either mark, reloads as itself |
| MolfileRoundTrip.CountsOfLayout | src/molfile_loader.go:105-137 | the counts line of saved lines reads back as the atom and bond counts and the chiral flag as 0 or 1 |
| MolfileRoundTrip.AtomsOfLayout | src/molfile_loader.go:64-73 | the atom block of saved lines loads, each atom of its written element |
| MolfileRoundTrip.BondsOfLayout | src/molfile_loader.go:76-85 | the bond block of saved lines loads, bond `k` as the reloaded bond `k` |
| MolfileRoundTrip.LoadOfLayout | src/molfile_loader.go:29-91 | lines laid out as a saved molecule load: the same atom and bond counts, the chiral flag as 0 or 1, every element, every bond as reloaded (itself when the format can carry its order and mark), and a name with no white space at either end |
| MolfileRoundTrip.SavedMoleculeLoads | src/molfile_saver.go:24-61 | `LoadMolecule` after `SaveMolecule`: the same counts, chiral flag, elements, bonds and name as `LoadOfLayout` states, for up to 999 atoms and bonds with coordinates and symbols that fit their columns |
| Aromatizer.MinFirstIsRotation | src/molecule/aromatizer.go:189-205 | `rotateToMinFirst` returns a rotation of its input, with the same elements, that starts at a least element |
| Aromatizer.MinFirstRotation | src/molecule/aromatizer.go:189-205 | for a cycle without repeats the result does not depend on where the cycle starts |
| Aromatizer.SeqLessTotal | src/molecule/aromatizer.go:207-221 | `lessSeq` orders any two different sequences one way or the other (with irreflexivity, asymmetry and transitivity beside it) |
| Aromatizer.LessSeq | src/molecule/aromatizer.go:207-221 | the loop computes the lexicographic order, shorter first on a common prefix |
| Aromatizer.RotateToMinFirst | src/molecule/aromatizer.go:189-205 | the scan and copy compute `MinFirst` |
| Aromatizer.CanonicalInvariant | src/molecule/aromatizer.go:168-187 | the sequence `normalizeCycleKey` writes is the same for every start and for both directions of a cycle of distinct atoms |
| Aromatizer.CycleKeyInvariant | src/molecule/aromatizer.go:168-187 | so every rotation and the reversal of a cycle get the same key |
| Aromatizer.ReversedDigits | src/molecule/aromatizer.go:251-256 | the digit loop gives the decimal digits least significant first, none for 0 |
| Aromatizer.ReverseInPlace | src/molecule/aromatizer.go:260-263 | the swap loop reverses the buffer in place |
| Aromatizer.FmtIntAsWritten | src/molecule/aromatizer.go:241-265 | `fmtInt` on 64-bit integers gives the decimal form of every value but the least, for which it gives "-" |
| Aromatizer.FmtInt | src/molecule/aromatizer.go:241-265 | with the magnitude taken without overflow, `fmtInt` gives the decimal form of every integer |
| Aromatizer.SeqKey | src/molecule/aromatizer.go:223-239 | `seqKey`: the entries in decimal, comma-separated |
| Aromatizer.NormalizeCycleKey | src/molecule/aromatizer.go:168-187 | the method computes the cycle key |
| Aromatizer.DedupCycles | src/molecule/aromatizer.go:151-166 | `dedupCycles` keeps each non-empty cycle whose key no earlier kept cycle has |
| Aromatizer.DedupDropsRotations | src/molecule/aromatizer.go:151-166 | no kept cycle is a rotation or the reversal of an earlier kept one |
| Aromatizer.FirstEdgeFinds | src/molecule/aromatizer.go:85-109 | searching an atom's edge list finds a bond exactly when some bond joins the two atoms |
| Aromatizer.EdgeBetween | src/molecule/aromatizer.go:99-106 | the edge-list loop finds the first joining bond |
| Aromatizer.AreNeighbors | src/molecule/aromatizer.go:85-93 | `areNeighbors` holds exactly when a bond joins the two atoms |
| Aromatizer.CycleEdgesComplete | src/molecule/aromatizer.go:95-109 | `cycleEdges` finds a bond for every step exactly when every step of the cycle is bonded |
| Aromatizer.CycleEdges | src/molecule/aromatizer.go:95-109 | the loop computes the cycle's edges |
| Aromatizer.AlternatingCycleBonds | src/molecule/aromatizer.go:111-148 | an alternating cycle is closed by bonds, each single or double |
| Aromatizer.IsAlternatingSingleDouble | src/molecule/aromatizer.go:111-148 | the scan with its early exit holds exactly when the cycle is closed by bonds alternating single/double in one of the two phases |
| Aromatizer.MarkAll | src/molecule/aromatizer.go:21-25 | `setBondOrderInternal` on every listed edge sets each to the order and changes nothing else |
| Aromatizer.AromatizeCycle | src/molecule/aromatizer.go:20-26 | one cycle: marked aromatic exactly when it alternates on the current bonds |
| Aromatizer.Aromatize | src/molecule/aromatizer.go:17-29 | `Aromatize`: the bonds and `BondOrders` are those of walking the cycles in turn; the molecule ends aromatized with no aromaticity cache |
| Aromatizer.AromatizedOnlyMarks | src/molecule/aromatizer.go:17-29 | `Aromatize` only ever sets the aromatic order and never moves a bond |
| Aromatizer.AromatizeOneAlternating | src/molecule/aromatizer.go:17-29 | a Kekule benzene ends with each of its six steps closed by an aromatic bond, and nothing else changes |
| Aromatizer.AromatizeAllSingle | src/molecule/aromatizer.go:17-29 | a molecule with only single bonds is left as it was |
| Aromatizer.DearomatizedOrders | src/molecule/aromatizer.go:32-40 | after `Dearomatize` no entry is aromatic, and only aromatic entries changed, to single |
| Aromatizer.DearomatizeIdempotent | src/molecule/aromatizer.go:32-40 | dearomatizing twice changes nothing more |
| Aromatizer.Dearomatize | src/molecule/aromatizer.go:32-40 | the loop computes `DearomatizedOrders` and the matching bonds; the molecule ends not aromatized |
| Dearomatizer.DearomatizedClean | src/molecule/dearomatizer.go:15-63 | after `Apply` no `BondOrders` entry is aromatic, and an entry changes only where it or its bond was aromatic |
| Dearomatizer.RingEdges | src/molecule/dearomatizer.go:19-20 | the six edges of a ring of distinct, bonded atoms are distinct and each joins its step |
| Dearomatizer.KekuleAround | src/molecule/dearomatizer.go:33-52 | six distinct unused edges rewritten from the start position end up alternating single/double from there |
| Dearomatizer.BenzeneKekule | src/molecule/dearomatizer.go:15-63 | an all-aromatic benzene ring comes out alternating single/double, starting single at its lowest-numbered atom |
| Dearomatizer.CheckAromatic | src/molecule/dearomatizer.go:20-31 | the check holds exactly when every cycle edge is aromatic |
| Dearomatizer.RotateEdges | src/molecule/dearomatizer.go:39-42 | the rotated edge buffer |
| Dearomatizer.AssignRotated | src/molecule/dearomatizer.go:43-52 | the rewriting loop: unused edges get single or double by position and are marked used |
| Dearomatizer.ApplyCycle | src/molecule/dearomatizer.go:18-53 | one cycle of `Apply`, skipped unless it has six aromatic edges |
| Dearomatizer.ClearLeftovers | src/molecule/dearomatizer.go:55-60 | every aromatic entry whose bond is unused becomes single |
| Dearomatizer.Apply | src/molecule/dearomatizer.go:15-63 | `Apply` computes `Dearomatized`, and the molecule ends not aromatized |
| Lipinski.FarEnd | src/molecule/lipinski.go:49-58 | `otherEnd`: the far end of a bond from one of its ends, or the atom itself when it is not an end |
| Lipinski.SeenEndsAreNeighbours | src/molecule/lipinski.go:34-47 | the `seen` set built from an atom's bonds is exactly the set of its neighbours |
| Lipinski.IsLikelyRingEdge | src/molecule/lipinski.go:34-47 | the two loops compute `LikelyRing`: a neighbour of the far end other than the near end is also a neighbour of the near end |
| Lipinski.NumRotatableBonds | src/molecule/lipinski.go:7-32 | 0 for no molecule, otherwise the number of non-terminal single bonds that are not likely ring edges |
| Lipinski.RotatableAtMostSingles | src/molecule/lipinski.go:7-32 | rotatable bonds are at most the single bonds between non-terminal atoms, which are at most the single bonds |
| Lipinski.CountAcceptors | src/molecule/lipinski.go:61-81 | the loop counts the acceptor atoms |
| Lipinski.NumHydrogenBondAcceptors | src/molecule/lipinski.go:61-81 | 0 for no molecule, otherwise the number of acceptor atoms; the molecule's atoms and bonds are unchanged |
| Lipinski.CountDonors | src/molecule/lipinski.go:84-103 | the loop counts the donor atoms |
| Lipinski.NumHydrogenBondDonors | src/molecule/lipinski.go:84-103 | 0 for no molecule, otherwise the number of N or O atoms, not negatively charged, with implicit hydrogens |
| Lipinski.CountsAtMostHetero | src/molecule/lipinski.go:61-103 | both counts are at most the number of N and O atoms |
| Lipinski.DonorIsNeutral | src/molecule/lipinski.go:84-103 | a donor is neutral: the implicit-hydrogen rule gives a charged atom none |
| Lipinski.HydroxylBoth | src/molecule/lipinski.go:61-103 | a neutral hydroxyl oxygen is both an acceptor and a donor |
| MoleculeHash.FnvFoldAppend | molecule/molecule_hash.go:112-121 | FNV-1a over a concatenation is FNV-1a over the second part from the state the first part left |
| MoleculeHash.LeBytes | molecule/molecule_hash.go:114-119 | eight bytes per word |
| MoleculeHash.LeBytesInjective | molecule/molecule_hash.go:114-119 | all 64 bits of a word take part: different words give different byte lists |
| MoleculeHash.Fnv1a64Add | molecule/molecule_hash.go:112-121 | `fnv1a64Add`: the eight-round loop folds the word's bytes in, low byte first |
| MoleculeHash.Fnv1a64Uint | molecule/molecule_hash.go:110-124 | `fnv1a64Uint`: a word hashed from the offset basis |
| MoleculeHash.HeavyList | molecule/molecule_hash.go:15-24 | `newToOld` lists only non-hydrogen atoms |
| MoleculeHash.HeavyListComplete | molecule/molecule_hash.go:15-24 | every non-hydrogen atom is listed |
| MoleculeHash.HeavyListIncreasing | molecule/molecule_hash.go:15-24 | the list is strictly increasing, so no atom is listed twice |
| MoleculeHash.PosMap | molecule/molecule_hash.go:22 | `oldToNew` inverts `newToOld` |
| MoleculeHash.BiasedCharge | molecule/molecule_hash.go:47-53 | the charge biased by 2048 and clamped to 0..4095 |
| MoleculeHash.PackedValue | molecule/molecule_hash.go:54-57 | the packed atom word fits 64 bits |
| MoleculeHash.PackedFieldsDisjoint | molecule/molecule_hash.go:54-57 | the four packed fields do not overlap: equal words have equal (truncated) fields |
| MoleculeHash.Rounds | molecule/molecule_hash.go:62-65 | half the bond count rounded up, and at least 2 |
| MoleculeHash.HeavyAtoms | molecule/molecule_hash.go:15-24 | step 1 computes `newToOld` and `oldToNew` |
| MoleculeHash.HeavyDegreeOf | molecule/molecule_hash.go:36-46 | the degree loop counts bonds to listed atoms |
| MoleculeHash.InitialAtomCodes | molecule/molecule_hash.go:30-59 | step 2 computes the initial code of every heavy atom |
| MoleculeHash.NeighbourHash | molecule/molecule_hash.go:69-90 | the neighbour loop folds each heavy neighbour's code and the bond order |
| MoleculeHash.RefineOnce | molecule/molecule_hash.go:67-92 | one refinement round |
| MoleculeHash.RefineAll | molecule/molecule_hash.go:66-93 | the refinement rounds |
| MoleculeHash.AggregateCodes | molecule/molecule_hash.go:95-99 | step 4 folds the codes in order |
| MoleculeHash.CalculateMoleculeHash | molecule/molecule_hash.go:14-101 | `CalculateMoleculeHash` computes `MoleculeHash` |
| MoleculeHash.AllHydrogenHashesZero | molecule/molecule_hash.go:25-28 | with no heavy atom the hash is 0 |
| MoleculeHash.HeavyListOfPrefix | molecule/molecule_hash.go:15-24 | appending atoms leaves the heavy list of the earlier atoms unchanged |
| MoleculeHash.IsolatedHydrogenKeepsHash | molecule/molecule_hash.go:10-13 | adding a hydrogen with no bonds does not change the hash |
| MoleculeHash.HydrogenBondKeepsHash | molecule/molecule_hash.go:10-13 | adding a bond to a hydrogen does not change the hash, as long as the round count stays the same |
| Fingerprints.PopCountSetBit | src/molecule_fingerprint.go:68-94 | setting a bit adds one to the word's count exactly when it was clear |
| Fingerprints.BitIndexDistinct | src/molecule_fingerprint.go:68-85 | two positions in the same word have different bit indices |
| Fingerprints.SetWordsBitSpec | src/molecule_fingerprint.go:68-85 | after setting bit `pos`, a bit is set exactly when it was set before or is `pos` |
| Fingerprints.TotalPopUpdate | src/molecule_fingerprint.go:88-94 | changing one word changes the total count by that word's change |
| Fingerprints.CountAfterSet | src/molecule_fingerprint.go:68-94 | one `SetBit` raises `CountBits` by one exactly when the bit was clear |
| Fingerprints.CountAfterFirstSet | src/molecule_fingerprint.go:68-94 | one `SetBit` on an empty print gives a count of 1 |
| Fingerprints.HammingSymmetric | src/molecule_fingerprint.go:436-447 | the Hamming distance is symmetric |
| Fingerprints.HammingSelf | src/molecule_fingerprint.go:436-447 | identical prints are at distance 0 |
| Fingerprints.HexOfBytesDecode | src/molecule_fingerprint.go:414-430 | each byte's two hex digits decode back to it |
| Fingerprints.HexOfWordsDigits | src/molecule_fingerprint.go:414-430 | every character of the hex form is one of 0-9a-f |
| Fingerprints.HashPosition | src/molecule_fingerprint.go:97-104 | each derived position lies below the size taken as a 32-bit value |
| Fingerprints.HashPositions | src/molecule_fingerprint.go:97-104 | one derived position per requested bit, none for a count of 0 or less |
| Fingerprints.Fingerprint.constructor | src/molecule_fingerprint.go:54-65 | `NewFingerprint`: a size of 0 or less becomes 2048, with ceil(size/64) clear words |
| Fingerprints.Fingerprint.GetBit | src/molecule_fingerprint.go:78-85 | `GetBit` is false outside `[0, Size)` |
| Fingerprints.Fingerprint.SetBit | src/molecule_fingerprint.go:68-75 | `SetBit`: a no-op outside `[0, Size)`; otherwise exactly bit `pos` becomes set |
| Fingerprints.Fingerprint.CountBits | src/molecule_fingerprint.go:88-94 | the loop computes the total population count |
| Fingerprints.Fingerprint.SetBitsFromHash | src/molecule_fingerprint.go:97-104 | exactly the derived positions become set and no other bit changes |
| Fingerprints.WordToHex | src/molecule_fingerprint.go:414-423 | the inner loop writes a word's eight bytes, least significant first, two digits each |
| Fingerprints.Fingerprint.ToHexString | src/molecule_fingerprint.go:414-423 | 16 hex digits per word, in word order |
| Fingerprints.HammingDistance | src/molecule_fingerprint.go:436-447 | -1 for prints of different word counts, otherwise the number of differing bits |
| Stereocenters.SwapFirstTwoInvolutive | src/molecule/molecule_stereocenters.go:142-146 | inverting a pyramid twice restores it |
| Stereocenters.PadPyramidSlots | src/molecule/molecule_stereocenters.go:69-88 | the pyramid keeps the first four neighbours and pads the rest with -1 |
| Stereocenters.UpdateCardinality | src/molecule/molecule_stereocenters.go:46-66 | an entry with a new key grows the map by one; an existing key is overwritten |
| Stereocenters.RemoveCardinality | src/molecule/molecule_stereocenters.go:91-93 | removing a key shrinks the map by one exactly when it was there |
| Stereocenters.DifferentAsWrittenOrderDependent | src/molecule/molecule_stereocenters.go:197-217 | the scan as written accepts neighbour numbers [6,6,7,8] and rejects [6,7,8,6] |
| Stereocenters.DistinctImpliesAsWritten | src/molecule/molecule_stereocenters.go:197-217 | the corrected test is never more permissive than the scan as written |
| Stereocenters.HasDifferentSubstituents | src/molecule/molecule_stereocenters.go:197-217 | the corrected scan holds exactly when all neighbour numbers are different |
| Stereocenters.PossibleFor | src/molecule/molecule_stereocenters.go:149-194 | not possible below three neighbours; possible only for C, N, S or P with at most four distinct neighbours; a lone pair only on N |
| Stereocenters.MoleculeStereocenters.Clear | src/molecule/molecule_stereocenters.go:41-43 | no centres afterwards |
| Stereocenters.MoleculeStereocenters.Size | src/molecule/molecule_stereocenters.go:46-48 | the number of atoms that are centres |
| Stereocenters.MoleculeStereocenters.Add | src/molecule/molecule_stereocenters.go:57-66 | the centre replaces whatever was on the atom; `Exists` holds; the size grows only for a new atom |
| Stereocenters.MoleculeStereocenters.AddWithInversion | src/molecule/molecule_stereocenters.go:69-88 | the pyramid is the padded neighbours, with slots 0 and 1 swapped when asked |
| Stereocenters.MoleculeStereocenters.Remove | src/molecule/molecule_stereocenters.go:91-93 | `Exists` is false afterwards and the others stay |
| Stereocenters.MoleculeStereocenters.Get | src/molecule/molecule_stereocenters.go:96-101 | an error exactly for an atom that is not a centre |
| Stereocenters.MoleculeStereocenters.GetType | src/molecule/molecule_stereocenters.go:104-109 | -1 for an atom that is not a centre |
| Stereocenters.MoleculeStereocenters.GetGroup | src/molecule/molecule_stereocenters.go:112-117 | -1 for an atom that is not a centre |
| Stereocenters.MoleculeStereocenters.GetPyramid | src/molecule/molecule_stereocenters.go:134-139 | all -1 for an atom that is not a centre |
| Stereocenters.MoleculeStereocenters.SetType | src/molecule/molecule_stereocenters.go:120-124 | changes only the type of an existing centre |
| Stereocenters.MoleculeStereocenters.SetGroup | src/molecule/molecule_stereocenters.go:127-131 | changes only the group of an existing centre |
| Stereocenters.MoleculeStereocenters.InvertPyramid | src/molecule/molecule_stereocenters.go:142-146 | swaps slots 0 and 1 of an existing centre, nothing otherwise |
| Stereocenters.MoleculeStereocenters.IsPossibleStereocenter | src/molecule/molecule_stereocenters.go:149-194 | the method computes `PossibleAt` (a bad index or fewer than three neighbours is not possible) |
| Stereocenters.MoleculeStereocenters.BuildFromBonds | src/molecule/molecule_stereocenters.go:220-257 | afterwards the centres are exactly the possible centres with both an up and a down wedge, and the sensible bonds are exactly their bonds |
| Stereocenters.MoleculeStereocenters.HaveAbs | src/molecule/molecule_stereocenters.go:387-394 | some centre is absolute |
| Stereocenters.MoleculeStereocenters.HaveAllAbs | src/molecule/molecule_stereocenters.go:397-407 | false when there are no centres, otherwise whether every centre is absolute |
| Stereocenters.MoleculeStereocenters.GetAllCenters | src/molecule/molecule_stereocenters.go:412-418 | every centre's atom exactly once |
| Stereocenters.MoleculeStereocenters.GetAbsAtoms | src/molecule/molecule_stereocenters.go:344-352 | the atoms of the absolute centres, each once |
| Stereocenters.MoleculeStereocenters.GetOrGroups | src/molecule/molecule_stereocenters.go:355-368 | the group numbers of the OR centres, each once |
| Stereocenters.MoleculeStereocenters.GetAndGroups | src/molecule/molecule_stereocenters.go:371-384 | the group numbers of the AND centres, each once |
| Stereocenters.NeighborNumbers | src/molecule/molecule_stereocenters.go:197-217 | the atomic numbers of the neighbours |
| Stereocenters.ScanWedges | src/molecule/molecule_stereocenters.go:234-244 | whether an up and a down wedge are among the atom's bonds |
| CisTransBonds.NeighborConnected | src/molecule/molecule_cis_trans.go:118-147 | a listed neighbour is bonded to its atom |
| CisTransBonds.SubstituentsAllSides | src/molecule/molecule_cis_trans.go:118-147 | slots 0-1 hold atoms bonded to the begin atom (not the end atom) and slots 2-3 atoms bonded to the end atom (not the begin atom) |
| CisTransBonds.ParityFromWedges | src/molecule/molecule_cis_trans.go:281-327 | without coordinates, wedges pointing the same way on both ends give cis, opposite ways trans, anything else no parity |
| CisTransBonds.RetargetRemoves | src/molecule/molecule_cis_trans.go:370-385 | after retargeting, the old substituent is gone and every other one stays |
| CisTransBonds.CollectOthers | src/molecule/molecule_cis_trans.go:126-144 | the loop collects the neighbours other than the partner atom, in order |
| CisTransBonds.ScanDirection | src/molecule/molecule_cis_trans.go:290-310 | the loop finds the first non-zero wedge direction among the other bonds |
| CisTransBonds.MoleculeCisTrans.Clear | src/molecule/molecule_cis_trans.go:36-38 | no entries afterwards |
| CisTransBonds.MoleculeCisTrans.Count | src/molecule/molecule_cis_trans.go:41-48 | the number of registered bonds, 0 exactly when none exists |
| CisTransBonds.MoleculeCisTrans.GetParity | src/molecule/molecule_cis_trans.go:58-63 | 0 for an unregistered bond |
| CisTransBonds.MoleculeCisTrans.GetSubstituents | src/molecule/molecule_cis_trans.go:110-115 | all -1 for an unregistered bond |
| CisTransBonds.MoleculeCisTrans.SetParity | src/molecule/molecule_cis_trans.go:51-55 | changes only the parity of an existing entry |
| CisTransBonds.MoleculeCisTrans.Ignore | src/molecule/molecule_cis_trans.go:74-85 | marks the entry ignored, creating a blank one when absent |
| CisTransBonds.MoleculeCisTrans.RegisterBond | src/molecule/molecule_cis_trans.go:88-97 | a blank entry for a new bond; an existing entry is never overwritten |
| CisTransBonds.RegisterIdempotent | src/molecule/molecule_cis_trans.go:88-97 | registering twice is registering once, and keeps every earlier entry |
| CisTransBonds.MoleculeCisTrans.Add | src/molecule/molecule_cis_trans.go:100-107 | the new entry replaces any earlier one and is not ignored |
| CisTransBonds.MoleculeCisTrans.Describe | src/molecule/molecule_cis_trans.go:412-427 | "none", "ignored", "cis (Z)", "trans (E)" or "undefined" by the entry's state |
| CisTransBonds.MoleculeCisTrans.GetAllBonds | src/molecule/molecule_cis_trans.go:403-409 | every registered bond exactly once |
| CisTransBonds.FillSide | src/molecule/molecule_cis_trans.go:126-144 | one side's two slots: the first two other neighbours, padded with -1 |
| CisTransBonds.MoleculeCisTrans.GetSubstituentsAll | src/molecule/molecule_cis_trans.go:118-147 | the four slots read off the molecule |
| CisTransBonds.MoleculeCisTrans.IsGeomStereoBond | src/molecule/molecule_cis_trans.go:177-263 | holds exactly for `GeomStereo`: a double bond with one or two substituents on each side that are distinguishable; only ever for a double bond |
| CisTransBonds.MoleculeCisTrans.RegisterBondAndSubstituents | src/molecule/molecule_cis_trans.go:266-278 | the bond's entry becomes its substituents and parity |
| CisTransBonds.DetermineParity | src/molecule/molecule_cis_trans.go:281-327 | the method computes `Parity` |
| CisTransBonds.MoleculeCisTrans.Build | src/molecule/molecule_cis_trans.go:150-174 | afterwards the entries are exactly the bonds outside the exclusions that pass `IsGeomStereoBond`, each with its substituents and parity |
| CisTransBonds.MoleculeCisTrans.FlipBond | src/molecule/molecule_cis_trans.go:370-385 | in every entry whose bond touches the parent atom, the old substituent is replaced by the new one; the bond set is unchanged |
| CisTransBonds.MoleculeCisTrans.Validate | src/molecule/molecule_cis_trans.go:388-400 | exactly the entries whose bond fails `IsGeomStereoBond` are removed; the rest are untouched |
| SGroups.NewSGroup | src/molecule_sgroups.go:101-110 | a new S-group has no position and no atoms or bonds |
| SGroups.AddAtom | src/molecule_sgroups.go:113-115 | appends the atom and leaves the bonds |
| SGroups.AddBond | src/molecule_sgroups.go:118-120 | appends the bond and leaves the atoms |
| SGroups.HasAtom | src/molecule_sgroups.go:123-130 | holds exactly when the atom is listed |
| SGroups.TypeString | src/molecule_sgroups.go:133-168 | a three-letter name exactly for the fifteen types, "UNKNOWN" otherwise |
| SGroups.ParseSGroupTypeString | src/molecule_sgroups.go:424-459 | always one of the fifteen types |
| SGroups.TypeStringRoundTrip | src/molecule_sgroups.go:424-459 | parsing a written type name gives the type back |
| SGroups.ParseRoundTrip | src/molecule_sgroups.go:133-168 | writing a parsed name gives the name back, unless the name was unknown and parsed as the generic type |
| SGroups.SurvivorsMembers | src/molecule_sgroups.go:409-417 | the survivors are exactly the listed atoms that were not removed |
| SGroups.RemapWithoutMapping | src/molecule_sgroups.go:409-417 | without a mapping, removal keeps exactly the atoms not removed |
| SGroups.RemapAtomsEntries | src/molecule_sgroups.go:409-417 | every kept atom is renumbered by a non-negative mapping entry when there is one, and kept as it was otherwise |
| SGroups.MoleculeSGroups.Clear | src/molecule_sgroups.go:310-312 | no S-groups afterwards |
| SGroups.MoleculeSGroups.Count | src/molecule_sgroups.go:281-283 | the number of S-groups |
| SGroups.MoleculeSGroups.Add | src/molecule_sgroups.go:251-270 | returns the old count, and the entry goes last with that position recorded |
| SGroups.MoleculeSGroups.Get | src/molecule_sgroups.go:273-278 | an error exactly outside the list, the entry otherwise |
| SGroups.MoleculeSGroups.Remove | src/molecule_sgroups.go:286-307 | nothing for a bad position; otherwise the entry is cut out and every later one moves down with its position updated |
| SGroups.MoleculeSGroups.FindByType | src/molecule_sgroups.go:315-342 | exactly the positions of the S-groups of the type, in increasing order |
| SGroups.SelectGroups | src/molecule_sgroups.go:345-381 | only S-groups of the selected kinds, and all of them |
| SGroups.MoleculeSGroups.GroupsWhere | src/molecule_sgroups.go:345-381 | `GetSuperatoms`, `GetDataSGroups`, `GetSRUGroups` compute `SelectGroups` |
| SGroups.RemapList | src/molecule_sgroups.go:408-418 | the inner loop computes the kept, renumbered atom list |
| SGroups.MoleculeSGroups.RemoveAtomsFromSGroups | src/molecule_sgroups.go:384-421 | every S-group drops the listed atoms and renumbers the rest; the list keeps its length |
| SGroups.MoleculeSGroups.FindAtomsInSGroups | src/molecule_sgroups.go:477-502 | exactly the atoms of some S-group |
| SubstructureMatch.FindBondInMeans | src/molecule/molecule_substructure_matcher.go:191-209 | the bond lookup returns -1 exactly when the two atoms are not bonded, otherwise the index of a bond joining them |
| SubstructureMatch.BondAgreesMeans | src/molecule/molecule_substructure_matcher.go:191-209 | a query pair that is not bonded imposes nothing; a bonded one needs a target bond of the same order |
| SubstructureMatch.RequiredConnectionsMeans | src/molecule/molecule_substructure_matcher.go:212-242 | every already-mapped query neighbour is bonded in the target with the same bond order |
| SubstructureMatch.UnmappedMark | src/molecule/molecule_substructure_matcher.go:94-163 | mapping one more query atom lowers the unmapped count by one (the recursion's measure) |
| SubstructureMatch.MarkKeepsPartial | src/molecule/molecule_substructure_matcher.go:94-163 | assigning a compatible, unused target atom keeps the mapping sound and injective and only extends it |
| SubstructureMatch.NoImageBeyond | src/molecule/molecule_substructure_matcher.go:94-163 | no embedding extends a mapping with an image past the target's last atom |
| SubstructureMatch.Pigeonhole | src/molecule/molecule_substructure_matcher.go:94-163 | an injective map into n target atoms has at most n entries |
| SubstructureMatch.EmbeddingFits | src/molecule/molecule_substructure_matcher.go:30-59 | an embedding exists only when the query has no more atoms than the target, and it starts at a target atom |
| SubstructureMatch.ShouldHaveBond | src/molecule/molecule_substructure_matcher.go:191-209 | `shouldHaveBond` decides `BondAgrees` |
| SubstructureMatch.HasRequiredConnections | src/molecule/molecule_substructure_matcher.go:212-242 | `hasRequiredConnections` decides `RequiredConnections` over the current mapping |
| SubstructureMatch.CheckPair | src/molecule/molecule_substructure_matcher.go:212-242 | one neighbour check of `hasRequiredConnections` decides `PairAgrees` |
| SubstructureMatch.RecursiveMatch | src/molecule/molecule_substructure_matcher.go:94-163 | corrected search: on success the mapping is sound, complete and extends the old one; on failure nothing changes; it succeeds whenever some embedding extends the current mapping |
| SubstructureMatch.RecursiveMatchAsWritten | src/molecule/molecule_substructure_matcher.go:94-163 | the search as written stops once the last query atom is mapped, so success only promises that atom, not a complete mapping |
| SubstructureMatch.MatchFrom | src/molecule/molecule_substructure_matcher.go:94-163 | the shared search, switched between the written stop test and the corrected one |
| SubstructureMatch.EarlyStopNoMatch | src/molecule/molecule_substructure_matcher.go:94-163 | a three-atom query with no complete embedding into a two-atom target |
| SubstructureMatch.EarlyStopAsWritten | src/molecule/molecule_substructure_matcher.go:105-139 | on that input the written stop test is met by a partial mapping [0, -1, 1] that leaves atom 1 unmapped |
| SubstructureMatch.BondMappingMeans | src/molecule/molecule_substructure_matcher.go:245-265 | each query bond maps to -1 when an end is unmapped or the images are not bonded, otherwise to a target bond joining the images |
| SubstructureMatch.BuildBondMapping | src/molecule/molecule_substructure_matcher.go:245-265 | `buildBondMapping` computes `BondMapping` |
| SubstructureMatch.ListedSnoc | src/molecule/molecule_substructure_matcher.go:30-59 | appending a result adds exactly its start atom to the listed starts |
| SubstructureMatch.CollectStep | src/molecule/molecule_substructure_matcher.go:30-59 | one iteration of the outer loop keeps "every start below n with an embedding is listed" |
| SubstructureMatch.MatchFromStart | src/molecule/molecule_substructure_matcher.go:30-59 | one outer-loop iteration: a found result starts at that atom; none means no embedding starts there |
| SubstructureMatch.FindFirst | src/molecule/molecule_substructure_matcher.go:62-86 | a result is a sound, complete match with its bond mapping, from the lowest target atom that starts an embedding; no result means no embedding exists; a larger query never matches |
| SubstructureMatch.FindAll | src/molecule/molecule_substructure_matcher.go:30-59 | every result is a sound complete match, at most one per start atom in increasing order, and every start atom with an embedding is listed |
| SubstructureMatch.HasMatch | src/molecule/molecule_substructure_matcher.go:89-91 | true only with a sound complete mapping, and true whenever an embedding exists |
| SubstructureMatch.CountMatches | src/molecule/molecule_substructure_matcher.go:268-271 | between 0 and the number of target atoms, and positive whenever an embedding exists |
| SubstructureMatch.MatchedMembers | src/molecule/molecule_substructure_matcher.go:274-282 | the matched list holds exactly the entries other than -1 |
| SubstructureMatch.MatchedAppend | src/molecule/molecule_substructure_matcher.go:274-282 | filtering distributes over concatenation |
| SubstructureMatch.CompleteIffNothingDropped | src/molecule/molecule_substructure_matcher.go:296-303 | a mapping is complete exactly when filtering drops nothing |
| SubstructureMatch.GetMatchedAtoms | src/molecule/molecule_substructure_matcher.go:274-282 | the mapped target atoms, in query order |
| SubstructureMatch.GetMatchedBonds | src/molecule/molecule_substructure_matcher.go:285-293 | the mapped target bonds, in query order |
| SubstructureMatch.IsComplete | src/molecule/molecule_substructure_matcher.go:296-303 | true exactly when every query atom is mapped |
| BaseMolecules.BaseMolecule.constructor | reaction/base_molecule.go:31-39 | every per-atom and per-bond array is empty, no coordinates |
| BaseMolecules.BaseMolecule.CloneFrom | reaction/base_molecule.go:42-56 | the arrays and flags of `other` are copied; cloning a molecule from itself zeroes the mapping numbers and marks and clears the selection, keeping their lengths |
| BaseMolecules.BaseMolecule.VertexBegin | reaction/base_molecule.go:59-61 | vertex iteration starts at 0 |
| BaseMolecules.BaseMolecule.VertexEnd | reaction/base_molecule.go:64-66 | one vertex per atom-mapping entry |
| BaseMolecules.BaseMolecule.VertexNext | reaction/base_molecule.go:69-71 | vertices are numbered consecutively |
| BaseMolecules.BaseMolecule.HasSelection | reaction/base_molecule.go:94-101 | true exactly when some selection entry is set |
| BaseReactions.SideFlags | src/reaction/constants.go:41-45 | each side flag is a distinct power of two inside the whole-reaction mask, so the all-sides iteration visits it |
| BaseReactions.RemoveKeepsCounts | reaction/base_reaction.go:111-135 | removing a molecule lowers exactly its side's counter, so the counters still count the sides |
| BaseReactions.AppendKeepsCounts | reaction/base_reaction.go:460-479 | appending a molecule raises exactly its side's counter |
| BaseReactions.ZeroMapping | reaction/base_reaction.go:391-398 | one molecule's mapping numbers all become 0, with the length kept |
| BaseReactions.BaseReaction.constructor | reaction/base_reaction.go:45-63 | no molecules, blocks or conditions, empty name, empty property and metadata stores |
| BaseReactions.BaseReaction.Clear | reaction/base_reaction.go:66-78 | every list is emptied and the name reset; the counters stay consistent |
| BaseReactions.BaseReaction.End | reaction/base_reaction.go:96-98 | one past the last molecule |
| BaseReactions.BaseReaction.GetSideType | reaction/base_reaction.go:233-238 | the side of a molecule, 0 for an index out of range |
| BaseReactions.BaseReaction.ReactantsCount | reaction/base_reaction.go:251-253 | the number of molecules on the reactant side |
| BaseReactions.BaseReaction.ProductsCount | reaction/base_reaction.go:256-258 | the number of molecules on the product side |
| BaseReactions.BaseReaction.CatalystCount | reaction/base_reaction.go:261-263 | the number of catalysts |
| BaseReactions.BaseReaction.IntermediateCount | reaction/base_reaction.go:246-248 | the number of intermediates |
| BaseReactions.BaseReaction.UndefinedCount | reaction/base_reaction.go:241-243 | the number of molecules of undefined side |
| BaseReactions.BaseReaction.NextElement | reaction/base_reaction.go:614-627 | the first molecule after `index` whose side shares a bit with the mask, and none skipped that does; the end when there is none |
| BaseReactions.BaseReaction.Begin | reaction/base_reaction.go:91-93 | the whole-reaction iteration starts at molecule 0 |
| BaseReactions.BaseReaction.Next | reaction/base_reaction.go:101-103 | the whole-reaction iteration visits every molecule in turn |
| BaseReactions.BaseReaction.MoveCounter | reaction/base_reaction.go:461-472 | exactly the counter of the given side moves by one; any other value changes nothing |
| BaseReactions.BaseReaction.Remove | reaction/base_reaction.go:111-135 | an index out of range is an error that changes nothing; otherwise the molecule and its side are taken out and the counters stay consistent |
| BaseReactions.BaseReaction.AddedBaseMolecule | reaction/base_reaction.go:460-479 | the new index gets its side and the counters stay consistent |
| BaseReactions.BaseReaction.AddBaseMolecule | reaction/base_reaction.go:451-479 | a new empty molecule is appended on the side; earlier molecules are untouched |
| BaseReactions.BaseReaction.AddCopy | reaction/base_reaction.go:482-529 | a fresh copy with the same contents is appended on the side |
| BaseReactions.BaseReaction.GetBaseMolecule | reaction/base_reaction.go:606-611 | the molecule at an index, nothing for an index out of range |
| BaseReactions.BaseReaction.GetAAM | reaction/base_reaction.go:331-340 | the mapping number, 0 when either index is out of range |
| BaseReactions.BaseReaction.GetReactingCenter | reaction/base_reaction.go:343-352 | the bond's reacting-centre mark, 0 when either index is out of range |
| BaseReactions.BaseReaction.GetInversion | reaction/base_reaction.go:355-364 | the atom's inversion mark, 0 when either index is out of range |
| BaseReactions.BaseReaction.GetAAMArray | reaction/base_reaction.go:367-372 | the whole mapping array, empty for a bad index |
| BaseReactions.BaseReaction.ClearAAM | reaction/base_reaction.go:391-398 | afterwards every mapping number reads 0 and every array keeps its length |
| BaseReactions.BaseReaction.FindAtomByAAM | reaction/base_reaction.go:532-544 | the first atom with that mapping number, or -1 exactly when there is none or the molecule index is bad |
| BaseReactions.BaseReaction.FindMolecule | reaction/base_reaction.go:567-574 | the first position holding that very molecule, or -1 exactly when it is absent |
| BaseReactions.BaseReaction.FindAamNumber | reaction/base_reaction.go:547-554 | an error exactly when the molecule is absent, otherwise its mapping number for the atom |
| BaseReactions.BaseReaction.FindReactingCenter | reaction/base_reaction.go:557-564 | an error exactly when the molecule is absent, otherwise its reacting-centre mark for the bond |
| BaseReactions.BaseReaction.HasSelection | reaction/base_reaction.go:596-603 | true exactly when some molecule has a selected atom |
| BaseReactions.BaseReaction.ReactionBlocksCount | reaction/base_reaction.go:271-273 | the number of reaction blocks |
| BaseReactions.BaseReaction.ReactionBlockAt | reaction/base_reaction.go:276-281 | the block at an index, nothing for a bad index |
| BaseReactions.BaseReaction.AddReactionBlock | reaction/base_reaction.go:284-288 | an empty block is appended and its index returned |
| BaseReactions.BaseReaction.ClearReactionBlocks | reaction/base_reaction.go:291-293 | no blocks remain |
| BaseReactions.BaseReaction.ReactionBegin | reaction/base_reaction.go:301-309 | the first populated block, or the block count |
| BaseReactions.BaseReaction.ReactionEnd | reaction/base_reaction.go:312-317 | the block count, and 1 for a reaction without blocks |
| BaseReactions.BaseReaction.ReactionNext | reaction/base_reaction.go:320-328 | the next populated block after `i` with none skipped, or the end |
| BaseReactions.BaseReaction.AddSpecialCondition | reaction/base_reaction.go:431-435 | the condition is appended and its index returned |
| BaseReactions.BaseReaction.ClearSpecialConditions | reaction/base_reaction.go:438-440 | no special conditions remain |
| BaseReactions.BaseReaction.SpecialConditionAt | reaction/base_reaction.go:443-448 | the condition at an index, an "index out of range" error otherwise |
| BaseReactions.BaseReaction.SetIsRetrosynthetic | reaction/base_reaction.go:635-637 | the reaction becomes retrosynthetic |
| BaseReactions.BaseReaction.MultitaleCount | reaction/base_reaction.go:640-642 | the length of the multi-tail arrow list, 0 when the metadata has none |
| BaseReactions.BaseReaction.CopyAt | reaction/base_reaction.go:662-682 | one turn of the clone loop adds a fresh copy of molecule `i` on its own side |
| BaseReactions.BaseReaction.CopyMolecules | reaction/base_reaction.go:662-689 | fresh copies of all molecules on the same sides, in order, with the identity index mapping when asked |
| BaseReactions.BaseReaction.Clone | reaction/base_reaction.go:654-690 | this reaction becomes a copy of `other` (molecules, sides, name, flags, properties, metadata); cloning from itself leaves no molecules |
| BaseReactions.HaveCoord | reaction/base_reaction.go:586-593 | true exactly when every molecule has coordinates |
| ReactionTypes.MetaDataStorage.constructor | reaction/types.go:55-59 | nothing stored |
| ReactionTypes.MetaDataStorage.CloneFrom | reaction/types.go:62-67 | afterwards the store holds `other`'s entries; cloning from itself empties it |
| ReactionTypes.MetaDataStorage.GetMetaCount | reaction/types.go:70-77 | the length of the list stored under the id, 0 when absent or not a list |
| ReactionTypes.PropertiesMap.constructor | reaction/types.go:85-89 | no properties |
| ReactionTypes.PropertiesMap.Copy | reaction/types.go:92-97 | afterwards the map equals `other`'s; copying from itself empties it |
| ReactionTypes.PropertiesMap.Get | reaction/types.go:100-103 | the value and true exactly when the key is present, "" and false otherwise |
| ReactionTypes.PropertiesMap.Set | reaction/types.go:106-108 | the key now reads the value; every other key reads as before |
| InChI.RunsExpand | molecule/molecule_inchi.go:568-604 | the runs of a non-empty atom list list exactly its numbers, in order |
| InChI.RunsMaximal | molecule/molecule_inchi.go:568-604 | each run is as long as the input allows: no run could be merged with the next |
| InChI.WriteRange | molecule/molecule_inchi.go:582-603 | one range is written as "a" or "a-b", after a comma when the builder is non-empty and does not end in a comma (or, for the last range, in "H") |
| InChI.PrintAtomRange | molecule/molecule_inchi.go:568-604 | the builder followed by the runs of the atoms; nothing written for an empty list |
| InChI.AtomRangeExample | molecule/molecule_inchi.go:566-567 | [1,2,3,5,6] prints as "1-3,5-6", as the source's comment promises |
| InChI.GroupMembers | molecule/molecule_inchi.go:537-543 | the group for count h lists exactly the 1-based positions whose atom has h hydrogens |
| InChI.MaxH | molecule/molecule_inchi.go:517-523 | at least every count and 0, and attained when positive |
| InChI.MaxHydrogens | molecule/molecule_inchi.go:517-523 | the maximum loop computes `MaxH` |
| InChI.CollectGroup | molecule/molecule_inchi.go:537-543 | the collecting loop computes the group |
| InChI.WriteHSuffix | molecule/molecule_inchi.go:552-556 | "H", then the count when it is above 1 |
| InChI.HydrogenLayerAsWritten | molecule/molecule_inchi.go:508-564 | the loop as written, with a comma before every hydrogen count up to the maximum |
| InChI.GenerateHydrogenLayer | molecule/molecule_inchi.go:508-564 | corrected layer: the groups that have atoms, joined by commas, each as its ranges and its H suffix |
| InChI.HydrogenGapAsWritten | molecule/molecule_inchi.go:532-547 | an atom with one hydrogen and one with three give "1H,,2H3": an empty group for two hydrogens |
| InChI.HydrogenGapCorrected | molecule/molecule_inchi.go:508-564 | for the same atoms the intended layer is "1H,2H3" |
| InChI.HydrogenLayerNoGap | molecule/molecule_inchi.go:508-564 | when every count from 1 to the maximum occurs, the written and the corrected layers agree |
| InChI.ElementCountsMeaning | molecule/molecule_inchi.go:220-231 | each element is counted once per atom, hydrogen also once per implicit hydrogen, and every stored count is positive |
| InChI.CountElements | molecule/molecule_inchi.go:220-231 | the counting loop computes `ElementCounts` |
| InChI.FormulaFromCounts | molecule/molecule_inchi.go:233-278 | C, then H, then the other elements sorted by symbol, each count above 1 after its symbol |
| InChI.GenerateFormulaLayer | molecule/molecule_inchi.go:215-279 | "" for an empty molecule, otherwise the Hill formula of the element counts |
| InChI.FormulaNonEmpty | molecule/molecule_inchi.go:215-279 | a molecule with atoms has a non-empty formula, so the layer is empty only for the empty molecule |
| InChI.IndicesArePermutation | molecule/molecule_inchi.go:345-378 | the sorted atom records give every atom index exactly once |
| InChI.GetCanonicalNumbering | molecule/molecule_inchi.go:337-379 | the indices sorted by element (heavier first), then by degree (higher first): a permutation of the atoms |
| InChI.ComputeTetrahedralParity | molecule/molecule_inchi.go:777-810 | "+" when the inversions among the non-hydrogen canonical slots are odd, "-" otherwise |
| InChI.SwapFlipsParity | molecule/molecule_inchi.go:794-809 | exchanging the first two distinct atoms flips the sign |
| InChI.SwapFirstTwoFlipsParity | molecule/molecule_inchi.go:777-810 | a centre and its mirror image (first two substituents swapped) get opposite signs |
| InChI.IncreasingIsMinus | molecule/molecule_inchi.go:794-809 | slots already in increasing order give "-" |
| InChI.AddLayer | molecule/molecule_inchi.go:869-905 | one layer appended with its slash tag |
| InChI.InChIGenerator.constructor | molecule/molecule_inchi.go:80-90 | the standard prefix "InChI=1S" with every option off |
| InChI.InChIGenerator.SetPrefix | molecule/molecule_inchi.go:93-95 | the prefix is replaced |
| InChI.InChIGenerator.SetOptions | molecule/molecule_inchi.go:98-100 | the options are replaced |
| InChI.InChIGenerator.ConstructInChIString | molecule/molecule_inchi.go:863-908 | the prefix, then each non-empty layer with its tag in the fixed order, then /m and /s when there is stereochemistry |
| InChI.InChITextPieces | molecule/molecule_inchi.go:863-908 | the string is the prefix followed by the pieces, each after a slash |
| InChI.SplitInChIText | molecule/molecule_inchi.go:863-908 | splitting at slashes gives the prefix and then one piece per written layer, in order |
| InChI.ReadBack | molecule/molecule_inchi.go:863-908 | reading the pieces of well-formed layers gives the layers back: the string is unambiguous |
| InChIKey.EncodeBase26 | molecule/molecule_inchi.go:1007-1031 | exactly `length` capital letters |
| InChIKey.EncodeBase26FromBytes | molecule/molecule_inchi.go:1007-1036 | the 64-bit wrapping carry loop computes `EncodeBase26` |
| InChIKey.EmptyDataAllA | molecule/molecule_inchi.go:1020-1028 | with no bytes every letter is 'A' |
| InChIKey.EarliestOfMeaning | molecule/molecule_inchi.go:960-966 | the marker loop finds the first position where any stereo marker occurs, or -1 when none occurs |
| InChIKey.StereoStart | molecule/molecule_inchi.go:960-966 | the loop computes `StereoStartOf` |
| InChIKey.StereoStartOf | molecule/molecule_inchi.go:960-966 | -1 or a position inside the body |
| InChIKey.SplitParts | molecule/molecule_inchi.go:956-971 | main and stereo parts split the body; the stereo part is empty exactly without a marker and otherwise starts with one; the main part holds no marker |
| InChIKey.StereoBlock | molecule/molecule_inchi.go:979-987 | nine letters for a stereo part, the fixed ten-letter block otherwise |
| InChIKey.AssembleShape | molecule/molecule_inchi.go:990 | where the first block, the dashes, the second block and the flags sit |
| InChIKey.GenerateInChIKey | molecule/molecule_inchi.go:929-993 | computes `KeyOf` with the digest as a parameter |
| InChIKey.KeyErrors | molecule/molecule_inchi.go:929-937 | refused exactly for an empty string or a missing "InChI=" prefix |
| InChIKey.VersionMeaning | molecule/molecule_inchi.go:942-949 | the version flag is 'N' exactly for a "1/" body |
| InChIKey.KeyShape | molecule/molecule_inchi.go:929-993 | 14 letters, a dash, 9 letters (10 without stereo), a dash, the flag and 'A' |
| InChIKey.SameMainSameFirstBlock | molecule/molecule_inchi.go:973-976 | InChIs with the same main part share the first block: stereo layers only change the second |
| InChIKey.ValidateMeaning | molecule/molecule_inchi.go:1057-1065 | valid exactly when the prefix is there and a slash occurs |
| InChIKey.GeneratedIsValid | molecule/molecule_inchi.go:1057-1065 | what the generator writes with an "InChI=" prefix and a formula is valid |
| InChIKey.CompareIsOrder | molecule/molecule_inchi.go:1069-1084 | three-valued, zero exactly for equal normal forms, antisymmetric |
| InChIKey.CompareTransitive | molecule/molecule_inchi.go:1069-1084 | "less than" is transitive |
| InChIKey.VersionIgnored | molecule/molecule_inchi.go:1070-1076 | the standard and non-standard prefixes of the same body compare equal |
| CisTransBonds.MoleculeCisTrans.constructor | src/molecule/molecule_cis_trans.go:29-33 | no bonds registered |
| CisTransBonds.MoleculeCisTrans.ConsiderBond | src/molecule/molecule_cis_trans.go:159-173 | one turn of the `Build` loop registers the bond exactly when it is not excluded and is a geometric stereo bond |
| CisTransBonds.MoleculeCisTrans.CollectInvalid | src/molecule/molecule_cis_trans.go:388-399 | exactly the registered bonds that are no longer geometric stereo bonds |
| CisTransBonds.MoleculeCisTrans.RemoveAll | src/molecule/molecule_cis_trans.go:395-399 | the listed bonds are dropped, the others keep their entries |
| Stereocenters.MoleculeStereocenters.constructor | src/molecule/molecule_stereocenters.go:34-38 | no stereocentres |
| Stereocenters.MoleculeStereocenters.ConsiderAtom | src/molecule/molecule_stereocenters.go:224-256 | one turn of the `BuildFromBonds` loop adds the atom exactly when it is a wedged centre |
| SGroups.MoleculeSGroups.constructor | src/molecule_sgroups.go:244-248 | no S-groups |
| SmilesSaver.SmilesSaver.constructor | molecule/smiles_saver.go:52-60 | the options are kept and every per-run table is empty |
| SmilesSaver.SmilesSaver.WriteBracketAtom | molecule/smiles_saver.go:241-275 | "[", isotope, symbol, hydrogen count, charge and "]" in that order |
| SmilesSaver.SmilesSaver.WriteComponent | molecule/smiles_saver.go:83-94 | one component is written after a "." unless it is the first, and the output stays the dot-join of the components |

## Left out

Decisions about what the drivers compute:

- MoleculeGraph.Molecule.GetImplicitH: computes the corrected implicit-hydrogen count `ImplicitHydrogens` (neutral C, N and O filled up to their valence), not the table in src/molecule/molecule.go:542-580, which gives a methyl carbon, an amine nitrogen and a water oxygen no hydrogens (see Findings). `MoleculeGraph.Molecule.TotalHydrogensCount`, `GrossFormula.CollectGross` and `Lipinski.NumHydrogenBondDonors` read hydrogens through it and so differ from the Go code in the same way (ethane is C2H6, methylamine has one donor).
- MoleculeGraph.Molecule.GetImplicitH: requires a cached value or a non-special atom; the Go code panics for an uncached pseudo, R-site or template atom (src/molecule/molecule.go:538-540).
- MoleculeGraph.Molecule.TotalHydrogensCount: requires that no atom is a pseudo, R-site or template atom. This is stronger than the Go code needs, since Go also accepts such an atom when its count is cached.
- MoleculeGraph.Molecule.AddBond: requires both endpoints to be atoms; the Go code panics otherwise (src/molecule/molecule.go:220-222), and a panic is not modelled.
- CisTransBonds.MoleculeCisTrans.FlipBond: requires every registered bond to be a bond of the molecule; the Go loop indexes `mol.Bonds` by each key and panics otherwise.
- SubstructureMatch.FindFirst: requires a non-empty query, as do `FindAll`, `HasMatch` and `CountMatches`. With an empty query the Go search returns nothing against an empty target and panics in `atomsMatch` against any other.
- SubstructureMatch.HasMatch: a reported match is a sound, complete, injective atom mapping, and every bond-preserving embedding is found, but a reported match is not proved to preserve every query bond. The Go search checks only the bond to the parent atom and the bonds `hasRequiredConnections` looks at, so a query bond that closes a ring can go unchecked (src/molecule/molecule_substructure_matcher.go:117-156). `FindFirst`, `FindAll` and `CountMatches` are stated the same way.
- Aromatizer.Dearomatize: requires `BondOrders` to have one entry per bond, as does `Dearomatizer.Apply`. The Go loops index `BondOrders` by bond index and panic on a shorter list, such as that of a fresh `Clone`.
- Aromatizer.Aromatize: takes the six-membered cycles as a parameter, and so does `Dearomatizer.Apply`; the parameter is constrained only to atoms in range. `findSimpleCyclesOfLength`, the cycle depth-first search in src/molecule/aromatizer.go:44-109, is not modelled.
- Aromatizer.Aromatize: writes through the corrected `SetBondOrderInternal`, as does `Dearomatizer.Apply`, so the bond orders change as well (see Findings). A consequence is that a ring judged later sees the orders written for an earlier ring. For Kekulé naphthalene, the model marks the 6 bonds of the first ring aromatic; the Go code, which judges both rings on the unchanged bonds, marks 11 `BondOrders` entries.
- SGroups.MoleculeSGroups.RemoveAtomsFromSGroups: with a mapping, requires every kept atom index to be non-negative; the Go code indexes the mapping with it and panics otherwise.
- MolfileLoader.PropertyEntries: a property line shorter than 7 characters (a bare "M  CHG") has no entries. The Go parsers slice `line[7:]` and panic (src/molfile_loader.go:311,336,361).
- MolfileLoader.ReadPropertiesBlock: stops at the end of the input. The Go loop never ends when "M  END" is missing, because `readLine` turns end of input into an empty line (see Findings).
- MoleculeHash.HydrogenBondKeepsHash: the hash ignores hydrogen atoms and their bonds only when the number of refinement rounds is unchanged. The Go round count `(len(Bonds)+1)/2` counts bonds to hydrogen (molecule/molecule_hash.go:62), so the doc comment's "bonds to hydrogen are ignored" does not hold in general.
- MoleculeHash.CalculateMoleculeHash: invariance under renumbering of the atoms, which the doc comment claims, is not proved. Both the neighbour fold and the final aggregate fold are ordered FNV folds (molecule/molecule_hash.go:73-97), so the claim does not hold as written.
- MolfileRoundTrip.SavedMoleculeLoads: the whole-molecule round trip covers the atom and bond counts, the chiral flag, the element of every atom, every bond and a plain name. It requires at most 999 atoms and bonds, since the counts line has three-digit fields, and it requires elements the table knows (or pseudo atoms whose label is no element). Bond orders outside 1 to 4 come back as single. Stereo marks other than up, down and either come back as none. Charges, isotopes and radicals carried by the properties block, and coordinates, are not part of the statement.
- Text.IsSpace: ASCII white space only; Go's `strings.TrimSpace` also strips Unicode white space.
- SmilesSaver.RingNumberReadsBack: ring numbers from 100 on are written as "%n" with three or more digits, and the reader takes only two of them (`LargeRingNumberMisread`). The saver is not corrected here.
- MoleculeGraph.Molecule.SetPseudoAtom: requires the index to be an atom; the Go code indexes `m.Atoms` unchecked and panics otherwise (src/molecule/molecule.go:361-364).
- MoleculeGraph.Molecule.GetPseudoAtom: requires the index to be an atom, for the same reason (src/molecule/molecule.go:370-375).
- Fingerprints.Fingerprint.SetBitsFromHash: requires the size modulo 2^32 to be non-zero; the Go code divides by `uint32(fp.Size)` and panics when that is zero (src/molecule_fingerprint.go:101).
- SmilesLoader.DigitsNumber: the isotope and charge digits accumulate into an unbounded integer; Go's `int` wraps around for runs of more than 18 digits (src/molecule/smiles_loader.go:344, 419 and 440).
- SGroups.MoleculeSGroups.Add: the groups are values, so Go's pointer aliasing is not modelled: Go also writes the new index into the caller's group object, and a group object added twice is one object whose `Index` is the last one given.
- SGroups.MoleculeSGroups.Remove: the renumbering after a removal updates the stored entries; a group object Go shares with the caller or with another slot sees the same update there, which the model does not capture.
- SGroups.MoleculeSGroups.RemoveAtomsFromSGroups: each entry is remapped once; in Go a group object stored in two slots is remapped twice.
- InChI.GenerateHydrogenLayer: takes the hydrogen counts in canonical order as a parameter. The Go function reads them itself with `GetImplicitH` over `getCanonicalNumbering` (molecule/molecule_inchi.go:508-530); both of those are modelled on their own (`MoleculeGraph.Molecule.GetImplicitH`, `InChI.GetCanonicalNumbering`).
- SmilesSaver.SmilesSaver.SaveSMILES: the result is tied to `SmilesOf`, and every atom is visited exactly once, but the count round trip of test/smiles_saver_test.go (parse, save, parse again, same atom and bond counts) is not proved for whole molecules; read-back is proved for single atoms, single bonds, charges, ring numbers and the branch layout.
- SmilesSaver.RingKeyInjective: the ring-closure key `atom1*100000+atom2` is injective only for atom indices below 100000 (`RingKeyCollides`).

Parts of the library not in the model:

- Floating point: fingerprint similarity metrics and `EuclideanDistance`, the molecular weight, `Distance`, the topological polar surface area, and the coordinate fields of the molfile. Coordinates are an opaque 30-character field, and the float check is a parameter (`validFloat`).
- Three-dimensional chirality and cis/trans parity computed from coordinates.
- The fingerprint builders (`Build`, `buildPathFingerprint`, `enumeratePathsOfLength`, `dfsPath`, `hashPath`, `buildECFP` and the ECFP identifier helpers, src/molecule_fingerprint.go:121-323) and the `GenerateFingerprint` wrappers. The bit vector they fill, with `SetBit`, `SetBitsFromHash`, the population count, the hex form and the Hamming distance, is modelled.
- InChI: the connectivity layer's depth-first numbering and printing, the cis/trans, tetrahedral and enantiomer layer generators, `validateMolecule`, `GenerateInChI`, `buildInChILayers`, `ParseInChI`, `GetInChIFromSMILES` and the Base64 helpers. The formula, hydrogen and range printers, the layer assembly, the key and the parity are modelled.
- SHA-256 in `GenerateInChIKey` is a function parameter. The second key block is assembled as the Go code does it, from that parameter.
- Atomic masses, and the atom and bond description strings.
- The foreign-call wrappers around Indigo and the InChI library, the SMARTS and maximum-common-substructure wrappers, rendering, and the SDF and file readers. Reading and writing files is a parameter: the molfile reader takes its lines and the writers return text.
- The session pool, which is concurrency.
- Reaction loaders, savers and matchers that are stubs with no logic; the per-side iterators of `base_reaction.go` beyond `nextElement`; `UnfoldHydrogens` and `MarkStereocenterBonds`.
- S-group constructors for the individual group kinds, `AddSuperatom` and the `String` methods.
- `SaveSMILESWithOptions`, the `Molecule.SaveSMILES` convenience wrapper, and `DefaultSmilesSaverOptions`; the saver class takes its options directly.

## Findings

| source | as written | input that shows it | evidently intended | confidence | as-written member | corrected member |
|---|---|---|---|---|---|---|
| molecule/molecule_inchi.go:531-560 | the hydrogen layer writes "," before every hydrogen count, including counts no atom has, and strips only one trailing comma | counts [1, 3] give "1H,,2H3" | no empty group: "1H,2H3" | not executed | InChI.HydrogenGapAsWritten | InChI.HydrogenGapCorrected |
| src/molecule/molecule.go:542-580 | neutral carbon gets hydrogens only at connectivity 2 and 3, nitrogen only at 2, oxygen only at 1 | a methyl carbon (connectivity 1) gets 0 hydrogens | filled to valence: 3 hydrogens, as test/molecule_test.go:184-197 expects | not executed | MoleculeGraph.ImplicitHMethylCarbon | MoleculeGraph.ImplicitHydrogens |
| src/molecule/molecule_substructure_matcher.go:105-156 | `recursiveMatch` reports success once the last-numbered query atom is mapped, and rescans only query atoms above the current one | query C0, O1, C2 with bonds 0-2 and 2-1 against target C0, C1, N2: reported as a match with query atom 1 unmapped | success only when every query atom is mapped | not executed | SubstructureMatch.EarlyStopAsWritten | SubstructureMatch.RecursiveMatch |
| src/molecule/molecule_stereocenters.go:197-217 | `hasDifferentSubstituents` rejects a repeated element only when the repeat is the last neighbour, and otherwise accepts any three distinct elements | neighbour elements [6, 6, 7, 8] pass, while [6, 7, 8, 6] fail | all substituents pairwise different, independent of order | not executed | Stereocenters.DifferentAsWrittenOrderDependent | Stereocenters.HasDifferentSubstituents |
| src/molecule/molecule.go:477-499 | `setBondOrderInternal` writes only `BondOrders`, so `GetBondOrder` still reports the bond's old order | set bond order 4 on a single bond: `GetBondOrder` gives 1 | both the bond and `BondOrders` hold the new order, as `SetBondOrder` does and test/chem_test.go:27-42 expects | not executed | MoleculeGraph.Molecule.SetBondOrderInternalAsWritten | MoleculeGraph.Molecule.SetBondOrderInternal |
| src/molecule/smiles_loader.go:75-84 | the one-letter aromatic test comes before the two-letter one, so "se" is read as 's' and then fails at 'e' | "se" and "[se]" are errors | aromatic selenium, which the element lookup accepts | not executed | SmilesLoader.SeleniumAsWritten | SmilesLoader.SeleniumReads |
| src/molecule/smiles_loader.go:86-96 | a capital letter followed by any lower-case letter is taken as a two-letter symbol | "Oc1ccccc1" reads the symbol "Oc", which names no element | 'O' followed by aromatic 'c' | not executed | SmilesLoader.OrganicLetterAsWritten | SmilesLoader.OrganicLetterCorrected |
| src/molfile_loader.go:274-302 | `readLine` turns end of input into an empty line, so the properties loop never ends without "M  END" | a molfile that stops after the bond block | stop at end of input | not executed | MolfileLoader.NoEndMarkerNeverStops | MolfileLoader.EndMarkerStops |
| molecule/smiles_saver.go:383-405 | charges +3 and -3 are written "+++" and "---" | an atom of charge +3 is written "[Al+++]", which the reader rejects | "+3" and "-3", which the reader accepts | not executed | SmilesSaver.TripleChargeAsWritten | SmilesSaver.TripleChargeCorrected |
| molecule/smiles_saver.go:191-212 | the first neighbour's whole subtree is written first, and the other neighbours follow it in parentheses | isobutane, walked from a terminal carbon, gives "CCC(C)", which reads back with the branch on the third atom instead of the second | branches before the continuing chain: "CC(C)C" | not executed | SmilesSaver.BranchOrderAsWritten | SmilesSaver.BranchOrderCorrected |
| src/molecule/aromatizer.go:241-265 | `fmtInt` negates its argument, which overflows at the smallest 64-bit integer | -9223372036854775808 gives "-" | the decimal text of every value | not executed | Aromatizer.FmtIntAsWritten | Aromatizer.FmtInt |
