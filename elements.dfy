/** The periodic table of the model (molecule/elements.go): symbol, group,
    period and the "can be aromatic" flag of every element 1..118, the lookups
    built on it, and the simplified valence arithmetic. */
module Elements {
  import opened Wrappers
  import Text

  /** One row of the element table. */
  datatype ElementInfo = ElementInfo(name: string, group: int, period: int, canBeAromatic: bool)

  /** Atom numbers that do not denote an element (molecule.go). */
  const ElemPseudo: int := -1
  const ElemRSite: int := -2
  const ElemTemplate: int := -3

  const ElemH: int := 1
  const ElemB: int := 5
  const ElemC: int := 6
  const ElemN: int := 7
  const ElemO: int := 8
  const ElemF: int := 9
  const ElemP: int := 15
  const ElemS: int := 16
  const ElemCl: int := 17
  const ElemAs: int := 33
  const ElemSe: int := 34
  const ElemBr: int := 35
  const ElemI: int := 53

  const RadicalSinglet: int := 2
  const RadicalDoublet: int := 3
  const RadicalTriplet: int := 4

  /** Number of rows of the table; row 0 is empty. */
  const ElementCount: int := 119

  predicate IsUpper(c: char) { 'A' <= c <= 'Z' }
  predicate IsLower(c: char) { 'a' <= c <= 'z' }

  /** `elementData[n]`: row 0 is empty, rows 1..118 hold the elements,
      listed here period by period. */
  function ElementData(n: int): ElementInfo
    requires 0 <= n < ElementCount
  {
    if n == 0 then ElementInfo("", 0, 0, false)
    else if n <= 2 then Period1Row(n)
    else if n <= 10 then Period2Row(n)
    else if n <= 18 then Period3Row(n)
    else if n <= 36 then Period4Row(n)
    else if n <= 54 then Period5Row(n)
    else if n <= 86 then Period6Row(n)
    else if n <= 118 then Period7Row(n)
    else ElementInfo("", 0, 0, false)
  }

  /** Rows 1..2 of the table: period 1. */
  function Period1Row(n: int): ElementInfo
    requires 1 <= n <= 2
  {
    match n
    case 1 => ElementInfo("H", 1, 1, false)
    case 2 => ElementInfo("He", 8, 1, false)
    case _ => ElementInfo("", 0, 0, false)
  }

  /** Rows 3..10 of the table: period 2. */
  function Period2Row(n: int): ElementInfo
    requires 3 <= n <= 10
  {
    match n
    case 3 => ElementInfo("Li", 1, 2, false)
    case 4 => ElementInfo("Be", 2, 2, false)
    case 5 => ElementInfo("B", 3, 2, true)
    case 6 => ElementInfo("C", 4, 2, true)
    case 7 => ElementInfo("N", 5, 2, true)
    case 8 => ElementInfo("O", 6, 2, false)
    case 9 => ElementInfo("F", 7, 2, true)
    case 10 => ElementInfo("Ne", 8, 2, false)
    case _ => ElementInfo("", 0, 0, false)
  }

  /** Rows 11..18 of the table: period 3. */
  function Period3Row(n: int): ElementInfo
    requires 11 <= n <= 18
  {
    match n
    case 11 => ElementInfo("Na", 1, 3, false)
    case 12 => ElementInfo("Mg", 2, 3, false)
    case 13 => ElementInfo("Al", 3, 3, true)
    case 14 => ElementInfo("Si", 4, 3, false)
    case 15 => ElementInfo("P", 5, 3, true)
    case 16 => ElementInfo("S", 6, 3, false)
    case 17 => ElementInfo("Cl", 7, 3, true)
    case 18 => ElementInfo("Ar", 8, 3, false)
    case _ => ElementInfo("", 0, 0, false)
  }

  /** Rows 19..36 of the table: period 4. */
  function Period4Row(n: int): ElementInfo
    requires 19 <= n <= 36
  {
    match n
    case 19 => ElementInfo("K", 1, 4, false)
    case 20 => ElementInfo("Ca", 2, 4, false)
    case 21 => ElementInfo("Sc", 3, 4, false)
    case 22 => ElementInfo("Ti", 4, 4, false)
    case 23 => ElementInfo("V", 5, 4, false)
    case 24 => ElementInfo("Cr", 6, 4, false)
    case 25 => ElementInfo("Mn", 7, 4, false)
    case 26 => ElementInfo("Fe", 8, 4, false)
    case 27 => ElementInfo("Co", 8, 4, false)
    case 28 => ElementInfo("Ni", 8, 4, false)
    case 29 => ElementInfo("Cu", 1, 4, false)
    case 30 => ElementInfo("Zn", 2, 4, false)
    case 31 => ElementInfo("Ga", 3, 4, true)
    case 32 => ElementInfo("Ge", 4, 4, false)
    case 33 => ElementInfo("As", 5, 4, true)
    case 34 => ElementInfo("Se", 6, 4, false)
    case 35 => ElementInfo("Br", 7, 4, true)
    case 36 => ElementInfo("Kr", 8, 4, false)
    case _ => ElementInfo("", 0, 0, false)
  }

  /** Rows 37..54 of the table: period 5. */
  function Period5Row(n: int): ElementInfo
    requires 37 <= n <= 54
  {
    match n
    case 37 => ElementInfo("Rb", 1, 5, false)
    case 38 => ElementInfo("Sr", 2, 5, false)
    case 39 => ElementInfo("Y", 3, 5, false)
    case 40 => ElementInfo("Zr", 4, 5, false)
    case 41 => ElementInfo("Nb", 5, 5, false)
    case 42 => ElementInfo("Mo", 6, 5, false)
    case 43 => ElementInfo("Tc", 7, 5, false)
    case 44 => ElementInfo("Ru", 8, 5, false)
    case 45 => ElementInfo("Rh", 8, 5, false)
    case 46 => ElementInfo("Pd", 8, 5, false)
    case 47 => ElementInfo("Ag", 1, 5, false)
    case 48 => ElementInfo("Cd", 2, 5, false)
    case 49 => ElementInfo("In", 3, 5, false)
    case 50 => ElementInfo("Sn", 4, 5, false)
    case 51 => ElementInfo("Sb", 5, 5, false)
    case 52 => ElementInfo("Te", 6, 5, false)
    case 53 => ElementInfo("I", 7, 5, true)
    case 54 => ElementInfo("Xe", 8, 5, false)
    case _ => ElementInfo("", 0, 0, false)
  }

  /** Rows 55..86 of the table: period 6. */
  function Period6Row(n: int): ElementInfo
    requires 55 <= n <= 86
  {
    match n
    case 55 => ElementInfo("Cs", 1, 6, false)
    case 56 => ElementInfo("Ba", 2, 6, false)
    case 57 => ElementInfo("La", 3, 6, false)
    case 58 => ElementInfo("Ce", 3, 6, false)
    case 59 => ElementInfo("Pr", 3, 6, false)
    case 60 => ElementInfo("Nd", 3, 6, false)
    case 61 => ElementInfo("Pm", 3, 6, false)
    case 62 => ElementInfo("Sm", 3, 6, false)
    case 63 => ElementInfo("Eu", 3, 6, false)
    case 64 => ElementInfo("Gd", 3, 6, false)
    case 65 => ElementInfo("Tb", 3, 6, false)
    case 66 => ElementInfo("Dy", 3, 6, false)
    case 67 => ElementInfo("Ho", 3, 6, false)
    case 68 => ElementInfo("Er", 3, 6, false)
    case 69 => ElementInfo("Tm", 3, 6, false)
    case 70 => ElementInfo("Yb", 3, 6, false)
    case 71 => ElementInfo("Lu", 3, 6, false)
    case 72 => ElementInfo("Hf", 4, 6, false)
    case 73 => ElementInfo("Ta", 5, 6, false)
    case 74 => ElementInfo("W", 6, 6, false)
    case 75 => ElementInfo("Re", 7, 6, false)
    case 76 => ElementInfo("Os", 8, 6, false)
    case 77 => ElementInfo("Ir", 8, 6, false)
    case 78 => ElementInfo("Pt", 8, 6, false)
    case 79 => ElementInfo("Au", 1, 6, false)
    case 80 => ElementInfo("Hg", 2, 6, false)
    case 81 => ElementInfo("Tl", 3, 6, false)
    case 82 => ElementInfo("Pb", 4, 6, false)
    case 83 => ElementInfo("Bi", 5, 6, false)
    case 84 => ElementInfo("Po", 6, 6, false)
    case 85 => ElementInfo("At", 7, 6, true)
    case 86 => ElementInfo("Rn", 8, 6, false)
    case _ => ElementInfo("", 0, 0, false)
  }

  /** Rows 87..118 of the table: period 7. */
  function Period7Row(n: int): ElementInfo
    requires 87 <= n <= 118
  {
    match n
    case 87 => ElementInfo("Fr", 1, 7, false)
    case 88 => ElementInfo("Ra", 2, 7, false)
    case 89 => ElementInfo("Ac", 3, 7, false)
    case 90 => ElementInfo("Th", 3, 7, false)
    case 91 => ElementInfo("Pa", 3, 7, false)
    case 92 => ElementInfo("U", 3, 7, false)
    case 93 => ElementInfo("Np", 3, 7, false)
    case 94 => ElementInfo("Pu", 3, 7, false)
    case 95 => ElementInfo("Am", 3, 7, false)
    case 96 => ElementInfo("Cm", 3, 7, false)
    case 97 => ElementInfo("Bk", 3, 7, false)
    case 98 => ElementInfo("Cf", 3, 7, false)
    case 99 => ElementInfo("Es", 3, 7, false)
    case 100 => ElementInfo("Fm", 3, 7, false)
    case 101 => ElementInfo("Md", 3, 7, false)
    case 102 => ElementInfo("No", 3, 7, false)
    case 103 => ElementInfo("Lr", 3, 7, false)
    case 104 => ElementInfo("Rf", 4, 7, false)
    case 105 => ElementInfo("Db", 5, 7, false)
    case 106 => ElementInfo("Sg", 6, 7, false)
    case 107 => ElementInfo("Bh", 7, 7, false)
    case 108 => ElementInfo("Hs", 8, 7, false)
    case 109 => ElementInfo("Mt", 8, 7, false)
    case 110 => ElementInfo("Ds", 8, 7, false)
    case 111 => ElementInfo("Rg", 1, 7, false)
    case 112 => ElementInfo("Cn", 2, 7, false)
    case 113 => ElementInfo("Nh", 3, 7, false)
    case 114 => ElementInfo("Fl", 4, 7, false)
    case 115 => ElementInfo("Mc", 5, 7, false)
    case 116 => ElementInfo("Lv", 6, 7, false)
    case 117 => ElementInfo("Ts", 7, 7, false)
    case 118 => ElementInfo("Og", 8, 7, false)
    case _ => ElementInfo("", 0, 0, false)
  }

  /** A decision tree over the (at most two) characters of a symbol. It
      inverts the table, which is how the symbols are shown to be distinct. */
  ghost function SymbolIndex(s: string): int
  {
    if |s| == 0 then -1
    else if s[0] == 'A' then
      (if |s| > 2 then -1
        else if |s| == 1 then -1
        else if s[1] == 'c' then 89
        else if s[1] == 'g' then 47
        else if s[1] == 'l' then 13
        else if s[1] == 'm' then 95
        else if s[1] == 'r' then 18
        else if s[1] == 's' then 33
        else if s[1] == 't' then 85
        else if s[1] == 'u' then 79
        else -1)
    else if s[0] == 'B' then
      (if |s| > 2 then -1
        else if |s| == 1 then 5
        else if s[1] == 'a' then 56
        else if s[1] == 'e' then 4
        else if s[1] == 'h' then 107
        else if s[1] == 'i' then 83
        else if s[1] == 'k' then 97
        else if s[1] == 'r' then 35
        else -1)
    else if s[0] == 'C' then
      (if |s| > 2 then -1
        else if |s| == 1 then 6
        else if s[1] == 'a' then 20
        else if s[1] == 'd' then 48
        else if s[1] == 'e' then 58
        else if s[1] == 'f' then 98
        else if s[1] == 'l' then 17
        else if s[1] == 'm' then 96
        else if s[1] == 'n' then 112
        else if s[1] == 'o' then 27
        else if s[1] == 'r' then 24
        else if s[1] == 's' then 55
        else if s[1] == 'u' then 29
        else -1)
    else if s[0] == 'D' then
      (if |s| > 2 then -1
        else if |s| == 1 then -1
        else if s[1] == 'b' then 105
        else if s[1] == 's' then 110
        else if s[1] == 'y' then 66
        else -1)
    else if s[0] == 'E' then
      (if |s| > 2 then -1
        else if |s| == 1 then -1
        else if s[1] == 'r' then 68
        else if s[1] == 's' then 99
        else if s[1] == 'u' then 63
        else -1)
    else if s[0] == 'F' then
      (if |s| > 2 then -1
        else if |s| == 1 then 9
        else if s[1] == 'e' then 26
        else if s[1] == 'l' then 114
        else if s[1] == 'm' then 100
        else if s[1] == 'r' then 87
        else -1)
    else if s[0] == 'G' then
      (if |s| > 2 then -1
        else if |s| == 1 then -1
        else if s[1] == 'a' then 31
        else if s[1] == 'd' then 64
        else if s[1] == 'e' then 32
        else -1)
    else if s[0] == 'H' then
      (if |s| > 2 then -1
        else if |s| == 1 then 1
        else if s[1] == 'e' then 2
        else if s[1] == 'f' then 72
        else if s[1] == 'g' then 80
        else if s[1] == 'o' then 67
        else if s[1] == 's' then 108
        else -1)
    else if s[0] == 'I' then
      (if |s| > 2 then -1
        else if |s| == 1 then 53
        else if s[1] == 'n' then 49
        else if s[1] == 'r' then 77
        else -1)
    else if s[0] == 'K' then
      (if |s| > 2 then -1
        else if |s| == 1 then 19
        else if s[1] == 'r' then 36
        else -1)
    else if s[0] == 'L' then
      (if |s| > 2 then -1
        else if |s| == 1 then -1
        else if s[1] == 'a' then 57
        else if s[1] == 'i' then 3
        else if s[1] == 'r' then 103
        else if s[1] == 'u' then 71
        else if s[1] == 'v' then 116
        else -1)
    else if s[0] == 'M' then
      (if |s| > 2 then -1
        else if |s| == 1 then -1
        else if s[1] == 'c' then 115
        else if s[1] == 'd' then 101
        else if s[1] == 'g' then 12
        else if s[1] == 'n' then 25
        else if s[1] == 'o' then 42
        else if s[1] == 't' then 109
        else -1)
    else if s[0] == 'N' then
      (if |s| > 2 then -1
        else if |s| == 1 then 7
        else if s[1] == 'a' then 11
        else if s[1] == 'b' then 41
        else if s[1] == 'd' then 60
        else if s[1] == 'e' then 10
        else if s[1] == 'h' then 113
        else if s[1] == 'i' then 28
        else if s[1] == 'o' then 102
        else if s[1] == 'p' then 93
        else -1)
    else if s[0] == 'O' then
      (if |s| > 2 then -1
        else if |s| == 1 then 8
        else if s[1] == 'g' then 118
        else if s[1] == 's' then 76
        else -1)
    else if s[0] == 'P' then
      (if |s| > 2 then -1
        else if |s| == 1 then 15
        else if s[1] == 'a' then 91
        else if s[1] == 'b' then 82
        else if s[1] == 'd' then 46
        else if s[1] == 'm' then 61
        else if s[1] == 'o' then 84
        else if s[1] == 'r' then 59
        else if s[1] == 't' then 78
        else if s[1] == 'u' then 94
        else -1)
    else if s[0] == 'R' then
      (if |s| > 2 then -1
        else if |s| == 1 then -1
        else if s[1] == 'a' then 88
        else if s[1] == 'b' then 37
        else if s[1] == 'e' then 75
        else if s[1] == 'f' then 104
        else if s[1] == 'g' then 111
        else if s[1] == 'h' then 45
        else if s[1] == 'n' then 86
        else if s[1] == 'u' then 44
        else -1)
    else if s[0] == 'S' then
      (if |s| > 2 then -1
        else if |s| == 1 then 16
        else if s[1] == 'b' then 51
        else if s[1] == 'c' then 21
        else if s[1] == 'e' then 34
        else if s[1] == 'g' then 106
        else if s[1] == 'i' then 14
        else if s[1] == 'm' then 62
        else if s[1] == 'n' then 50
        else if s[1] == 'r' then 38
        else -1)
    else if s[0] == 'T' then
      (if |s| > 2 then -1
        else if |s| == 1 then -1
        else if s[1] == 'a' then 73
        else if s[1] == 'b' then 65
        else if s[1] == 'c' then 43
        else if s[1] == 'e' then 52
        else if s[1] == 'h' then 90
        else if s[1] == 'i' then 22
        else if s[1] == 'l' then 81
        else if s[1] == 'm' then 69
        else if s[1] == 's' then 117
        else -1)
    else if s[0] == 'U' then
      (if |s| > 2 then -1
        else if |s| == 1 then 92
        else -1)
    else if s[0] == 'V' then
      (if |s| > 2 then -1
        else if |s| == 1 then 23
        else -1)
    else if s[0] == 'W' then
      (if |s| > 2 then -1
        else if |s| == 1 then 74
        else -1)
    else if s[0] == 'X' then
      (if |s| > 2 then -1
        else if |s| == 1 then -1
        else if s[1] == 'e' then 54
        else -1)
    else if s[0] == 'Y' then
      (if |s| > 2 then -1
        else if |s| == 1 then 39
        else if s[1] == 'b' then 70
        else -1)
    else if s[0] == 'Z' then
      (if |s| > 2 then -1
        else if |s| == 1 then -1
        else if s[1] == 'n' then 30
        else if s[1] == 'r' then 40
        else -1)
    else -1
  }

  /** What every row of the table satisfies: its symbol is an upper-case
      letter followed by at most one lower-case letter (the shape the SMILES
      reader scans for), the decision tree maps it back to its number, the
      `ElementToString` switch agrees with it, and its group and period are
      in range. */
  ghost predicate RowFacts(n: int)
    requires 1 <= n < ElementCount
  {
    var e := ElementData(n);
    1 <= |e.name| <= 2 && IsUpper(e.name[0]) && (|e.name| == 2 ==> IsLower(e.name[1])) &&
    SymbolIndex(e.name) == n && ElementToString(n) == e.name &&
    1 <= e.group <= 8 && 1 <= e.period <= 7
  }

  lemma Rows1(n: int)
    requires 1 <= n <= 4
    ensures RowFacts(n)
  { }

  lemma Rows5(n: int)
    requires 5 <= n <= 8
    ensures RowFacts(n)
  { }

  lemma Rows9(n: int)
    requires 9 <= n <= 12
    ensures RowFacts(n)
  { }

  lemma Rows13(n: int)
    requires 13 <= n <= 16
    ensures RowFacts(n)
  { }

  lemma Rows17(n: int)
    requires 17 <= n <= 20
    ensures RowFacts(n)
  { }

  lemma Rows21(n: int)
    requires 21 <= n <= 24
    ensures RowFacts(n)
  { }

  lemma Rows25(n: int)
    requires 25 <= n <= 28
    ensures RowFacts(n)
  { }

  lemma Rows29(n: int)
    requires 29 <= n <= 32
    ensures RowFacts(n)
  { }

  lemma Rows33(n: int)
    requires 33 <= n <= 36
    ensures RowFacts(n)
  { }

  lemma Rows37(n: int)
    requires 37 <= n <= 40
    ensures RowFacts(n)
  { }

  lemma Rows41(n: int)
    requires 41 <= n <= 44
    ensures RowFacts(n)
  { }

  lemma Rows45(n: int)
    requires 45 <= n <= 48
    ensures RowFacts(n)
  { }

  lemma Rows49(n: int)
    requires 49 <= n <= 52
    ensures RowFacts(n)
  { }

  lemma Rows53(n: int)
    requires 53 <= n <= 56
    ensures RowFacts(n)
  { }

  lemma Rows57(n: int)
    requires 57 <= n <= 60
    ensures RowFacts(n)
  { }

  lemma Rows61(n: int)
    requires 61 <= n <= 64
    ensures RowFacts(n)
  { }

  lemma Rows65(n: int)
    requires 65 <= n <= 68
    ensures RowFacts(n)
  { }

  lemma Rows69(n: int)
    requires 69 <= n <= 72
    ensures RowFacts(n)
  { }

  lemma Rows73(n: int)
    requires 73 <= n <= 76
    ensures RowFacts(n)
  { }

  lemma Rows77(n: int)
    requires 77 <= n <= 80
    ensures RowFacts(n)
  { }

  lemma Rows81(n: int)
    requires 81 <= n <= 84
    ensures RowFacts(n)
  { }

  lemma Rows85(n: int)
    requires 85 <= n <= 88
    ensures RowFacts(n)
  { }

  lemma Rows89(n: int)
    requires 89 <= n <= 92
    ensures RowFacts(n)
  { }

  lemma Rows93(n: int)
    requires 93 <= n <= 96
    ensures RowFacts(n)
  { }

  lemma Rows97(n: int)
    requires 97 <= n <= 100
    ensures RowFacts(n)
  { }

  lemma Rows101(n: int)
    requires 101 <= n <= 104
    ensures RowFacts(n)
  { }

  lemma Rows105(n: int)
    requires 105 <= n <= 108
    ensures RowFacts(n)
  { }

  lemma Rows109(n: int)
    requires 109 <= n <= 112
    ensures RowFacts(n)
  { }

  lemma Rows113(n: int)
    requires 113 <= n <= 116
    ensures RowFacts(n)
  { }

  lemma Rows117(n: int)
    requires 117 <= n <= 118
    ensures RowFacts(n)
  { }

  lemma TableFacts(n: int)
    requires 1 <= n < ElementCount
    ensures RowFacts(n)
  {
    if n <= 4 { Rows1(n); }
    else if n <= 8 { Rows5(n); }
    else if n <= 12 { Rows9(n); }
    else if n <= 16 { Rows13(n); }
    else if n <= 20 { Rows17(n); }
    else if n <= 24 { Rows21(n); }
    else if n <= 28 { Rows25(n); }
    else if n <= 32 { Rows29(n); }
    else if n <= 36 { Rows33(n); }
    else if n <= 40 { Rows37(n); }
    else if n <= 44 { Rows41(n); }
    else if n <= 48 { Rows45(n); }
    else if n <= 52 { Rows49(n); }
    else if n <= 56 { Rows53(n); }
    else if n <= 60 { Rows57(n); }
    else if n <= 64 { Rows61(n); }
    else if n <= 68 { Rows65(n); }
    else if n <= 72 { Rows69(n); }
    else if n <= 76 { Rows73(n); }
    else if n <= 80 { Rows77(n); }
    else if n <= 84 { Rows81(n); }
    else if n <= 88 { Rows85(n); }
    else if n <= 92 { Rows89(n); }
    else if n <= 96 { Rows93(n); }
    else if n <= 100 { Rows97(n); }
    else if n <= 104 { Rows101(n); }
    else if n <= 108 { Rows105(n); }
    else if n <= 112 { Rows109(n); }
    else if n <= 116 { Rows113(n); }
    else if n <= 118 { Rows117(n); }
  }

  lemma SymbolsDistinct(i: int, j: int)
    requires 1 <= i < ElementCount && 1 <= j < ElementCount
    requires i != j
    ensures ElementData(i).name != ElementData(j).name
  {
    TableFacts(i);
    TableFacts(j);
  }

  /** `symbolToNumber` after the initialisation loop has stored rows 1..k-1. */
  function SymbolTable(k: int): map<string, int>
    requires 1 <= k <= ElementCount
  {
    if k == 1 then map[] else SymbolTable(k - 1)[ElementData(k - 1).name := k - 1]
  }

  lemma {:induction false} SymbolTableValues(k: int, s: string)
    requires 1 <= k <= ElementCount && s in SymbolTable(k)
    ensures 1 <= SymbolTable(k)[s] < k && ElementData(SymbolTable(k)[s]).name == s
  {
    if k > 1 && s != ElementData(k - 1).name {
      SymbolTableValues(k - 1, s);
    }
  }

  lemma {:induction false} SymbolTableHas(k: int, n: int)
    requires 1 <= n < k <= ElementCount
    ensures ElementData(n).name in SymbolTable(k) && SymbolTable(k)[ElementData(n).name] == n
  {
    if n < k - 1 {
      SymbolTableHas(k - 1, n);
      SymbolsDistinct(k - 1, n);
    }
  }

  /** The rows from `n` on scanned for `symbol`. Row names are distinct, so
      this finds the entry the symbol map holds (`ElementFromStringIsTableLookup`). */
  function FindSymbol(symbol: string, n: int): (r: Result<int>)
    requires 1 <= n <= ElementCount
    ensures r.Ok? ==> n <= r.value < ElementCount && ElementData(r.value).name == symbol
    ensures r.Err? ==> forall m :: n <= m < ElementCount ==> ElementData(m).name != symbol
    decreases ElementCount - n
  {
    if n == ElementCount then Err("unknown element: " + symbol)
    else if ElementData(n).name == symbol then Ok(n)
    else FindSymbol(symbol, n + 1)
  }

  /** `ElementFromString`: the atom number of a symbol, or an error for an
      unknown one. */
  function ElementFromString(symbol: string): (r: Result<int>)
    ensures r.Ok? ==> 1 <= r.value < ElementCount && ElementData(r.value).name == symbol
    ensures r.Err? ==> forall n :: 1 <= n < ElementCount ==> ElementData(n).name != symbol
  {
    FindSymbol(symbol, 1)
  }

  /** An unknown symbol is reported by name. */
  lemma {:induction false} FindSymbolMessage(symbol: string, n: int)
    requires 1 <= n <= ElementCount
    ensures FindSymbol(symbol, n).Err? ==> FindSymbol(symbol, n) == Err("unknown element: " + symbol)
    decreases ElementCount - n
  {
    if n < ElementCount && ElementData(n).name != symbol {
      FindSymbolMessage(symbol, n + 1);
    }
  }

  lemma UnknownElementMessage(symbol: string)
    ensures ElementFromString(symbol).Err? ==> ElementFromString(symbol) == Err("unknown element: " + symbol)
  {
    FindSymbolMessage(symbol, 1);
  }

  /** The lookup answers exactly as the `symbolToNumber` map filled by the
      initialisation loop would: a symbol is found iff the map holds it, and
      then with the map's number. */
  lemma ElementFromStringIsTableLookup(symbol: string)
    ensures ElementFromString(symbol).Ok? <==> symbol in SymbolTable(ElementCount)
    ensures ElementFromString(symbol).Ok? ==> ElementFromString(symbol).value == SymbolTable(ElementCount)[symbol]
  {
    var r := ElementFromString(symbol);
    if r.Ok? {
      SymbolTableHas(ElementCount, r.value);
    } else if symbol in SymbolTable(ElementCount) {
      SymbolTableValues(ElementCount, symbol);
      assert false;
    }
  }

  /** `ElementFromString2`: the same lookup with -1 for an unknown symbol. */
  function ElementFromString2(symbol: string): (n: int)
    ensures n == -1 || (1 <= n < ElementCount && ElementData(n).name == symbol)
    ensures n == -1 <==> ElementFromString(symbol).Err?
  {
    match ElementFromString(symbol)
    case Ok(v) => v
    case Err(_) => -1
  }

  /** `ElementSymbol`: the table symbol, or "Elem<n>" outside the table. */
  function ElementSymbol(number: int): (s: string)
    ensures 1 <= number < ElementCount ==> s == ElementData(number).name
    ensures !(1 <= number < ElementCount) ==> s == "Elem" + Text.IntToString(number)
  {
    var known := 0 <= number < ElementCount && ElementData(number).name != "";
    assert known <==> 1 <= number < ElementCount by {
      if 1 <= number < ElementCount { TableFacts(number); }
    }
    if known then ElementData(number).name else "Elem" + Text.IntToString(number)
  }

  /** Symbols round-trip through the lookup, and only table symbols do. */
  lemma SymbolRoundTrip(n: int)
    ensures 1 <= n < ElementCount ==> ElementFromString(ElementSymbol(n)) == Ok(n)
    ensures !(1 <= n < ElementCount) ==> ElementFromString(ElementSymbol(n)).Err?
  {
    if 1 <= n < ElementCount {
      var r := ElementFromString(ElementSymbol(n));
      if r.Ok? && r.value != n {
        SymbolsDistinct(n, r.value);
      }
    } else {
      var s := ElementSymbol(n);
      if ElementFromString(s).Ok? {
        TableFacts(ElementFromString(s).value);
      }
    }
  }

  function ElementGroup(number: int): (g: int)
    ensures g == 0 <==> !(1 <= number < ElementCount)
    ensures 0 <= g <= 8
  {
    if 0 < number < ElementCount then TableFacts(number); ElementData(number).group else 0
  }

  function ElementPeriod(number: int): (p: int)
    ensures p == 0 <==> !(1 <= number < ElementCount)
    ensures 0 <= p <= 7
  {
    if 0 < number < ElementCount then TableFacts(number); ElementData(number).period else 0
  }

  /** Exactly F, Cl, Br and I; all of them sit in group 7 of the table. */
  function ElementIsHalogen(number: int): (b: bool)
    ensures b <==> number in {ElemF, ElemCl, ElemBr, ElemI}
    ensures b ==> ElementGroup(number) == 7
  {
    number == ElemF || number == ElemCl || number == ElemBr || number == ElemI
  }

  function ElementCanBeAromatic(number: int): (b: bool)
    ensures b ==> 1 <= number < ElementCount && ElementData(number).canBeAromatic
  {
    if 0 < number < ElementCount then ElementData(number).canBeAromatic else false
  }

  function RadicalElectrons(radical: int): (e: int)
    ensures e == 1 <==> radical == RadicalDoublet
    ensures e == 2 <==> radical == RadicalSinglet
    ensures e == 0 <==> radical != RadicalDoublet && radical != RadicalSinglet
  {
    if radical == RadicalDoublet then 1
    else if radical == RadicalSinglet then 2
    else 0
  }

  function RadicalOrbitals(radical: int): (o: int)
    ensures o == 0 <==> radical == 0
    ensures o == 0 || o == 1
  {
    if radical != 0 then 1 else 0
  }

  function ElementOrbitals(number: int, useDOrbital: bool): (o: int)
    ensures o in {1, 2, 4, 9}
    ensures o == 9 ==> useDOrbital && ElementPeriod(number) > 2
  {
    var group := ElementGroup(number);
    var period := ElementPeriod(number);
    if group == 1 then 1
    else if group == 2 then 2
    else if useDOrbital && period > 2 && group >= 4 then 9
    else 4
  }

  function ElementElectrons(number: int, charge: int): int
  {
    ElementGroup(number) - charge
  }

  function Abs(x: int): nat { if x < 0 then -x else x }

  /** `ElementMaximumConnectivity`: with e outer electrons (less the radical
      ones) and v vacant orbitals, e bonds when e <= v and 2v - e otherwise,
      that is v - |v - e|; never more than v. */
  function ElementMaximumConnectivity(number: int, charge: int, radical: int, useDOrbital: bool): (c: int)
    ensures var e := ElementElectrons(number, charge) - RadicalElectrons(radical);
            var v := ElementOrbitals(number, useDOrbital) - RadicalOrbitals(radical);
            c == v - Abs(v - e) && c <= v
  {
    var radElectrons := RadicalElectrons(radical);
    var electrons := ElementElectrons(number, charge) - radElectrons;
    var radOrbitals := RadicalOrbitals(radical);
    var vacantOrbitals := ElementOrbitals(number, useDOrbital) - radOrbitals;
    if electrons <= vacantOrbitals then electrons else 2 * vacantOrbitals - electrons
  }

  /** `ElementToString`: a switch that spells out the symbol of every element
      1..118, names the three special atom kinds, and otherwise writes "E<n>"
      (unreachable: every element has a case) or "?<n>". The cases are grouped
      by period here. */
  function ElementToString(number: int): (s: string)
    ensures number == ElemPseudo ==> s == "Pseudo"
    ensures number == ElemRSite ==> s == "RSite"
    ensures number == ElemTemplate ==> s == "Template"
    ensures !(-3 <= number < ElementCount) || number == 0 ==> s == "?" + Text.IntToString(number)
  {
    if number == ElemPseudo then "Pseudo"
    else if number == ElemRSite then "RSite"
    else if number == ElemTemplate then "Template"
    else if 1 <= number <= 2 then Period1Name(number)
    else if 3 <= number <= 10 then Period2Name(number)
    else if 11 <= number <= 18 then Period3Name(number)
    else if 19 <= number <= 36 then Period4Name(number)
    else if 37 <= number <= 54 then Period5Name(number)
    else if 55 <= number <= 86 then Period6Name(number)
    else if 87 <= number <= 118 then Period7Name(number)
    else "?" + Text.IntToString(number)
  }

  function Period1Name(number: int): string
  {
    match number
    case 1 => "H"
    case 2 => "He"
    case _ => "E" + Text.IntToString(number)
  }

  function Period2Name(number: int): string
  {
    match number
    case 3 => "Li"
    case 4 => "Be"
    case 5 => "B"
    case 6 => "C"
    case 7 => "N"
    case 8 => "O"
    case 9 => "F"
    case 10 => "Ne"
    case _ => "E" + Text.IntToString(number)
  }

  function Period3Name(number: int): string
  {
    match number
    case 11 => "Na"
    case 12 => "Mg"
    case 13 => "Al"
    case 14 => "Si"
    case 15 => "P"
    case 16 => "S"
    case 17 => "Cl"
    case 18 => "Ar"
    case _ => "E" + Text.IntToString(number)
  }

  function Period4Name(number: int): string
  {
    match number
    case 19 => "K"
    case 20 => "Ca"
    case 21 => "Sc"
    case 22 => "Ti"
    case 23 => "V"
    case 24 => "Cr"
    case 25 => "Mn"
    case 26 => "Fe"
    case 27 => "Co"
    case 28 => "Ni"
    case 29 => "Cu"
    case 30 => "Zn"
    case 31 => "Ga"
    case 32 => "Ge"
    case 33 => "As"
    case 34 => "Se"
    case 35 => "Br"
    case 36 => "Kr"
    case _ => "E" + Text.IntToString(number)
  }

  function Period5Name(number: int): string
  {
    match number
    case 37 => "Rb"
    case 38 => "Sr"
    case 39 => "Y"
    case 40 => "Zr"
    case 41 => "Nb"
    case 42 => "Mo"
    case 43 => "Tc"
    case 44 => "Ru"
    case 45 => "Rh"
    case 46 => "Pd"
    case 47 => "Ag"
    case 48 => "Cd"
    case 49 => "In"
    case 50 => "Sn"
    case 51 => "Sb"
    case 52 => "Te"
    case 53 => "I"
    case 54 => "Xe"
    case _ => "E" + Text.IntToString(number)
  }

  function Period6Name(number: int): string
  {
    match number
    case 55 => "Cs"
    case 56 => "Ba"
    case 57 => "La"
    case 58 => "Ce"
    case 59 => "Pr"
    case 60 => "Nd"
    case 61 => "Pm"
    case 62 => "Sm"
    case 63 => "Eu"
    case 64 => "Gd"
    case 65 => "Tb"
    case 66 => "Dy"
    case 67 => "Ho"
    case 68 => "Er"
    case 69 => "Tm"
    case 70 => "Yb"
    case 71 => "Lu"
    case 72 => "Hf"
    case 73 => "Ta"
    case 74 => "W"
    case 75 => "Re"
    case 76 => "Os"
    case 77 => "Ir"
    case 78 => "Pt"
    case 79 => "Au"
    case 80 => "Hg"
    case 81 => "Tl"
    case 82 => "Pb"
    case 83 => "Bi"
    case 84 => "Po"
    case 85 => "At"
    case 86 => "Rn"
    case _ => "E" + Text.IntToString(number)
  }

  function Period7Name(number: int): string
  {
    match number
    case 87 => "Fr"
    case 88 => "Ra"
    case 89 => "Ac"
    case 90 => "Th"
    case 91 => "Pa"
    case 92 => "U"
    case 93 => "Np"
    case 94 => "Pu"
    case 95 => "Am"
    case 96 => "Cm"
    case 97 => "Bk"
    case 98 => "Cf"
    case 99 => "Es"
    case 100 => "Fm"
    case 101 => "Md"
    case 102 => "No"
    case 103 => "Lr"
    case 104 => "Rf"
    case 105 => "Db"
    case 106 => "Sg"
    case 107 => "Bh"
    case 108 => "Hs"
    case 109 => "Mt"
    case 110 => "Ds"
    case 111 => "Rg"
    case 112 => "Cn"
    case 113 => "Nh"
    case 114 => "Fl"
    case 115 => "Mc"
    case 116 => "Lv"
    case 117 => "Ts"
    case 118 => "Og"
    case _ => "E" + Text.IntToString(number)
  }


  /** For every element, the `ElementToString` switch spells the same symbol
      as the table. */
  lemma ElementToStringAgrees(n: int)
    requires 1 <= n < ElementCount
    ensures ElementToString(n) == ElementSymbol(n)
  {
    TableFacts(n);
  }

  /** Every element symbol is an upper-case letter, optionally followed by one
      lower-case letter. */
  lemma SymbolShape(n: int)
    requires 1 <= n < ElementCount
    ensures var s := ElementSymbol(n);
            1 <= |s| <= 2 && IsUpper(s[0]) && (|s| == 2 ==> IsLower(s[1]))
  {
    TableFacts(n);
  }
}
