/** The layer builders of the pure-Go InChI generator
    (molecule/molecule_inchi.go): atom-range compression, the hydrogen
    layer, the Hill-ordered formula layer, the canonical numbering, the
    tetrahedral parity and the assembly of the layers into one string,
    with the generator object that holds the version prefix. The atoms are
    read through the `Molecule` of `MoleculeGraph`. */
module InChI {
  import opened Wrappers
  import Text
  import Elements
  import opened Sorting
  import opened MoleculeGraph
  import GrossFormula
  import Stereocenters

  // ---------------------------------------------------------------------
  // Atom ranges (`printAtomRange`)

  /** A run of consecutive atom numbers, `start` through `end`. */
  datatype Run = Run(start: int, end: int)

  predicate ValidRuns(runs: seq<Run>)
  {
    forall k :: 0 <= k < |runs| ==> runs[k].start <= runs[k].end
  }

  /** The numbers `a`, `a + 1`, ..., `b`. */
  function Interval(a: int, b: int): (s: seq<int>)
    requires a <= b
    ensures |s| == b - a + 1
    ensures forall k :: 0 <= k < |s| ==> s[k] == a + k
    decreases b - a
  {
    if a == b then [a] else Interval(a, b - 1) + [b]
  }

  /** The numbers a list of runs stands for, in order. */
  function Expand(runs: seq<Run>): seq<int>
    requires ValidRuns(runs)
  {
    if runs == [] then [] else Interval(runs[0].start, runs[0].end) + Expand(runs[1..])
  }

  /** The runs the loop of `printAtomRange` closes from position `i` on,
      while the run `start`..`prev` is still open: an entry one above the
      previous one extends the open run, any other entry closes it and
      opens a new one. */
  function RunsFrom(atoms: seq<int>, i: nat, start: int, prev: int): (runs: seq<Run>)
    requires start <= prev && i <= |atoms|
    ensures |runs| >= 1 && runs[0].start == start
    ensures ValidRuns(runs)
    decreases |atoms| - i
  {
    if i == |atoms| then [Run(start, prev)]
    else if atoms[i] == prev + 1 then RunsFrom(atoms, i + 1, start, atoms[i])
    else [Run(start, prev)] + RunsFrom(atoms, i + 1, atoms[i], atoms[i])
  }

  /** The runs of a non-empty list of atom numbers. */
  function Runs(atoms: seq<int>): (runs: seq<Run>)
    requires atoms != []
    ensures |runs| >= 1 && ValidRuns(runs)
  {
    RunsFrom(atoms, 1, atoms[0], atoms[0])
  }

  lemma {:induction false} RunsFromExpand(atoms: seq<int>, i: nat, k: nat, start: int, prev: int)
    requires k < i <= |atoms| && start <= prev
    requires atoms[k..i] == Interval(start, prev)
    ensures Expand(RunsFrom(atoms, i, start, prev)) == atoms[k..]
    decreases |atoms| - i
  {
    var runs := RunsFrom(atoms, i, start, prev);
    if i == |atoms| {
      assert runs[1..] == [];
      assert atoms[k..] == atoms[k..i];
    } else if atoms[i] == prev + 1 {
      assert atoms[k..i + 1] == atoms[k..i] + [atoms[i]];
      RunsFromExpand(atoms, i + 1, k, start, atoms[i]);
    } else {
      var rest := RunsFrom(atoms, i + 1, atoms[i], atoms[i]);
      assert runs[1..] == rest;
      assert atoms[i..i + 1] == [atoms[i]];
      RunsFromExpand(atoms, i + 1, i, atoms[i], atoms[i]);
      assert atoms[k..] == atoms[k..i] + atoms[i..];
    }
  }

  /** The runs list exactly the given numbers, in their order. */
  lemma RunsExpand(atoms: seq<int>)
    requires atoms != []
    ensures Expand(Runs(atoms)) == atoms
  {
    assert atoms[0..1] == [atoms[0]];
    RunsFromExpand(atoms, 1, 0, atoms[0], atoms[0]);
  }

  /** No run could be merged with the next one. */
  predicate Maximal(runs: seq<Run>)
  {
    forall m :: 0 <= m < |runs| - 1 ==> runs[m].end + 1 != runs[m + 1].start
  }

  lemma {:induction false} RunsFromMaximal(atoms: seq<int>, i: nat, start: int, prev: int)
    requires start <= prev && i <= |atoms|
    ensures Maximal(RunsFrom(atoms, i, start, prev))
    decreases |atoms| - i
  {
    if i < |atoms| {
      if atoms[i] == prev + 1 {
        RunsFromMaximal(atoms, i + 1, start, atoms[i]);
      } else {
        var rest := RunsFrom(atoms, i + 1, atoms[i], atoms[i]);
        RunsFromMaximal(atoms, i + 1, atoms[i], atoms[i]);
        var runs := [Run(start, prev)] + rest;
        assert RunsFrom(atoms, i, start, prev) == runs;
        forall m | 0 <= m < |runs| - 1
          ensures runs[m].end + 1 != runs[m + 1].start
        {
          if m > 0 {
            assert runs[m] == rest[m - 1] && runs[m + 1] == rest[m];
          }
        }
      }
    }
  }

  /** Each run is as long as the input allows: no run could be merged
      with the next one. */
  lemma RunsMaximal(atoms: seq<int>)
    requires atoms != []
    ensures Maximal(Runs(atoms))
  {
    RunsFromMaximal(atoms, 1, atoms[0], atoms[0]);
  }

  /** The comma `printAtomRange` writes before a range: only when the
      builder is non-empty and does not already end in ','; before the last
      range, also not after an 'H'. */
  function Sep(out: string, last: bool): string
  {
    if |out| > 0 && out[|out| - 1] != ',' && !(last && out[|out| - 1] == 'H') then "," else ""
  }

  /** "a" for a single number, "a-b" for a longer run. */
  function RangeText(r: Run): string
  {
    if r.start == r.end then Text.IntToString(r.start)
    else Text.IntToString(r.start) + "-" + Text.IntToString(r.end)
  }

  function RangeTexts(runs: seq<Run>): (texts: seq<string>)
    ensures |texts| == |runs|
  {
    if runs == [] then [] else [RangeText(runs[0])] + RangeTexts(runs[1..])
  }

  /** What `printAtomRange` appends to the builder `out` for the runs. */
  function WriteRuns(out: string, runs: seq<Run>): string
    decreases |runs|
  {
    if runs == [] then out
    else WriteRuns(out + Sep(out, |runs| == 1) + RangeText(runs[0]), runs[1..])
  }

  lemma WriteRunsCons(out: string, run: Run, rest: seq<Run>)
    requires rest != []
    ensures WriteRuns(out, [run] + rest) == WriteRuns(out + Sep(out, false) + RangeText(run), rest)
  {
    assert ([run] + rest)[1..] == rest;
  }

  /** After an empty builder or a comma, a range that is not the last one
      is written without a comma. */
  lemma WriteRunsConsFresh(out: string, run: Run, rest: seq<Run>)
    requires out == "" || out[|out| - 1] == ','
    requires rest != []
    ensures WriteRuns(out, [run] + rest) == WriteRuns(out + RangeText(run), rest)
  {
    var t := RangeText(run);
    var sep := Sep(out, false);
    assert sep == "";
    assert out + sep + t == out + t;
    WriteRunsCons(out, run, rest);
  }

  lemma WriteRunsOne(out: string, run: Run)
    ensures WriteRuns(out, [run]) == out + Sep(out, true) + RangeText(run)
  {
  }

  /** Writing one range, as the loop body and the tail of
      `printAtomRange` both do: the comma when due, then "a" or "a-b". */
  method WriteRange(out: string, rangeStart: int, prevAtom: int, last: bool) returns (r: string)
    ensures r == out + Sep(out, last) + RangeText(Run(rangeStart, prevAtom))
  {
    var sep := "";
    if |out| > 0 && out[|out| - 1] != ',' && !(last && out[|out| - 1] == 'H') {
      sep := ",";
    }
    var text := Text.IntToString(rangeStart);
    if rangeStart != prevAtom {
      text := text + "-" + Text.IntToString(prevAtom);
    }
    r := out + sep + text;
  }

  /** `printAtomRange`: the builder `result` followed by the runs of
      `atoms`, each as "a" or "a-b", separated by commas. */
  method PrintAtomRange(atoms: seq<int>, result: string) returns (r: string)
    ensures atoms == [] ==> r == result
    ensures atoms != [] ==> r == WriteRuns(result, Runs(atoms))
  {
    r := result;
    if |atoms| == 0 {
      return;
    }
    var rangeStart := atoms[0];
    var prevAtom := atoms[0];
    var i := 1;
    while i < |atoms|
      invariant 1 <= i <= |atoms| && rangeStart <= prevAtom
      invariant WriteRuns(r, RunsFrom(atoms, i, rangeStart, prevAtom)) == WriteRuns(result, Runs(atoms))
    {
      if atoms[i] == prevAtom + 1 {
        prevAtom := atoms[i];
      } else {
        WriteRunsCons(r, Run(rangeStart, prevAtom), RunsFrom(atoms, i + 1, atoms[i], atoms[i]));
        r := WriteRange(r, rangeStart, prevAtom, false);
        rangeStart := atoms[i];
        prevAtom := atoms[i];
      }
      i := i + 1;
    }
    WriteRunsOne(r, Run(rangeStart, prevAtom));
    r := WriteRange(r, rangeStart, prevAtom, true);
  }

  predicate EndsInDigit(s: string)
  {
    |s| > 0 && Text.IsDigit(s[|s| - 1])
  }

  lemma RangeTextEndsInDigit(r: Run)
    ensures EndsInDigit(RangeText(r))
  {
    Text.IntToStringEndsInDigit(r.end);
    if r.start != r.end {
      var t := Text.IntToString(r.end);
      assert RangeText(r)[|RangeText(r)| - 1] == t[|t| - 1];
    }
  }

  /** Each text preceded by a comma. */
  function Commas(texts: seq<string>): string
  {
    if texts == [] then "" else "," + texts[0] + Commas(texts[1..])
  }

  lemma {:induction false} JoinCommas(texts: seq<string>)
    requires texts != []
    ensures Text.Join(texts, ",") == texts[0] + Commas(texts[1..])
    decreases |texts|
  {
    if |texts| > 1 {
      JoinCommas(texts[1..]);
      assert texts[1..][1..] == texts[2..];
    }
  }

  /** After a builder that ends in a digit, every range gets a comma. */
  lemma {:induction false} WriteRunsAfterDigit(out: string, runs: seq<Run>)
    requires EndsInDigit(out)
    ensures WriteRuns(out, runs) == out + Commas(RangeTexts(runs))
    decreases |runs|
  {
    if runs != [] {
      var text := RangeText(runs[0]);
      var next := out + "," + text;
      var tail := Commas(RangeTexts(runs[1..]));
      assert WriteRuns(out, runs) == WriteRuns(next, runs[1..]) by {
        assert Sep(out, |runs| == 1) == ",";
      }
      assert EndsInDigit(next) by {
        RangeTextEndsInDigit(runs[0]);
        assert next[|next| - 1] == text[|text| - 1];
      }
      WriteRunsAfterDigit(next, runs[1..]);
      assert Commas(RangeTexts(runs)) == "," + text + tail by {
        assert RangeTexts(runs) == [text] + RangeTexts(runs[1..]);
      }
      Text.Assoc(out + ",", text, tail);
      Text.Assoc(out, ",", text + tail);
      Text.Assoc(",", text, tail);
    }
  }

  /** Written after an empty builder or a comma, the ranges are simply
      joined by commas. */
  lemma WriteRunsFresh(out: string, runs: seq<Run>)
    requires out == "" || out[|out| - 1] == ','
    ensures WriteRuns(out, runs) == out + Text.Join(RangeTexts(runs), ",")
  {
    if runs != [] {
      var first, rest := runs[0], runs[1..];
      assert runs == [first] + rest;
      if rest == [] {
        WriteRunsOne(out, first);
        assert Sep(out, true) == "";
        assert RangeTexts(runs) == [RangeText(first)];
      } else {
        WriteRunsFreshMore(out, first, rest);
      }
    }
  }

  lemma WriteRunsFreshMore(out: string, first: Run, rest: seq<Run>)
    requires out == "" || out[|out| - 1] == ','
    requires rest != []
    ensures WriteRuns(out, [first] + rest) == out + Text.Join(RangeTexts([first] + rest), ",")
  {
    var text := RangeText(first);
    var tail := Commas(RangeTexts(rest));
    JoinHead(first, rest);
    WriteRunsFreshHead(out, first, rest);
  }

  lemma JoinHead(first: Run, rest: seq<Run>)
    ensures Text.Join(RangeTexts([first] + rest), ",") == RangeText(first) + Commas(RangeTexts(rest))
  {
    var runs := [first] + rest;
    var texts := RangeTexts(runs);
    assert runs[0] == first && runs[1..] == rest;
    assert texts[0] == RangeText(first) && texts[1..] == RangeTexts(rest);
    JoinCommas(texts);
  }

  lemma WriteRunsFreshHead(out: string, first: Run, rest: seq<Run>)
    requires out == "" || out[|out| - 1] == ','
    requires rest != []
    ensures WriteRuns(out, [first] + rest) == out + (RangeText(first) + Commas(RangeTexts(rest)))
  {
    var text := RangeText(first);
    var tail := Commas(RangeTexts(rest));
    var next := out + text;
    WriteRunsConsFresh(out, first, rest);
    RangeTextEndsInDigit(first);
    assert next[|next| - 1] == text[|text| - 1];
    WriteRunsAfterDigit(next, rest);
    Text.Assoc(out, text, tail);
  }

  /** The example of the source's own comment: [1,2,3,5,6] prints as
      "1-3,5-6". */
  lemma AtomRangeExample()
    ensures WriteRuns("", Runs([1, 2, 3, 5, 6])) == "1-3,5-6"
  {
    var a := [1, 2, 3, 5, 6];
    assert RunsFrom(a, 5, 5, 6) == [Run(5, 6)];
    assert RunsFrom(a, 4, 5, 5) == [Run(5, 6)];
    assert RunsFrom(a, 3, 1, 3) == [Run(1, 3), Run(5, 6)];
    assert RunsFrom(a, 2, 1, 2) == [Run(1, 3), Run(5, 6)];
    assert Runs(a) == [Run(1, 3), Run(5, 6)];
    WriteRunsFresh("", [Run(1, 3), Run(5, 6)]);
    assert Text.IntToString(1) == "1" && Text.IntToString(3) == "3";
    assert Text.IntToString(5) == "5" && Text.IntToString(6) == "6";
    assert RangeText(Run(1, 3)) == "1-3" && RangeText(Run(5, 6)) == "5-6";
    assert RangeTexts([Run(5, 6)]) == ["5-6"];
    assert RangeTexts([Run(1, 3), Run(5, 6)]) == ["1-3", "5-6"];
  }

  // ---------------------------------------------------------------------
  // Hydrogen layer (`generateHydrogenLayer`)

  /** The 1-based canonical numbers, among the first `n` atoms, of the
      atoms with exactly `h` implicit hydrogens, in increasing order. */
  function Group(counts: seq<int>, h: int, n: nat): (g: seq<int>)
    requires n <= |counts|
    ensures forall k :: 0 <= k < |g| ==> 1 <= g[k] <= n
    ensures forall k, m :: 0 <= k < m < |g| ==> g[k] < g[m]
  {
    if n == 0 then [] else Group(counts, h, n - 1) + (if counts[n - 1] == h then [n] else [])
  }

  /** Atom `k` is listed under `h` exactly when it has `h` hydrogens. */
  lemma {:induction false} GroupMembers(counts: seq<int>, h: int, n: nat)
    requires n <= |counts|
    ensures forall k :: k in Group(counts, h, n) <==> 1 <= k <= n && counts[k - 1] == h
  {
    if n > 0 {
      GroupMembers(counts, h, n - 1);
    }
  }

  /** The largest hydrogen count, and 0 when there is none above 0. */
  function MaxH(counts: seq<int>): (m: int)
    ensures m >= 0
    ensures forall k :: 0 <= k < |counts| ==> counts[k] <= m
    ensures m > 0 ==> exists k :: 0 <= k < |counts| && counts[k] == m
  {
    if counts == [] then 0
    else
      var m := MaxH(counts[..|counts| - 1]);
      if counts[|counts| - 1] > m then counts[|counts| - 1] else m
  }

  /** The maximum loop of `generateHydrogenLayer`. */
  method MaxHydrogens(counts: seq<int>) returns (m: int)
    ensures m == MaxH(counts)
  {
    m := 0;
    var i := 0;
    while i < |counts|
      invariant 0 <= i <= |counts|
      invariant m == MaxH(counts[..i])
    {
      assert counts[..i + 1][..i] == counts[..i];
      if counts[i] > m {
        m := counts[i];
      }
      i := i + 1;
    }
    assert counts[..|counts|] == counts;
  }

  /** The collecting loop of `generateHydrogenLayer`. */
  method CollectGroup(counts: seq<int>, h: int) returns (g: seq<int>)
    ensures g == Group(counts, h, |counts|)
  {
    g := [];
    var idx := 0;
    while idx < |counts|
      invariant 0 <= idx <= |counts|
      invariant g == Group(counts, h, idx)
    {
      if counts[idx] == h {
        g := g + [idx + 1];
      }
      idx := idx + 1;
    }
  }

  /** "H", then the count when it is above 1. */
  function HSuffix(h: int): string
  {
    "H" + (if h > 1 then Text.IntToString(h) else "")
  }

  /** One group of the layer: its atoms as ranges, then "H" and the
      count: "1,3-5H" or "2,6H2". */
  function GroupText(g: seq<int>, h: int): string
    requires g != []
  {
    Text.Join(RangeTexts(Runs(g)), ",") + HSuffix(h)
  }

  /** One pass of the layer loop as written: a comma whenever the layer is
      not empty, even when no atom has `h` hydrogens. */
  function AsWrittenStep(acc: string, counts: seq<int>, h: int): string
  {
    var acc1 := if |acc| > 0 then acc + "," else acc;
    var g := Group(counts, h, |counts|);
    if g == [] then acc1 else WriteRuns(acc1, Runs(g)) + HSuffix(h)
  }

  function AsWrittenUpTo(counts: seq<int>, n: nat): string
  {
    if n == 0 then "" else AsWrittenStep(AsWrittenUpTo(counts, n - 1), counts, n)
  }

  /** The layer as the code builds it. */
  function HydrogenLayerAsWrittenText(counts: seq<int>): string
  {
    var m := MaxH(counts);
    if m == 0 then "" else Text.TrimComma(AsWrittenUpTo(counts, m))
  }

  /** `result.WriteString("H")`, then the count when it is above 1. */
  method WriteHSuffix(result: string, hCount: int) returns (r: string)
    ensures r == result + HSuffix(hCount)
  {
    var suffix := "H";
    if hCount > 1 {
      suffix := suffix + Text.IntToString(hCount);
    }
    r := result + suffix;
  }

  /** One pass of the layer loop as written. */
  method AsWrittenPass(result: string, counts: seq<int>, hCount: int) returns (r: string)
    ensures r == AsWrittenStep(result, counts, hCount)
  {
    r := result;
    if |r| > 0 {
      r := r + ",";
    }
    var atomsWithH := CollectGroup(counts, hCount);
    if |atomsWithH| == 0 {
      return;
    }
    r := PrintAtomRange(atomsWithH, r);
    r := WriteHSuffix(r, hCount);
  }

  /** `generateHydrogenLayer` as written, over the hydrogen counts of the
      atoms in canonical order. */
  method HydrogenLayerAsWritten(counts: seq<int>) returns (s: string)
    ensures s == HydrogenLayerAsWrittenText(counts)
  {
    var maxHydrogens := MaxHydrogens(counts);
    if maxHydrogens == 0 {
      return "";
    }
    var result := "";
    var hCount := 1;
    while hCount <= maxHydrogens
      invariant 1 <= hCount <= maxHydrogens + 1
      invariant result == AsWrittenUpTo(counts, hCount - 1)
    {
      result := AsWrittenPass(result, counts, hCount);
      hCount := hCount + 1;
    }
    s := Text.TrimComma(result);
  }

  /** The texts of the non-empty groups for 1 to `n` hydrogens. */
  function GroupTexts(counts: seq<int>, n: nat): seq<string>
  {
    if n == 0 then []
    else
      var g := Group(counts, n, |counts|);
      GroupTexts(counts, n - 1) + (if g == [] then [] else [GroupText(g, n)])
  }

  lemma GroupTextsStep(counts: seq<int>, n: nat, g: seq<int>)
    requires n > 0 && g == Group(counts, n, |counts|)
    ensures GroupTexts(counts, n) == GroupTexts(counts, n - 1) + (if g == [] then [] else [GroupText(g, n)])
  {
  }

  /** The layer as intended: the non-empty groups, by increasing hydrogen
      count, joined by single commas. */
  function HydrogenLayerText(counts: seq<int>): string
  {
    Text.Join(GroupTexts(counts, MaxH(counts)), ",")
  }

  /** A group written after a layer that joins `parts` (with a comma when
      the layer is not empty) extends the join by that group's text. */
  lemma GroupAppend(result: string, parts: seq<string>, g: seq<int>, h: int, r1: string)
    requires g != []
    requires result == Text.Join(parts, ",") && (result == "" <==> parts == [])
    requires r1 == if |result| > 0 then result + "," else result
    ensures WriteRuns(r1, Runs(g)) + HSuffix(h) == Text.Join(parts + [GroupText(g, h)], ",")
    ensures var t := WriteRuns(r1, Runs(g)) + HSuffix(h); t != "" && (t[|t| - 1] == 'H' || Text.IsDigit(t[|t| - 1]))
  {
    var runs := Runs(g);
    var ranges := Text.Join(RangeTexts(runs), ",");
    var suffix := HSuffix(h);
    var text := GroupText(g, h);
    assert text == ranges + suffix;
    WriteRunsFresh(r1, runs);
    var t := WriteRuns(r1, runs) + suffix;
    assert t == r1 + text;
    Text.JoinSnoc(parts, text, ",");
    HSuffixEnd(h);
    assert t[|t| - 1] == suffix[|suffix| - 1];
  }

  /** One group written into the layer: a comma unless it is the first,
      then the ranges and the hydrogen suffix. */
  method WriteGroup(result: string, atomsWithH: seq<int>, hCount: int, ghost parts: seq<string>)
    returns (r: string)
    requires atomsWithH != []
    requires result == Text.Join(parts, ",") && (result == "" <==> parts == [])
    ensures r == Text.Join(parts + [GroupText(atomsWithH, hCount)], ",") && r != ""
  {
    r := result;
    if |r| > 0 {
      r := r + ",";
    }
    ghost var r1 := r;
    r := PrintAtomRange(atomsWithH, r);
    r := WriteHSuffix(r, hCount);
    GroupAppend(result, parts, atomsWithH, hCount, r1);
  }

  /** One pass of the corrected layer loop. */
  method CorrectedPass(result: string, counts: seq<int>, hCount: int) returns (r: string)
    requires hCount >= 1
    requires result == Text.Join(GroupTexts(counts, hCount - 1), ",")
    requires result == "" <==> GroupTexts(counts, hCount - 1) == []
    ensures r == Text.Join(GroupTexts(counts, hCount), ",")
    ensures r == "" <==> GroupTexts(counts, hCount) == []
  {
    ghost var parts := GroupTexts(counts, hCount - 1);
    var atomsWithH := CollectGroup(counts, hCount);
    GroupTextsStep(counts, hCount, atomsWithH);
    r := result;
    if |atomsWithH| > 0 {
      ghost var next := parts + [GroupText(atomsWithH, hCount)];
      assert GroupTexts(counts, hCount) == next;
      r := WriteGroup(result, atomsWithH, hCount, parts);
    } else {
      assert GroupTexts(counts, hCount) == parts;
    }
  }

  /** `generateHydrogenLayer` with the comma written only before a group
      that has atoms. */
  method GenerateHydrogenLayer(counts: seq<int>) returns (s: string)
    ensures s == HydrogenLayerText(counts)
  {
    var maxHydrogens := MaxHydrogens(counts);
    var result := "";
    var hCount := 1;
    while hCount <= maxHydrogens
      invariant 1 <= hCount <= maxHydrogens + 1
      invariant result == Text.Join(GroupTexts(counts, hCount - 1), ",")
      invariant result == "" <==> GroupTexts(counts, hCount - 1) == []
    {
      result := CorrectedPass(result, counts, hCount);
      hCount := hCount + 1;
    }
    s := result;
  }

  /** The groups of an atom with one hydrogen and one with three. */
  lemma GapGroups(c: seq<int>)
    requires c == [1, 3]
    ensures MaxH(c) == 3
    ensures Group(c, 1, 2) == [1] && Group(c, 2, 2) == [] && Group(c, 3, 2) == [2]
    ensures HSuffix(1) == "H" && HSuffix(3) == "H3"
  {
    GapMax(c);
    GapFirstAtom(c);
    assert c[1] == 3;
    assert Text.IntToString(3) == "3";
  }

  /** The largest count of the example is 3. */
  lemma GapMax(c: seq<int>)
    requires c == [1, 3]
    ensures MaxH(c) == 3
  {
    assert c[..1] == [1] && c[..1][..0] == [];
  }

  /** After the first atom of the example only the one-hydrogen group has
      an atom. */
  lemma GapFirstAtom(c: seq<int>)
    requires c == [1, 3]
    ensures Group(c, 1, 1) == [1] && Group(c, 2, 1) == [] && Group(c, 3, 1) == []
  {
    assert c[0] == 1;
    assert Group(c, 1, 0) == [] && Group(c, 2, 0) == [] && Group(c, 3, 0) == [];
  }

  lemma SingleRange(out: string, a: int, text: string)
    requires 0 <= a < 10 && (out == "" || out[|out| - 1] == ',') && text == [Text.DigitChar(a)]
    ensures WriteRuns(out, Runs([a])) == out + text
    ensures Text.Join(RangeTexts(Runs([a])), ",") == text
  {
    assert Runs([a]) == [Run(a, a)];
    WriteRunsOne(out, Run(a, a));
    assert Sep(out, true) == "";
    assert Text.IntToString(a) == text;
    assert RangeTexts([Run(a, a)]) == [text];
  }

  /** A pass of the loop as written for a count no atom has. */
  lemma AsWrittenStepEmpty(counts: seq<int>, n: nat, prev: string, written: string)
    requires n > 0
    requires AsWrittenUpTo(counts, n - 1) == prev
    requires Group(counts, n, |counts|) == []
    requires written == if |prev| > 0 then prev + "," else prev
    ensures AsWrittenUpTo(counts, n) == written
  {
  }

  /** A pass of the loop as written for a count some atoms have. */
  lemma AsWrittenStepGroup(counts: seq<int>, n: nat, prev: string, g: seq<int>, written: string)
    requires n > 0
    requires AsWrittenUpTo(counts, n - 1) == prev
    requires g == Group(counts, n, |counts|) && g != []
    requires written == WriteRuns(if |prev| > 0 then prev + "," else prev, Runs(g)) + HSuffix(n)
    ensures AsWrittenUpTo(counts, n) == written
  {
  }

  /** The last group of the example: atom 2 with three hydrogens after
      "1H,". */
  lemma GapLastGroup(prev: string, g: seq<int>, h: int)
    requires prev == "1H," && g == [2] && h == 3
    ensures WriteRuns(prev + ",", Runs(g)) + HSuffix(h) == "1H,,2H3"
  {
    var acc := prev + ",";
    assert acc == "1H,,";
    SingleRange(acc, 2, "2");
    assert Text.IntToString(3) == "3";
    assert HSuffix(h) == "H3";
  }

  /** The first group of the example: atom 1 with one hydrogen. */
  lemma GapFirstGroup(prev: string, g: seq<int>, h: int)
    requires prev == "" && g == [1] && h == 1
    ensures WriteRuns(prev, Runs(g)) + HSuffix(h) == "1H"
    ensures WriteRuns(prev, Runs(g)) + HSuffix(h) + "," == "1H,"
    ensures GroupText(g, h) == "1H"
  {
    SingleRange(prev, 1, "1");
  }

  lemma GapFirstTwo(c: seq<int>)
    requires c == [1, 3]
    ensures AsWrittenUpTo(c, 2) == "1H,"
  {
    GapGroups(c);
    var one, two := 1, 2;
    GapFirstGroup("", [1], one);
    AsWrittenStepGroup(c, one, "", [1], WriteRuns("", Runs([1])) + HSuffix(one));
    AsWrittenStepEmpty(c, two, WriteRuns("", Runs([1])) + HSuffix(one), WriteRuns("", Runs([1])) + HSuffix(one) + ",");
  }

  lemma GapUpTo(c: seq<int>)
    requires c == [1, 3]
    ensures AsWrittenUpTo(c, 3) == "1H,,2H3"
  {
    GapFirstTwo(c);
    GapGroups(c);
    var s2 := AsWrittenUpTo(c, 2);
    GapLastGroup(s2, [2], 3);
    AsWrittenStepGroup(c, 3, s2, [2], WriteRuns(s2 + ",", Runs([2])) + HSuffix(3));
  }

  /** An atom with one hydrogen and one with three: the code writes an
      empty group for two hydrogens, "1H,,2H3". */
  lemma HydrogenGapAsWritten(c: seq<int>)
    requires c == [1, 3]
    ensures HydrogenLayerAsWrittenText(c) == "1H,,2H3"
  {
    GapGroups(c);
    GapUpTo(c);
    var t := AsWrittenUpTo(c, MaxH(c));
    assert t[|t| - 1] == '3';
  }

  lemma GroupTextsEmpty(counts: seq<int>, n: nat, prev: seq<string>)
    requires n > 0 && GroupTexts(counts, n - 1) == prev && Group(counts, n, |counts|) == []
    ensures GroupTexts(counts, n) == prev
  {
  }

  lemma GroupTextsGroup(counts: seq<int>, n: nat, prev: seq<string>, g: seq<int>, text: string)
    requires n > 0 && GroupTexts(counts, n - 1) == prev && g == Group(counts, n, |counts|) && g != []
    requires text == GroupText(g, n)
    ensures GroupTexts(counts, n) == prev + [text]
  {
  }

  /** The groups of the gap example: atom 1 with one hydrogen, none with
      two, atom 2 with three. */
  predicate GapShape(c: seq<int>)
  {
    Group(c, 1, |c|) == [1] && Group(c, 2, |c|) == [] && Group(c, 3, |c|) == [2]
  }

  lemma GapTextsFirstTwo(c: seq<int>)
    requires GapShape(c)
    ensures GroupTexts(c, 2) == ["1H"]
  {
    var one, two := 1, 2;
    var g := [1];
    GapFirstGroup("", g, one);
    GroupTextsGroup(c, one, [], g, GroupText(g, one));
    GroupTextsEmpty(c, two, GroupTexts(c, one));
  }

  lemma GapLastText(g: seq<int>, h: int)
    requires g == [2] && h == 3
    ensures GroupText(g, h) == "2H3"
  {
    SingleRange("", 2, "2");
    assert Text.IntToString(3) == "3";
    assert HSuffix(h) == "H3";
  }

  lemma GapJoin(parts: seq<string>)
    requires parts == ["1H", "2H3"]
    ensures Text.Join(parts, ",") == "1H,2H3"
  {
    assert parts[1..] == ["2H3"];
  }

  lemma GapTextsAll(c: seq<int>)
    requires GapShape(c)
    ensures GroupTexts(c, 3) == ["1H", "2H3"]
  {
    GapTextsFirstTwo(c);
    var g, h := [2], 3;
    GapLastText(g, h);
    GroupTextsGroup(c, h, GroupTexts(c, h - 1), g, GroupText(g, h));
  }

  /** The intended layer for the same atoms is "1H,2H3". */
  lemma HydrogenGapCorrected(c: seq<int>)
    requires c == [1, 3]
    ensures HydrogenLayerText(c) == "1H,2H3"
  {
    GapGroups(c);
    GapTextsAll(c);
    GapJoin(GroupTexts(c, 3));
  }

  lemma HSuffixEnd(h: int)
    ensures var t := HSuffix(h); t[|t| - 1] == 'H' || Text.IsDigit(t[|t| - 1])
  {
    if h > 1 {
      Text.IntToStringEndsInDigit(h);
    }
  }

  /** Without a gap in the hydrogen counts the code's layer is the
      intended one. */
  lemma {:induction false} AsWrittenUpToNoGap(counts: seq<int>, n: nat)
    requires forall h :: 1 <= h <= n ==> Group(counts, h, |counts|) != []
    ensures AsWrittenUpTo(counts, n) == Text.Join(GroupTexts(counts, n), ",")
    ensures AsWrittenUpTo(counts, n) == "" <==> n == 0
    ensures n > 0 ==> var t := AsWrittenUpTo(counts, n); t[|t| - 1] == 'H' || Text.IsDigit(t[|t| - 1])
  {
    if n > 0 {
      AsWrittenUpToNoGap(counts, n - 1);
      var acc := AsWrittenUpTo(counts, n - 1);
      var acc1 := if |acc| > 0 then acc + "," else acc;
      GroupAppend(acc, GroupTexts(counts, n - 1), Group(counts, n, |counts|), n, acc1);
    }
  }

  /** When every count from 1 to the maximum occurs, the code's layer and
      the intended one agree. */
  lemma HydrogenLayerNoGap(counts: seq<int>)
    requires forall h :: 1 <= h <= MaxH(counts) ==> Group(counts, h, |counts|) != []
    ensures HydrogenLayerAsWrittenText(counts) == HydrogenLayerText(counts)
  {
    AsWrittenUpToNoGap(counts, MaxH(counts));
  }

  // ---------------------------------------------------------------------
  // Formula layer (`generateFormulaLayer`)

  /** A map entry, with Go's zero for a missing key. */
  function Get(m: map<int, int>, k: int): int
  {
    if k in m then m[k] else 0
  }

  /** No atom is a pseudo, R-site or template atom, on which reading the
      implicit hydrogens panics. */
  predicate NoSpecialAtoms(atoms: seq<Atom>)
  {
    forall i :: 0 <= i < |atoms| ==> !IsSpecialNumber(atoms[i].number)
  }

  /** The element counts after the first `n` atoms, given atom i's implicit
      hydrogen count `hs[i]`: one under the atom's own number, and its
      implicit hydrogens under H when there are any. */
  function ElementCounts(atoms: seq<Atom>, hs: seq<int>, n: nat): map<int, int>
    requires |hs| == |atoms| && n <= |atoms|
  {
    if n == 0 then map[]
    else
      var m := GrossFormula.Bump(ElementCounts(atoms, hs, n - 1), atoms[n - 1].number, 1);
      if hs[n - 1] > 0 then GrossFormula.Bump(m, Elements.ElemH, hs[n - 1]) else m
  }

  /** How many of the first `n` atoms have number `e`. */
  function NumberCount(atoms: seq<Atom>, e: int, n: nat): nat
    requires n <= |atoms|
  {
    if n == 0 then 0 else NumberCount(atoms, e, n - 1) + (if atoms[n - 1].number == e then 1 else 0)
  }

  /** The implicit hydrogens of the first `n` atoms. */
  function HydrogenSum(hs: seq<int>, n: nat): nat
    requires n <= |hs|
  {
    if n == 0 then 0 else HydrogenSum(hs, n - 1) + (if hs[n - 1] > 0 then hs[n - 1] else 0)
  }

  /** What the counts mean: every element other than H once per atom of
      that element, H once per hydrogen atom plus every implicit hydrogen;
      every count present is positive. */
  lemma {:induction false} ElementCountsMeaning(atoms: seq<Atom>, hs: seq<int>, n: nat)
    requires |hs| == |atoms| && n <= |atoms|
    ensures forall e :: e != Elements.ElemH ==> Get(ElementCounts(atoms, hs, n), e) == NumberCount(atoms, e, n)
    ensures Get(ElementCounts(atoms, hs, n), Elements.ElemH) == NumberCount(atoms, Elements.ElemH, n) + HydrogenSum(hs, n)
    ensures forall e :: e in ElementCounts(atoms, hs, n) ==> ElementCounts(atoms, hs, n)[e] > 0
  {
    if n > 0 {
      ElementCountsMeaning(atoms, hs, n - 1);
    }
  }

  /** One pass of the counting loop. */
  method CountElement(mol: Molecule, i: int, counts: map<int, int>, ghost hs: seq<int>) returns (next: map<int, int>)
    requires mol.Valid() && 0 <= i < |mol.atoms| && !IsSpecialNumber(mol.atoms[i].number)
    requires hs == GrossFormula.ImplicitHs(mol.atoms, mol.bonds, mol.vertices)
    requires counts == ElementCounts(mol.atoms, hs, i)
    modifies mol`connectivity, mol`implicitH
    ensures mol.Valid()
    ensures next == ElementCounts(mol.atoms, hs, i + 1)
  {
    assert hs[i] == ImplicitHOf(mol.atoms, mol.bonds, mol.vertices, i);
    var number := mol.atoms[i].number;
    next := GrossFormula.Bump(counts, number, 1);
    var implH := mol.GetImplicitH(i);
    if implH > 0 {
      next := GrossFormula.Bump(next, Elements.ElemH, implH);
    }
  }

  /** The counting loop of `generateFormulaLayer`. Reading implicit
      hydrogens may fill the molecule's caches. */
  method CountElements(mol: Molecule) returns (counts: map<int, int>)
    requires mol.Valid() && NoSpecialAtoms(mol.atoms)
    modifies mol`connectivity, mol`implicitH
    ensures mol.Valid()
    ensures counts == ElementCounts(mol.atoms, GrossFormula.ImplicitHs(mol.atoms, mol.bonds, mol.vertices), |mol.atoms|)
  {
    ghost var hs := GrossFormula.ImplicitHs(mol.atoms, mol.bonds, mol.vertices);
    counts := map[];
    var i := 0;
    while i < |mol.atoms|
      invariant mol.Valid() && 0 <= i <= |mol.atoms|
      invariant hs == GrossFormula.ImplicitHs(mol.atoms, mol.bonds, mol.vertices)
      invariant counts == ElementCounts(mol.atoms, hs, i)
    {
      counts := CountElement(mol, i, counts, hs);
      i := i + 1;
    }
  }

  /** The count written after a symbol: nothing for 1. */
  function CountSuffix(count: int): string
  {
    if count > 1 then Text.IntToString(count) else ""
  }

  /** The C or the H part: the symbol and its count when the element is
      counted, nothing otherwise. */
  function LeadPart(counts: map<int, int>, e: int, symbol: string): string
  {
    if e in counts && counts[e] > 0 then symbol + CountSuffix(counts[e]) else ""
  }

  /** One of the remaining elements, with its symbol and count. */
  datatype ElementEntry = ElementEntry(element: int, symbol: string, count: int)

  /** The comparator of the remaining elements: by symbol. */
  predicate SymbolLess(a: ElementEntry, b: ElementEntry)
  {
    Text.LexLess(a.symbol, b.symbol)
  }

  lemma SymbolLessStrict()
    ensures StrictOrder(SymbolLess)
  {
    forall a: ElementEntry ensures !SymbolLess(a, a) {
      Text.LexLessIrreflexive(a.symbol);
    }
    forall a: ElementEntry, b: ElementEntry, c: ElementEntry | SymbolLess(a, b) && SymbolLess(b, c)
      ensures SymbolLess(a, c)
    {
      Text.LexLessTransitive(a.symbol, b.symbol, c.symbol);
    }
  }

  /** The counts other than C and H. */
  function Others(counts: map<int, int>): map<int, int>
  {
    counts - {Elements.ElemC, Elements.ElemH}
  }

  /** `es` holds one entry, with its symbol, for every element of `m` with
      a positive count, and nothing else. */
  ghost predicate EntriesOf(m: map<int, int>, es: seq<ElementEntry>)
  {
    (forall k :: k in m && m[k] > 0 ==> ElementEntry(k, Elements.ElementSymbol(k), m[k]) in es)
    && (forall e :: e in es ==>
          e.element in m && m[e.element] > 0 && e == ElementEntry(e.element, Elements.ElementSymbol(e.element), m[e.element]))
    && (forall e :: multiset(es)[e] <= 1)
  }

  /** The entries written one after another, each as its symbol and count. */
  function EntriesText(es: seq<ElementEntry>): string
  {
    if es == [] then ""
    else
      var e := es[|es| - 1];
      EntriesText(es[..|es| - 1]) + e.symbol + CountSuffix(e.count)
  }

  /** The formula in Hill order: C, then H, then the other elements in
      the order of `es`. */
  function FormulaText(counts: map<int, int>, es: seq<ElementEntry>): string
  {
    LeadPart(counts, Elements.ElemC, "C") + LeadPart(counts, Elements.ElemH, "H") + EntriesText(es)
  }

  /** Writing the C or the H part, and dropping that element from the map
      when it was written. */
  method WriteLead(formula: string, counts: map<int, int>, e: int, symbol: string)
    returns (r: string, rest: map<int, int>)
    ensures r == formula + LeadPart(counts, e, symbol)
    ensures rest == if e in counts && counts[e] > 0 then counts - {e} else counts
  {
    r, rest := formula, counts;
    if e in counts && counts[e] > 0 {
      var count := counts[e];
      r := r + symbol;
      if count > 1 {
        r := r + Text.IntToString(count);
      }
      rest := counts - {e};
    }
  }

  /** The loop over the map that gathers the remaining elements. */
  method CollectEntries(m: map<int, int>) returns (es: seq<ElementEntry>)
    ensures EntriesOf(m, es)
  {
    es := [];
    var remaining := m.Keys;
    while remaining != {}
      invariant remaining <= m.Keys
      invariant forall k :: k in m.Keys - remaining && m[k] > 0 ==> ElementEntry(k, Elements.ElementSymbol(k), m[k]) in es
      invariant forall e :: e in es ==>
                  e.element in m.Keys - remaining && m[e.element] > 0
                  && e == ElementEntry(e.element, Elements.ElementSymbol(e.element), m[e.element])
      invariant forall e :: multiset(es)[e] <= 1
      decreases remaining
    {
      SomeMember(remaining);
      var k :| k in remaining;
      if m[k] > 0 {
        var entry := ElementEntry(k, Elements.ElementSymbol(k), m[k]);
        assert entry !in es;
        es := es + [entry];
      }
      remaining := remaining - {k};
    }
  }

  /** The loop that writes the sorted entries. */
  method WriteEntries(formula: string, es: seq<ElementEntry>) returns (r: string)
    ensures r == formula + EntriesText(es)
  {
    r := formula;
    var i := 0;
    while i < |es|
      invariant 0 <= i <= |es|
      invariant r == formula + EntriesText(es[..i])
    {
      ghost var done := EntriesText(es[..i]);
      r := WriteEntry(r, es[i]);
      EntriesTextSnoc(es, i);
      Text.Assoc(formula, done, es[i].symbol + CountSuffix(es[i].count));
      i := i + 1;
    }
    assert es[..|es|] == es;
  }

  /** One entry: its symbol, then its count when above one. */
  method WriteEntry(r: string, e: ElementEntry) returns (r': string)
    ensures r' == r + (e.symbol + CountSuffix(e.count))
  {
    r' := r + e.symbol;
    if e.count > 1 {
      r' := r' + Text.IntToString(e.count);
      Text.Assoc(r, e.symbol, Text.IntToString(e.count));
    }
  }

  lemma EntriesTextSnoc(es: seq<ElementEntry>, i: int)
    requires 0 <= i < |es|
    ensures EntriesText(es[..i + 1]) == EntriesText(es[..i]) + (es[i].symbol + CountSuffix(es[i].count))
  {
    var front := es[..i + 1];
    assert front[..i] == es[..i] && front[i] == es[i];
    Text.Assoc(EntriesText(es[..i]), es[i].symbol, CountSuffix(es[i].count));
  }

  /** A permutation of the entries is still the entries. */
  lemma SortKeepsEntries(m: map<int, int>, es: seq<ElementEntry>, sorted: seq<ElementEntry>)
    requires EntriesOf(m, es) && multiset(sorted) == multiset(es)
    ensures EntriesOf(m, sorted)
  {
    forall e | e in sorted ensures e in es {
      assert e in multiset(sorted);
    }
    forall e | e in es ensures e in sorted {
      assert e in multiset(es);
    }
  }

  /** After writing C and H, the map left holds the same positive counts
      as the counts other than C and H. */
  lemma RestEntries(counts: map<int, int>, rest: map<int, int>, es: seq<ElementEntry>)
    requires forall k :: k in rest && rest[k] > 0 <==> k in Others(counts) && Others(counts)[k] > 0
    requires forall k :: k in rest && rest[k] > 0 ==> rest[k] == counts[k]
    requires EntriesOf(rest, es)
    ensures EntriesOf(Others(counts), es)
  {
  }

  /** The formula from the counts: C, then H, then the other elements
      sorted by symbol, each count above 1 written after its symbol. */
  method FormulaFromCounts(counts: map<int, int>) returns (s: string)
    ensures exists es :: EntriesOf(Others(counts), es) && Sorted(SymbolLess, es) && s == FormulaText(counts, es)
  {
    ghost var lead := LeadPart(counts, Elements.ElemC, "C") + LeadPart(counts, Elements.ElemH, "H");
    var formula, rest := WriteLead("", counts, Elements.ElemC, "C");
    assert formula == LeadPart(counts, Elements.ElemC, "C");
    var rest2;
    formula, rest2 := WriteLead(formula, rest, Elements.ElemH, "H");
    assert LeadPart(rest, Elements.ElemH, "H") == LeadPart(counts, Elements.ElemH, "H");
    assert formula == lead;
    var entries := CollectEntries(rest2);
    RestEntries(counts, rest2, entries);
    var sorted := InsertionSort(SymbolLess, entries);
    SymbolLessStrict();
    InsertionSortCorrect(SymbolLess, entries);
    SortKeepsEntries(Others(counts), entries, sorted);
    s := WriteEntries(formula, sorted);
    assert s == FormulaText(counts, sorted);
  }

  /** `generateFormulaLayer`: nothing for an empty molecule; otherwise the
      Hill formula of the element counts. */
  method GenerateFormulaLayer(mol: Molecule) returns (s: string)
    requires mol.Valid() && NoSpecialAtoms(mol.atoms)
    modifies mol`connectivity, mol`implicitH
    ensures mol.Valid()
    ensures |mol.atoms| == 0 ==> s == ""
    ensures |mol.atoms| > 0 ==>
              var counts := ElementCounts(mol.atoms, GrossFormula.ImplicitHs(mol.atoms, mol.bonds, mol.vertices), |mol.atoms|);
              exists es :: EntriesOf(Others(counts), es) && Sorted(SymbolLess, es) && s == FormulaText(counts, es)
  {
    if |mol.atoms| == 0 {
      return "";
    }
    var counts := CountElements(mol);
    s := FormulaFromCounts(counts);
  }

  /** The first atom's element is counted at least once. */
  lemma {:induction false} FirstAtomCounted(atoms: seq<Atom>, n: nat)
    requires 0 < n <= |atoms|
    ensures NumberCount(atoms, atoms[0].number, n) >= 1
  {
    if n > 1 {
      FirstAtomCounted(atoms, n - 1);
    }
  }

  /** A symbol is never empty. */
  lemma SymbolNonEmpty(k: int)
    ensures Elements.ElementSymbol(k) != ""
  {
  }

  lemma EntriesTextNonEmpty(es: seq<ElementEntry>)
    requires es != [] && es[|es| - 1].symbol != ""
    ensures EntriesText(es) != ""
  {
    var e := es[|es| - 1];
    var t := e.symbol + CountSuffix(e.count);
    assert t[0] == e.symbol[0];
  }

  /** A molecule with atoms has a non-empty formula, so the formula layer
      is empty exactly for the empty molecule. */
  lemma FormulaNonEmpty(atoms: seq<Atom>, hs: seq<int>, es: seq<ElementEntry>)
    requires |hs| == |atoms| > 0
    requires EntriesOf(Others(ElementCounts(atoms, hs, |atoms|)), es)
    ensures FormulaText(ElementCounts(atoms, hs, |atoms|), es) != ""
  {
    var counts := ElementCounts(atoms, hs, |atoms|);
    var e := atoms[0].number;
    ElementCountsMeaning(atoms, hs, |atoms|);
    FirstAtomCounted(atoms, |atoms|);
    assert e in counts && counts[e] > 0;
    if e == Elements.ElemC {
      assert LeadPart(counts, Elements.ElemC, "C") != "";
    } else if e == Elements.ElemH {
      assert LeadPart(counts, Elements.ElemH, "H") != "";
    } else {
      assert e in Others(counts);
      var entry := ElementEntry(e, Elements.ElementSymbol(e), counts[e]);
      assert entry in es;
      var last := es[|es| - 1];
      assert last in es;
      SymbolNonEmpty(last.element);
      EntriesTextNonEmpty(es);
    }
  }

  // ---------------------------------------------------------------------
  // Canonical numbering (`getCanonicalNumbering`)

  /** What the numbering sorts on: the atom's index, element and degree. */
  datatype AtomInfo = AtomInfo(index: int, element: int, degree: int)

  /** Heavier elements first, then atoms with more bonds first. */
  predicate InfoLess(a: AtomInfo, b: AtomInfo)
  {
    if a.element != b.element then a.element > b.element else a.degree > b.degree
  }

  lemma InfoLessStrict()
    ensures StrictOrder(InfoLess)
  {
  }

  /** The information of the first `n` atoms, in index order. */
  function AtomInfos(atoms: seq<Atom>, vertices: seq<seq<int>>, n: nat): (infos: seq<AtomInfo>)
    requires n <= |atoms| == |vertices|
    ensures |infos| == n
    ensures forall i :: 0 <= i < n ==> infos[i] == AtomInfo(i, atoms[i].number, |vertices[i]|)
  {
    if n == 0 then [] else AtomInfos(atoms, vertices, n - 1) + [AtomInfo(n - 1, atoms[n - 1].number, |vertices[n - 1]|)]
  }

  function Indices(infos: seq<AtomInfo>): (order: seq<int>)
    ensures |order| == |infos|
    ensures forall k :: 0 <= k < |infos| ==> order[k] == infos[k].index
  {
    if infos == [] then [] else Indices(infos[..|infos| - 1]) + [infos[|infos| - 1].index]
  }

  /** Each atom's information occurs once. */
  lemma {:induction false} AtomInfosOnce(atoms: seq<Atom>, vertices: seq<seq<int>>, n: nat)
    requires n <= |atoms| == |vertices|
    ensures forall x :: multiset(AtomInfos(atoms, vertices, n))[x] <= 1
  {
    if n > 0 {
      AtomInfosOnce(atoms, vertices, n - 1);
      var prev := AtomInfos(atoms, vertices, n - 1);
      var x := AtomInfo(n - 1, atoms[n - 1].number, |vertices[n - 1]|);
      assert x !in prev;
      assert AtomInfos(atoms, vertices, n) == prev + [x];
    }
  }

  /** A value at two positions occurs at least twice. */
  lemma TwiceInMultiset<T>(s: seq<T>, i: int, j: int)
    requires 0 <= i < j < |s| && s[i] == s[j]
    ensures multiset(s)[s[i]] >= 2
  {
    assert s == s[..j] + [s[j]] + s[j + 1..];
    assert s[i] in multiset(s[..j]);
  }

  /** The indices of a reordering of the atoms' information are every atom
      index exactly once. */
  lemma IndicesArePermutation(atoms: seq<Atom>, vertices: seq<seq<int>>, infos: seq<AtomInfo>)
    requires |atoms| == |vertices|
    requires multiset(infos) == multiset(AtomInfos(atoms, vertices, |atoms|))
    ensures |Indices(infos)| == |atoms|
    ensures forall i :: 0 <= i < |atoms| ==> i in Indices(infos)
    ensures forall k, l :: 0 <= k < l < |infos| ==> Indices(infos)[k] != Indices(infos)[l]
  {
    var all := AtomInfos(atoms, vertices, |atoms|);
    assert |infos| == |multiset(infos)| == |multiset(all)| == |all|;
    forall i | 0 <= i < |atoms| ensures i in Indices(infos) {
      IndexCovered(atoms, vertices, infos, i);
    }
    AtomInfosOnce(atoms, vertices, |atoms|);
    forall k, l | 0 <= k < l < |infos| ensures Indices(infos)[k] != Indices(infos)[l] {
      IndexPairDistinct(atoms, vertices, infos, k, l);
    }
  }

  lemma IndexCovered(atoms: seq<Atom>, vertices: seq<seq<int>>, infos: seq<AtomInfo>, i: int)
    requires |atoms| == |vertices| && 0 <= i < |atoms|
    requires multiset(infos) == multiset(AtomInfos(atoms, vertices, |atoms|))
    ensures i in Indices(infos)
  {
    var x := AtomInfos(atoms, vertices, |atoms|)[i];
    assert x in multiset(infos);
    var k :| 0 <= k < |infos| && infos[k] == x;
    assert Indices(infos)[k] == i;
  }

  lemma IndexPairDistinct(atoms: seq<Atom>, vertices: seq<seq<int>>, infos: seq<AtomInfo>, k: int, l: int)
    requires |atoms| == |vertices| && 0 <= k < l < |infos|
    requires multiset(infos) == multiset(AtomInfos(atoms, vertices, |atoms|))
    requires forall x :: multiset(AtomInfos(atoms, vertices, |atoms|))[x] <= 1
    ensures Indices(infos)[k] != Indices(infos)[l]
  {
    var all := AtomInfos(atoms, vertices, |atoms|);
    if infos[k].index == infos[l].index {
      assert infos[k] in multiset(all) && infos[l] in multiset(all);
      var a :| 0 <= a < |all| && all[a] == infos[k];
      var b :| 0 <= b < |all| && all[b] == infos[l];
      assert infos[k] == infos[l];
      TwiceInMultiset(infos, k, l);
      assert false;
    }
  }

  /** The loop that gathers each atom's information. */
  method CollectAtomInfos(mol: Molecule) returns (infos: seq<AtomInfo>)
    requires mol.Valid()
    ensures infos == AtomInfos(mol.atoms, mol.vertices, |mol.atoms|)
  {
    infos := [];
    var i := 0;
    while i < |mol.atoms|
      invariant 0 <= i <= |mol.atoms|
      invariant infos == AtomInfos(mol.atoms, mol.vertices, i)
    {
      infos := infos + [AtomInfo(i, mol.atoms[i].number, |mol.vertices[i]|)];
      i := i + 1;
    }
  }

  /** `getCanonicalNumbering`: the atom indices sorted by element, heavier
      first, and then by degree, higher first; every atom index occurs
      exactly once. Atoms that tie may come in any order. */
  method GetCanonicalNumbering(mol: Molecule) returns (order: seq<int>)
    requires mol.Valid()
    ensures exists infos :: multiset(infos) == multiset(AtomInfos(mol.atoms, mol.vertices, |mol.atoms|))
                            && Sorted(InfoLess, infos) && order == Indices(infos)
    ensures |order| == |mol.atoms|
    ensures forall i :: 0 <= i < |mol.atoms| ==> i in order
    ensures forall k, l :: 0 <= k < l < |order| ==> order[k] != order[l]
  {
    var atomInfos := CollectAtomInfos(mol);
    var sorted := InsertionSort(InfoLess, atomInfos);
    InfoLessStrict();
    InsertionSortCorrect(InfoLess, atomInfos);
    order := IndexLoop(sorted);
    IndicesArePermutation(mol.atoms, mol.vertices, sorted);
  }

  /** The loop that reads the sorted atoms' indices. */
  method IndexLoop(sorted: seq<AtomInfo>) returns (order: seq<int>)
    ensures order == Indices(sorted)
  {
    order := [];
    var i := 0;
    while i < |sorted|
      invariant 0 <= i <= |sorted|
      invariant order == Indices(sorted[..i])
    {
      assert sorted[..i + 1][..i] == sorted[..i];
      order := order + [sorted[i].index];
      i := i + 1;
    }
    assert sorted[..|sorted|] == sorted;
  }

  // ---------------------------------------------------------------------
  // Tetrahedral parity (`computeTetrahedralParity`)

  /** A pyramid slot in canonical numbers: -1 (an implicit hydrogen)
      stays, an atom missing from the map reads as Go's zero. */
  function CanonicalSlot(a: int, canonicalIndex: map<int, int>): int
  {
    if a == -1 then -1 else if a in canonicalIndex then canonicalIndex[a] else 0
  }

  function CanonicalPyramid(p: Stereocenters.Pyramid, canonicalIndex: map<int, int>): (c: seq<int>)
    ensures |c| == 4
    ensures forall i :: 0 <= i < 4 ==> c[i] == CanonicalSlot(p[i], canonicalIndex)
  {
    [CanonicalSlot(p[0], canonicalIndex), CanonicalSlot(p[1], canonicalIndex),
     CanonicalSlot(p[2], canonicalIndex), CanonicalSlot(p[3], canonicalIndex)]
  }

  /** Whether slots `i` and `j` hold two atoms in decreasing order. */
  function Inverted(c: seq<int>, i: int, j: int): nat
    requires 0 <= i < |c| && 0 <= j < |c|
  {
    if c[i] != -1 && c[j] != -1 && c[i] > c[j] then 1 else 0
  }

  /** The inversions of slot `i` with the slots `i + 1` to `j - 1`. */
  function RowInversions(c: seq<int>, i: int, j: int): nat
    requires 0 <= i < |c| && i < j <= |c|
    decreases j
  {
    if j == i + 1 then 0 else RowInversions(c, i, j - 1) + Inverted(c, i, j - 1)
  }

  /** The inversions of the slots before `i` with the slots after them. */
  function RowsInversions(c: seq<int>, i: nat): nat
    requires i < |c|
  {
    if i == 0 then 0 else RowsInversions(c, i - 1) + RowInversions(c, i - 1, |c|)
  }

  /** The pairs of atoms, hydrogens skipped, in decreasing order. */
  function Inversions(c: seq<int>): nat
    requires |c| == 4
  {
    RowsInversions(c, 3)
  }

  /** The six pairs of four slots, written out. */
  lemma InversionsPairs(c: seq<int>)
    requires |c| == 4
    ensures Inversions(c) == Inverted(c, 0, 1) + Inverted(c, 0, 2) + Inverted(c, 0, 3)
                             + Inverted(c, 1, 2) + Inverted(c, 1, 3) + Inverted(c, 2, 3)
  {
    assert RowInversions(c, 0, 4) == Inverted(c, 0, 1) + Inverted(c, 0, 2) + Inverted(c, 0, 3);
    assert RowInversions(c, 1, 4) == Inverted(c, 1, 2) + Inverted(c, 1, 3);
    assert RowInversions(c, 2, 4) == Inverted(c, 2, 3);
    assert RowsInversions(c, 1) == RowInversions(c, 0, 4);
    assert RowsInversions(c, 2) == RowsInversions(c, 1) + RowInversions(c, 1, 4);
    assert RowsInversions(c, 3) == RowsInversions(c, 2) + RowInversions(c, 2, 4);
  }

  /** "+" for an odd number of inversions, "-" for an even one. */
  function ParitySign(inversions: nat): string
  {
    if inversions % 2 == 1 then "+" else "-"
  }

  /** The inner loop: the inversions of slot `i` with every later slot. */
  method CountRow(c: seq<int>, i: int, inversions: nat) returns (r: nat)
    requires |c| == 4 && 0 <= i < 3
    ensures r == inversions + RowInversions(c, i, 4)
  {
    r := inversions;
    var j := i + 1;
    while j < 4
      invariant i + 1 <= j <= 4
      invariant r == inversions + RowInversions(c, i, j)
    {
      if c[i] != -1 && c[j] != -1 {
        if c[i] > c[j] {
          r := r + 1;
        }
      }
      j := j + 1;
    }
  }

  /** `computeTetrahedralParity`: the pyramid in canonical numbers, its
      inversions counted over the slots that are not hydrogens, "+" when
      their number is odd. */
  method ComputeTetrahedralParity(center: Stereocenters.Stereocenter, canonicalIndex: map<int, int>)
    returns (parity: string)
    ensures parity == ParitySign(Inversions(CanonicalPyramid(center.pyramid, canonicalIndex)))
  {
    var pyramid := center.pyramid;
    var canonicalPyramid := [0, 0, 0, 0];
    var i := 0;
    while i < 4
      invariant 0 <= i <= 4 && |canonicalPyramid| == 4
      invariant forall k :: 0 <= k < i ==> canonicalPyramid[k] == CanonicalSlot(pyramid[k], canonicalIndex)
    {
      if pyramid[i] == -1 {
        canonicalPyramid := canonicalPyramid[i := -1];
      } else if pyramid[i] in canonicalIndex {
        canonicalPyramid := canonicalPyramid[i := canonicalIndex[pyramid[i]]];
      } else {
        canonicalPyramid := canonicalPyramid[i := 0];
      }
      i := i + 1;
    }
    assert canonicalPyramid == CanonicalPyramid(pyramid, canonicalIndex);
    var inversions := 0;
    i := 0;
    while i < 3
      invariant 0 <= i <= 3
      invariant inversions == RowsInversions(canonicalPyramid, i)
    {
      inversions := CountRow(canonicalPyramid, i, inversions);
      i := i + 1;
    }
    if inversions % 2 == 1 {
      return "+";
    }
    return "-";
  }

  /** Exchanging two slots that hold atoms with different canonical
      numbers flips the parity: the two mirror images get opposite signs. */
  lemma SwapFlipsParity(c: seq<int>)
    requires |c| == 4 && c[0] != -1 && c[1] != -1 && c[0] != c[1]
    ensures ParitySign(Inversions([c[1], c[0], c[2], c[3]])) != ParitySign(Inversions(c))
  {
    var d := [c[1], c[0], c[2], c[3]];
    InversionsPairs(c);
    InversionsPairs(d);
    assert Inverted(d, 0, 1) + Inverted(c, 0, 1) == 1;
    assert Inverted(d, 0, 2) == Inverted(c, 1, 2) && Inverted(d, 1, 2) == Inverted(c, 0, 2);
    assert Inverted(d, 0, 3) == Inverted(c, 1, 3) && Inverted(d, 1, 3) == Inverted(c, 0, 3);
    assert Inverted(d, 2, 3) == Inverted(c, 2, 3);
  }

  /** For a centre whose first two substituents have distinct canonical
      numbers, swapping them (`SwapFirstTwo`) flips the parity written in
      the tetrahedral layer. */
  lemma SwapFirstTwoFlipsParity(p: Stereocenters.Pyramid, canonicalIndex: map<int, int>)
    requires CanonicalSlot(p[0], canonicalIndex) != -1 && CanonicalSlot(p[1], canonicalIndex) != -1
    requires CanonicalSlot(p[0], canonicalIndex) != CanonicalSlot(p[1], canonicalIndex)
    ensures ParitySign(Inversions(CanonicalPyramid(Stereocenters.SwapFirstTwo(p), canonicalIndex)))
            != ParitySign(Inversions(CanonicalPyramid(p, canonicalIndex)))
  {
    var c := CanonicalPyramid(p, canonicalIndex);
    assert CanonicalPyramid(Stereocenters.SwapFirstTwo(p), canonicalIndex) == [c[1], c[0], c[2], c[3]];
    SwapFlipsParity(c);
  }

  /** Atoms already in increasing canonical order give "-". */
  lemma IncreasingIsMinus(c: seq<int>)
    requires |c| == 4 && forall i, j :: 0 <= i < j < 4 ==> c[i] < c[j]
    ensures ParitySign(Inversions(c)) == "-"
  {
    InversionsPairs(c);
  }

  // ---------------------------------------------------------------------
  // Layer assembly (`constructInChIString`) and the generator

  /** The generation options; the layer builders modelled here do not
      read them. */
  datatype InChIOptions = InChIOptions(fixedH: bool, recMet: bool, auxInfo: bool, sNon: bool)

  /** The layers of one molecule. */
  datatype InChILayers = InChILayers(
    formula: string,
    connectivity: string,
    hydrogen: string,
    cistrans: string,
    tetrahedral: string,
    enantiomer: string,
    stereoType: string,
    hasStereochem: bool)

  /** A layer as written: "/", its tag and its body, or nothing when the
      body is empty. */
  function Layer(tag: string, body: string): string
  {
    if body == "" then "" else "/" + tag + body
  }

  /** The enantiomer and stereo-type layers, written only when the molecule
      has stereochemistry, even with empty bodies. */
  function StereoLayers(l: InChILayers): string
  {
    if l.hasStereochem then "/m" + l.enantiomer + "/s" + l.stereoType else ""
  }

  /** The InChI string: the prefix, then the layers in the fixed order
      formula, /c, /h, /b, /t, then /m and /s. */
  function InChIText(prefix: string, l: InChILayers): string
  {
    prefix + Layer("", l.formula) + Layer("c", l.connectivity) + Layer("h", l.hydrogen)
    + Layer("b", l.cistrans) + Layer("t", l.tetrahedral) + StereoLayers(l)
  }

  /** Writing one layer into the builder. */
  method AddLayer(result: string, tag: string, body: string) returns (r: string)
    ensures r == result + Layer(tag, body)
  {
    r := result;
    if body != "" {
      r := r + "/" + tag;
      r := r + body;
      assert r == result + ("/" + tag + body) by {
        Text.Assoc(result + "/", tag, body);
        Text.Assoc(result, "/", tag + body);
        Text.Assoc("/", tag, body);
      }
    }
  }

  /** The generator: the version prefix and the options. */
  class InChIGenerator {
    var prefix: string
    var options: InChIOptions

    /** `NewInChIGenerator`: standard InChI, every option off. */
    constructor ()
      ensures prefix == "InChI=1S"
      ensures options == InChIOptions(false, false, false, false)
    {
      prefix := "InChI=1S";
      options := InChIOptions(false, false, false, false);
    }

    method SetPrefix(p: string)
      modifies this`prefix
      ensures prefix == p
    {
      prefix := p;
    }

    method SetOptions(o: InChIOptions)
      modifies this`options
      ensures options == o
    {
      options := o;
    }

    /** `constructInChIString`: the prefix and the layers in their fixed
        order; see `ReadBack` for why the layers can be told apart. */
    method ConstructInChIString(layers: InChILayers) returns (s: string)
      ensures s == InChIText(prefix, layers)
    {
      s := prefix;
      s := AddLayer(s, "", layers.formula);
      s := AddLayer(s, "c", layers.connectivity);
      s := AddLayer(s, "h", layers.hydrogen);
      s := AddLayer(s, "b", layers.cistrans);
      s := AddLayer(s, "t", layers.tetrahedral);
      if layers.hasStereochem {
        ghost var before := s;
        s := s + "/m";
        s := s + layers.enantiomer;
        s := s + "/s";
        s := s + layers.stereoType;
        assert s == before + StereoLayers(layers) by {
          Text.Assoc(before + "/m" + layers.enantiomer, "/s", layers.stereoType);
          Text.Assoc(before + "/m", layers.enantiomer, "/s" + layers.stereoType);
          Text.Assoc(before, "/m", layers.enantiomer + ("/s" + layers.stereoType));
          Text.Assoc("/m", layers.enantiomer, "/s" + layers.stereoType);
          Text.Assoc("/m" + layers.enantiomer, "/s", layers.stereoType);
        }
      }
    }
  }

  // Reading the layers back

  /** The pieces between the slashes after the prefix. */
  function Piece(tag: string, body: string): seq<string>
  {
    if body == "" then [] else [tag + body]
  }

  function LayerPieces(l: InChILayers): seq<string>
  {
    Piece("", l.formula) + Piece("c", l.connectivity) + Piece("h", l.hydrogen) + Piece("b", l.cistrans)
    + Piece("t", l.tetrahedral) + (if l.hasStereochem then ["m" + l.enantiomer, "s" + l.stereoType] else [])
  }

  /** Each piece preceded by a slash. */
  function Slashed(pieces: seq<string>): string
  {
    if pieces == [] then "" else "/" + pieces[0] + Slashed(pieces[1..])
  }

  lemma {:induction false} SlashedAppend(ps: seq<string>, qs: seq<string>)
    ensures Slashed(ps + qs) == Slashed(ps) + Slashed(qs)
    decreases |ps|
  {
    if ps == [] {
      assert ps + qs == qs;
    } else {
      assert (ps + qs)[1..] == ps[1..] + qs;
      SlashedAppend(ps[1..], qs);
      Text.Assoc("/" + ps[0], Slashed(ps[1..]), Slashed(qs));
    }
  }

  lemma SlashedPiece(tag: string, body: string)
    ensures Slashed(Piece(tag, body)) == Layer(tag, body)
  {
    if body != "" {
      assert Slashed(Piece(tag, body)) == "/" + (tag + body) + "";
      Text.Assoc("/", tag, body);
    }
  }

  lemma SlashedStereo(l: InChILayers)
    ensures Slashed(if l.hasStereochem then ["m" + l.enantiomer, "s" + l.stereoType] else []) == StereoLayers(l)
  {
    if l.hasStereochem {
      var m, t := "m" + l.enantiomer, "s" + l.stereoType;
      assert [m, t][1..] == [t];
      assert Slashed([t]) == "/" + t + "";
      assert Slashed([m, t]) == "/" + m + ("/" + t + "");
      Text.Assoc("/", "m", l.enantiomer);
      Text.Assoc("/", "s", l.stereoType);
      Text.Assoc("/" + m, "/", t);
    }
  }

  /** The string is the prefix followed by the pieces, each after a slash. */
  lemma InChITextPieces(prefix: string, l: InChILayers)
    ensures InChIText(prefix, l) == prefix + Slashed(LayerPieces(l))
  {
    var p1, p2, p3 := Piece("", l.formula), Piece("c", l.connectivity), Piece("h", l.hydrogen);
    var p4, p5 := Piece("b", l.cistrans), Piece("t", l.tetrahedral);
    var p6 := if l.hasStereochem then ["m" + l.enantiomer, "s" + l.stereoType] else [];
    SlashedPiece("", l.formula);
    SlashedPiece("c", l.connectivity);
    SlashedPiece("h", l.hydrogen);
    SlashedPiece("b", l.cistrans);
    SlashedPiece("t", l.tetrahedral);
    SlashedStereo(l);
    SlashedAppend(p1 + p2 + p3 + p4 + p5, p6);
    SlashedAppend(p1 + p2 + p3 + p4, p5);
    SlashedAppend(p1 + p2 + p3, p4);
    SlashedAppend(p1 + p2, p3);
    SlashedAppend(p1, p2);
    var a, b, c, d, e, f := Slashed(p1), Slashed(p2), Slashed(p3), Slashed(p4), Slashed(p5), Slashed(p6);
    Text.Assoc(prefix + a + b + c + d, e, f);
    Text.Assoc(prefix + a + b + c, d, e + f);
    Text.Assoc(prefix + a + b, c, d + (e + f));
    Text.Assoc(prefix + a, b, c + (d + (e + f)));
    Text.Assoc(prefix, a, b + (c + (d + (e + f))));
    Text.Assoc(a + b + c + d, e, f);
    Text.Assoc(a + b + c, d, e + f);
    Text.Assoc(a + b, c, d + (e + f));
    Text.Assoc(a, b, c + (d + (e + f)));
  }

  /** Splitting at slashes: the text before the first one, then every
      piece, when no piece holds a slash. */
  lemma {:induction false} SplitSlashed(a: string, pieces: seq<string>)
    requires '/' !in a && forall k :: 0 <= k < |pieces| ==> '/' !in pieces[k]
    ensures Text.Split(a + Slashed(pieces), '/') == [a] + pieces
    decreases |pieces|
  {
    if pieces == [] {
      assert a + Slashed(pieces) == a;
      Text.SplitNoSep(a, '/');
    } else {
      var rest := pieces[0] + Slashed(pieces[1..]);
      assert a + Slashed(pieces) == a + ['/'] + rest by {
        assert Slashed(pieces) == "/" + pieces[0] + Slashed(pieces[1..]);
        Text.Assoc(a, "/" + pieces[0], Slashed(pieces[1..]));
        Text.Assoc("/", pieces[0], Slashed(pieces[1..]));
        Text.Assoc(a, "/", rest);
      }
      Text.SplitCons(a, '/', rest);
      SplitSlashed(pieces[0], pieces[1..]);
      assert [pieces[0]] + pieces[1..] == pieces;
    }
  }

  /** No layer body holds a slash. */
  predicate NoSlash(l: InChILayers)
  {
    '/' !in l.formula && '/' !in l.connectivity && '/' !in l.hydrogen && '/' !in l.cistrans
    && '/' !in l.tetrahedral && '/' !in l.enantiomer && '/' !in l.stereoType
  }

  /** Splitting the string at slashes gives the prefix and then one piece
      per written layer, in the fixed order. */
  lemma SplitInChIText(prefix: string, l: InChILayers)
    requires '/' !in prefix && NoSlash(l)
    ensures Text.Split(InChIText(prefix, l), '/') == [prefix] + LayerPieces(l)
  {
    InChITextPieces(prefix, l);
    PiecesNoSlash(l);
    SplitSlashed(prefix, LayerPieces(l));
  }

  lemma PiecesNoSlash(l: InChILayers)
    requires NoSlash(l)
    ensures forall k :: 0 <= k < |LayerPieces(l)| ==> '/' !in LayerPieces(l)[k]
  {
    var ps := LayerPieces(l);
    forall k | 0 <= k < |ps| ensures '/' !in ps[k] {
      assert ps[k] in ps;
    }
  }

  /** The tag letters of the layers after the formula. */
  predicate IsTag(c: char)
  {
    c == 'c' || c == 'h' || c == 'b' || c == 't' || c == 'm' || c == 's'
  }

  /** Reading one piece into the layers: its first letter names the layer,
      and a piece without a tag is the formula. */
  function ReadPiece(l: InChILayers, piece: string): InChILayers
  {
    if piece == [] then l
    else
      var tag, body := piece[0], piece[1..];
      if tag == 'c' then l.(connectivity := body)
      else if tag == 'h' then l.(hydrogen := body)
      else if tag == 'b' then l.(cistrans := body)
      else if tag == 't' then l.(tetrahedral := body)
      else if tag == 'm' then l.(enantiomer := body, hasStereochem := true)
      else if tag == 's' then l.(stereoType := body)
      else l.(formula := piece)
  }

  function ReadPieces(l: InChILayers, pieces: seq<string>): InChILayers
    decreases |pieces|
  {
    if pieces == [] then l else ReadPieces(ReadPiece(l, pieces[0]), pieces[1..])
  }

  lemma {:induction false} ReadPiecesAppend(l: InChILayers, ps: seq<string>, qs: seq<string>)
    ensures ReadPieces(l, ps + qs) == ReadPieces(ReadPieces(l, ps), qs)
    decreases |ps|
  {
    if ps == [] {
      assert ps + qs == qs;
    } else {
      assert (ps + qs)[1..] == ps[1..] + qs;
      ReadPiecesAppend(ReadPiece(l, ps[0]), ps[1..], qs);
    }
  }

  const NoLayers := InChILayers("", "", "", "", "", "", "", false)

  /** The layers the string describes: every piece after the prefix read
      in turn. */
  function ReadLayers(s: string): InChILayers
  {
    ReadPieces(NoLayers, Text.Split(s, '/')[1..])
  }

  /** Layers as the generator makes them: no slash in any body, a formula
      that does not start with a tag letter, and no enantiomer or stereo
      type without stereochemistry. */
  predicate WellFormedLayers(l: InChILayers)
  {
    NoSlash(l) && (l.formula == "" || !IsTag(l.formula[0]))
    && (!l.hasStereochem ==> l.enantiomer == "" && l.stereoType == "")
  }

  lemma ReadOne(l: InChILayers, tag: string, body: string)
    requires |tag| == 1
    ensures ReadPieces(l, Piece(tag, body)) == if body == "" then l else ReadPiece(l, tag + body)
  {
    if body != "" {
      assert Piece(tag, body)[1..] == [];
    }
  }

  /** Reading the pieces of well-formed layers gives the layers back: the
      fixed order and the tag letters make the string unambiguous. */
  lemma ReadBack(prefix: string, l: InChILayers)
    requires '/' !in prefix && WellFormedLayers(l)
    ensures ReadLayers(InChIText(prefix, l)) == l
  {
    SplitInChIText(prefix, l);
    assert Text.Split(InChIText(prefix, l), '/')[1..] == LayerPieces(l);
    var front := Piece("", l.formula) + Piece("c", l.connectivity) + Piece("h", l.hydrogen)
                 + Piece("b", l.cistrans) + Piece("t", l.tetrahedral);
    var p6 := if l.hasStereochem then ["m" + l.enantiomer, "s" + l.stereoType] else [];
    ReadPiecesAppend(NoLayers, front, p6);
    ReadFront(l);
    ReadStereo(ReadPieces(NoLayers, front), l);
  }

  /** The formula piece is read back into an empty record. */
  lemma ReadFormulaPiece(l: InChILayers)
    requires l.formula == "" || !IsTag(l.formula[0])
    ensures ReadPieces(NoLayers, Piece("", l.formula)) == NoLayers.(formula := l.formula)
  {
    if l.formula != "" {
      assert "" + l.formula == l.formula;
      assert Piece("", l.formula) == [l.formula];
      assert Piece("", l.formula)[1..] == [];
    }
  }

  /** The /c piece is read back into the connectivity. */
  lemma ReadConnectivityPiece(r: InChILayers, body: string)
    requires r.connectivity == ""
    ensures ReadPieces(r, Piece("c", body)) == r.(connectivity := body)
  {
    ReadOne(r, "c", body);
    if body != "" { assert ("c" + body)[1..] == body; }
  }

  /** The /h piece is read back into the hydrogen layer. */
  lemma ReadHydrogenPiece(r: InChILayers, body: string)
    requires r.hydrogen == ""
    ensures ReadPieces(r, Piece("h", body)) == r.(hydrogen := body)
  {
    ReadOne(r, "h", body);
    if body != "" { assert ("h" + body)[1..] == body; }
  }

  /** The /b piece is read back into the cis/trans layer. */
  lemma ReadCisTransPiece(r: InChILayers, body: string)
    requires r.cistrans == ""
    ensures ReadPieces(r, Piece("b", body)) == r.(cistrans := body)
  {
    ReadOne(r, "b", body);
    if body != "" { assert ("b" + body)[1..] == body; }
  }

  /** The /t piece is read back into the tetrahedral layer. */
  lemma ReadTetrahedralPiece(r: InChILayers, body: string)
    requires r.tetrahedral == ""
    ensures ReadPieces(r, Piece("t", body)) == r.(tetrahedral := body)
  {
    ReadOne(r, "t", body);
    if body != "" { assert ("t" + body)[1..] == body; }
  }

  /** The layers before /m are read back one by one. */
  lemma ReadFront(l: InChILayers)
    requires l.formula == "" || !IsTag(l.formula[0])
    ensures ReadPieces(NoLayers, Piece("", l.formula) + Piece("c", l.connectivity) + Piece("h", l.hydrogen)
                                 + Piece("b", l.cistrans) + Piece("t", l.tetrahedral))
         == NoLayers.(formula := l.formula, connectivity := l.connectivity, hydrogen := l.hydrogen,
                      cistrans := l.cistrans, tetrahedral := l.tetrahedral)
  {
    var p1, p2, p3 := Piece("", l.formula), Piece("c", l.connectivity), Piece("h", l.hydrogen);
    var p4, p5 := Piece("b", l.cistrans), Piece("t", l.tetrahedral);
    ReadPiecesAppend(NoLayers, p1 + p2 + p3 + p4, p5);
    ReadPiecesAppend(NoLayers, p1 + p2 + p3, p4);
    ReadPiecesAppend(NoLayers, p1 + p2, p3);
    ReadPiecesAppend(NoLayers, p1, p2);
    ReadFormulaPiece(l);
    var r1 := NoLayers.(formula := l.formula);
    ReadConnectivityPiece(r1, l.connectivity);
    var r2 := r1.(connectivity := l.connectivity);
    ReadHydrogenPiece(r2, l.hydrogen);
    var r3 := r2.(hydrogen := l.hydrogen);
    ReadCisTransPiece(r3, l.cistrans);
    var r4 := r3.(cistrans := l.cistrans);
    ReadTetrahedralPiece(r4, l.tetrahedral);
  }

  lemma ReadStereo(r: InChILayers, l: InChILayers)
    requires r == NoLayers.(formula := l.formula, connectivity := l.connectivity, hydrogen := l.hydrogen,
                            cistrans := l.cistrans, tetrahedral := l.tetrahedral)
    requires !l.hasStereochem ==> l.enantiomer == "" && l.stereoType == ""
    ensures ReadPieces(r, if l.hasStereochem then ["m" + l.enantiomer, "s" + l.stereoType] else []) == l
  {
    if l.hasStereochem {
      var m, t := "m" + l.enantiomer, "s" + l.stereoType;
      assert m[0] == 'm' && m[1..] == l.enantiomer;
      assert t[0] == 's' && t[1..] == l.stereoType;
      var none: seq<string> := [];
      assert [m, t][1..] == [t];
      assert [t][1..] == none;
      var rm := ReadPiece(r, m);
      assert rm == r.(enantiomer := l.enantiomer, hasStereochem := true);
      assert ReadPieces(r, [m, t]) == ReadPieces(rm, [t]);
      assert ReadPieces(rm, [t]) == ReadPiece(rm, t);
    }
  }

}
