// The naive aromatiser of src/molecule/aromatizer.go: canonical cycle keys
// (rotation to the minimum, reversal, lexicographic choice), de-duplication
// of cycles, the alternating single/double test, and the two bond-order
// rewrites.

module Aromatizer {
  import opened Wrappers
  import opened Text
  import opened MoleculeGraph

  // ---------------------------------------------------------------------
  // Rotations

  /** `s` read from position `k` onwards, wrapping around: the sequence
      `res[i] = s[(k+i)%n]` of `rotateToMinFirst`. */
  function Rotation(s: seq<int>, k: nat): (r: seq<int>)
    requires k < |s|
    ensures |r| == |s|
  {
    s[k..] + s[..k]
  }

  /** Position `i` of a rotation, without modular arithmetic. */
  lemma RotationAt(s: seq<int>, k: nat, i: nat)
    requires k < |s| && i < |s|
    ensures Rotation(s, k)[i] == if k + i < |s| then s[k + i] else s[k + i - |s|]
  {
  }

  /** A rotation has the same elements. */
  lemma RotationPermutes(s: seq<int>, k: nat)
    requires k < |s|
    ensures multiset(Rotation(s, k)) == multiset(s)
  {
    assert s == s[..k] + s[k..];
  }

  /** The first position holding the least element (the scan of
      `rotateToMinFirst`, which moves only on a strictly smaller one). */
  function FirstMinIndex(s: seq<int>): (m: nat)
    requires s != []
    ensures m < |s|
    ensures forall j :: 0 <= j < |s| ==> s[m] <= s[j]
    ensures forall j :: 0 <= j < m ==> s[j] > s[m]
  {
    if |s| == 1 then 0
    else
      var m := FirstMinIndex(s[..|s| - 1]);
      assert forall j :: 0 <= j < |s| - 1 ==> s[..|s| - 1][j] == s[j];
      if s[|s| - 1] < s[m] then |s| - 1 else m
  }

  /** What `rotateToMinFirst` returns: the empty sequence unchanged, any
      other rotated so that its first least element comes first. */
  function MinFirst(s: seq<int>): (r: seq<int>)
    ensures |r| == |s|
  {
    if s == [] then s else Rotation(s, FirstMinIndex(s))
  }

  /** `rotateToMinFirst` returns a rotation of its input, with the same
      elements, whose head is the least of them. */
  lemma MinFirstIsRotation(s: seq<int>)
    requires s != []
    ensures exists k :: 0 <= k < |s| && MinFirst(s) == Rotation(s, k)
    ensures multiset(MinFirst(s)) == multiset(s)
    ensures forall j :: 0 <= j < |s| ==> MinFirst(s)[0] <= s[j]
  {
    var m := FirstMinIndex(s);
    RotationPermutes(s, m);
    RotationAt(s, m, 0);
  }

  /** No element occurs twice: the vertices of a simple cycle. */
  predicate Distinct(s: seq<int>)
  {
    forall i, j :: 0 <= i < j < |s| ==> s[i] != s[j]
  }

  /** A rotation of a sequence without repeats has none either. */
  lemma RotationDistinct(s: seq<int>, k: nat)
    requires k < |s| && Distinct(s)
    ensures Distinct(Rotation(s, k))
  {
    var r := Rotation(s, k);
    forall i, j | 0 <= i < j < |r|
      ensures r[i] != r[j]
    {
      RotationAt(s, k, i);
      RotationAt(s, k, j);
    }
  }

  /** Rotating by `k` and then by `j` is rotating by `k + j` (wrapped). */
  lemma RotationCompose(s: seq<int>, k: nat, j: nat)
    requires k < |s| && j < |s|
    ensures var t := if k + j < |s| then k + j else k + j - |s|;
            Rotation(Rotation(s, k), j) == Rotation(s, t)
  {
    var n := |s|;
    var t := if k + j < n then k + j else k + j - n;
    var a, b := Rotation(Rotation(s, k), j), Rotation(s, t);
    forall i | 0 <= i < n
      ensures a[i] == b[i]
    {
      RotationAt(Rotation(s, k), j, i);
      RotationAt(s, t, i);
      var p := if j + i < n then j + i else j + i - n;
      RotationAt(s, k, p);
    }
  }

  /** For a sequence without repeats the result of `rotateToMinFirst` does
      not depend on where the sequence starts. */
  lemma MinFirstRotation(s: seq<int>, k: nat)
    requires k < |s| && Distinct(s)
    ensures MinFirst(Rotation(s, k)) == MinFirst(s)
  {
    var m := FirstMinIndex(s);
    var j := if k <= m then m - k else m + |s| - k;
    assert (if k + j < |s| then k + j else k + j - |s|) == m;
    RotationMinAt(s, k);
    RotationCompose(s, k, j);
    assert MinFirst(s) == Rotation(s, m);
    assert MinFirst(Rotation(s, k)) == Rotation(Rotation(s, k), j);
  }

  /** In a rotation of a sequence without repeats, the least element sits
      where the rotation moved it to. */
  lemma RotationMinAt(s: seq<int>, k: nat)
    requires k < |s| && Distinct(s)
    ensures var m := FirstMinIndex(s);
            FirstMinIndex(Rotation(s, k)) == if k <= m then m - k else m + |s| - k
  {
    var n := |s|;
    var m := FirstMinIndex(s);
    var r := Rotation(s, k);
    var j := if k <= m then m - k else m + n - k;
    RotationAt(s, k, j);
    forall i | 0 <= i < n && i != j
      ensures r[i] > r[j]
    {
      RotationAt(s, k, i);
      var p := if k + i < n then k + i else k + i - n;
      assert p != m;
      assert s[p] != s[m];
    }
    MinUnique(r, j);
  }

  /** A position whose element is below every other one is the first
      least position. */
  lemma MinUnique(r: seq<int>, j: nat)
    requires j < |r| && forall i :: 0 <= i < |r| && i != j ==> r[i] > r[j]
    ensures FirstMinIndex(r) == j
  {
  }

  // ---------------------------------------------------------------------
  // Reversal

  /** The cycle walked the other way: `rev[i] = cycle[n-1-i]`. */
  function Reverse<T>(s: seq<T>): (r: seq<T>)
    ensures |r| == |s|
    ensures forall i :: 0 <= i < |s| ==> r[i] == s[|s| - 1 - i]
  {
    seq(|s|, i requires 0 <= i < |s| => s[|s| - 1 - i])
  }

  lemma ReverseReverse<T>(s: seq<T>)
    ensures Reverse(Reverse(s)) == s
  {
  }

  lemma ReverseDistinct(s: seq<int>)
    requires Distinct(s)
    ensures Distinct(Reverse(s))
  {
    var r := Reverse(s);
    forall i, j | 0 <= i < j < |r|
      ensures r[i] != r[j]
    {
      assert r[i] == s[|s| - 1 - i] && r[j] == s[|s| - 1 - j];
    }
  }

  /** Reversing a rotation gives a rotation of the reversal. */
  lemma ReverseRotation(s: seq<int>, k: nat)
    requires k < |s|
    ensures var k2 := if k == 0 then 0 else |s| - k;
            Reverse(Rotation(s, k)) == Rotation(Reverse(s), k2)
  {
    var n := |s|;
    var k2 := if k == 0 then 0 else n - k;
    var a, b := Reverse(Rotation(s, k)), Rotation(Reverse(s), k2);
    forall i | 0 <= i < n
      ensures a[i] == b[i]
    {
      RotationAt(s, k, n - 1 - i);
      RotationAt(Reverse(s), k2, i);
    }
  }

  // ---------------------------------------------------------------------
  // Lexicographic order

  /** `lessSeq`: lexicographic order on the common length, a proper prefix
      coming first. */
  predicate SeqLess(a: seq<int>, b: seq<int>)
  {
    if a == [] || b == [] then |a| < |b|
    else if a[0] != b[0] then a[0] < b[0]
    else SeqLess(a[1..], b[1..])
  }

  lemma {:induction false} SeqLessIrreflexive(a: seq<int>)
    ensures !SeqLess(a, a)
  {
    if a != [] {
      SeqLessIrreflexive(a[1..]);
    }
  }

  lemma {:induction false} SeqLessAsymmetric(a: seq<int>, b: seq<int>)
    ensures !(SeqLess(a, b) && SeqLess(b, a))
  {
    if a != [] && b != [] && a[0] == b[0] {
      SeqLessAsymmetric(a[1..], b[1..]);
    }
  }

  lemma {:induction false} SeqLessTransitive(a: seq<int>, b: seq<int>, c: seq<int>)
    requires SeqLess(a, b) && SeqLess(b, c)
    ensures SeqLess(a, c)
  {
    if a != [] && b != [] && c != [] && a[0] == b[0] && b[0] == c[0] {
      SeqLessTransitive(a[1..], b[1..], c[1..]);
    }
  }

  /** Two different sequences are always ordered one way or the other. */
  lemma {:induction false} SeqLessTotal(a: seq<int>, b: seq<int>)
    requires a != b
    ensures SeqLess(a, b) || SeqLess(b, a)
  {
    if a != [] && b != [] && a[0] == b[0] {
      assert a == [a[0]] + a[1..] && b == [b[0]] + b[1..];
      SeqLessTotal(a[1..], b[1..]);
    }
  }

  /** A proper prefix is less. */
  lemma {:induction false} PrefixLess(a: seq<int>, b: seq<int>)
    requires |a| < |b| && a == b[..|a|]
    ensures SeqLess(a, b)
  {
    if a != [] {
      assert a[1..] == b[1..][..|a| - 1];
      PrefixLess(a[1..], b[1..]);
    }
  }

  /** `lessSeq`: compares position by position up to the shorter length,
      then by length. */
  method LessSeq(a: seq<int>, b: seq<int>) returns (less: bool)
    ensures less == SeqLess(a, b)
  {
    var n := if |b| < |a| then |b| else |a|;
    var i := 0;
    while i < n
      invariant 0 <= i <= n
      invariant SeqLess(a, b) == SeqLess(a[i..], b[i..])
    {
      assert a[i..][1..] == a[i + 1..] && b[i..][1..] == b[i + 1..];
      if a[i] < b[i] {
        return true;
      }
      if a[i] > b[i] {
        return false;
      }
      i := i + 1;
    }
    less := |a| < |b|;
  }

  /** `rotateToMinFirst`: find the first least element, then copy the
      sequence starting there. */
  method RotateToMinFirst(s: seq<int>) returns (r: seq<int>)
    ensures r == MinFirst(s)
  {
    var n := |s|;
    if n == 0 {
      return s;
    }
    var minIdx := MinIndex(s);
    ghost var rot := Rotation(s, minIdx);
    r := [];
    var i := 0;
    while i < n
      invariant 0 <= i <= n && r == rot[..i]
    {
      ModWrap(minIdx + i, n);
      RotationAt(s, minIdx, i);
      r := r + [s[(minIdx + i) % n]];
      i := i + 1;
    }
    assert rot[..n] == rot;
  }

  /** The scan for the first least element. */
  method MinIndex(s: seq<int>) returns (minIdx: nat)
    requires s != []
    ensures minIdx == FirstMinIndex(s)
  {
    minIdx := 0;
    var i := 1;
    while i < |s|
      invariant 1 <= i <= |s|
      invariant minIdx == FirstMinIndex(s[..i])
    {
      PrefixStep(s, i);
      if s[i] < s[minIdx] {
        minIdx := i;
      }
      i := i + 1;
    }
    assert s[..|s|] == s;
  }

  /** An index that has run at most once past the end wraps by one
      subtraction. */
  lemma ModWrap(x: int, n: int)
    requires 0 <= x < 2 * n
    ensures x % n == if x < n then x else x - n
  {
  }

  // ---------------------------------------------------------------------
  // Cycle keys

  /** The sequence `normalizeCycleKey` writes out: the forward and the
      reversed cycle, each rotated to its least vertex, and of those two
      the reversed one only when it is strictly less. */
  function Canonical(c: seq<int>): (r: seq<int>)
    ensures |r| == |c|
  {
    var f, b := MinFirst(c), MinFirst(Reverse(c));
    if SeqLess(b, f) then b else f
  }

  /** Walking a cycle of distinct vertices from another start, or the other
      way round, gives the same canonical sequence. */
  lemma CanonicalInvariant(c: seq<int>, k: nat)
    requires Distinct(c) && k < |c|
    ensures Canonical(Rotation(c, k)) == Canonical(c)
    ensures Canonical(Reverse(c)) == Canonical(c)
  {
    var f, b := MinFirst(c), MinFirst(Reverse(c));
    MinFirstRotation(c, k);
    ReverseRotation(c, k);
    ReverseDistinct(c);
    MinFirstRotation(Reverse(c), if k == 0 then 0 else |c| - k);
    ReverseReverse(c);
    if f != b {
      SeqLessTotal(f, b);
      SeqLessAsymmetric(f, b);
    }
  }

  /** The canonical sequence is the cycle itself or its reversal, read from
      some start. */
  lemma CanonicalIsRotation(c: seq<int>)
    requires c != []
    ensures exists k :: 0 <= k < |c| && (Canonical(c) == Rotation(c, k) || Canonical(c) == Rotation(Reverse(c), k))
  {
    MinFirstIsRotation(c);
    MinFirstIsRotation(Reverse(c));
  }

  /** The decimal forms of the entries. */
  function DecimalList(a: seq<int>): (ds: seq<string>)
    ensures |ds| == |a|
  {
    seq(|a|, i requires 0 <= i < |a| => IntToString(a[i]))
  }

  /** `seqKey`: the entries in decimal, separated by commas. */
  function SeqKeyOf(a: seq<int>): string
  {
    Join(DecimalList(a), ",")
  }

  /** The key `normalizeCycleKey` gives a cycle. */
  function CycleKey(c: seq<int>): string
  {
    SeqKeyOf(Canonical(c))
  }

  /** Every rotation and the reversal of a cycle of distinct vertices get
      the same key. */
  lemma CycleKeyInvariant(c: seq<int>, k: nat)
    requires Distinct(c) && k < |c|
    ensures CycleKey(Rotation(c, k)) == CycleKey(c)
    ensures CycleKey(Reverse(c)) == CycleKey(c)
  {
    CanonicalInvariant(c, k);
  }

  /** `fmtInt` negates with Go's 64-bit `v = -v`: the least value is its
      own negation. */
  function Negate64(v: int): int
  {
    if v == Int64Min then v else -v
  }

  /** The digit loop of `fmtInt`: the digits of `v`, least significant
      first; none when `v` is not positive. */
  method ReversedDigits(v: int) returns (buf: string)
    ensures v <= 0 ==> buf == []
    ensures v > 0 ==> Reverse(buf) == NatToString(v)
  {
    buf := [];
    var w := if v > 0 then v else 0;
    while w > 0
      invariant w >= 0
      invariant v > 0 ==> NatToString(v) == (if w > 0 then NatToString(w) else []) + Reverse(buf)
      invariant v <= 0 ==> buf == []
      decreases w
    {
      LastDigit(w);
      ReverseSnoc(buf, DigitChar(w % 10));
      Assoc((if w / 10 > 0 then NatToString(w / 10) else []), [DigitChar(w % 10)], Reverse(buf));
      buf := buf + [DigitChar(w % 10)];
      w := w / 10;
    }
  }

  /** The decimal form of a positive number ends in its last digit. */
  lemma LastDigit(w: nat)
    requires w > 0
    ensures NatToString(w) == (if w / 10 > 0 then NatToString(w / 10) else []) + [DigitChar(w % 10)]
  {
  }

  lemma ReverseSnoc<T>(s: seq<T>, x: T)
    ensures Reverse(s + [x]) == [x] + Reverse(s)
  {
  }

  /** The final loop of `fmtInt`: swap from both ends towards the middle. */
  method ReverseInPlace(a: array<char>)
    modifies a
    ensures a[..] == Reverse(old(a[..]))
  {
    var i, j := 0, a.Length - 1;
    while i < j
      invariant 0 <= i <= a.Length && j == a.Length - 1 - i && i <= j + 1
      invariant forall k :: 0 <= k < i ==> a[k] == old(a[a.Length - 1 - k]) && a[a.Length - 1 - k] == old(a[k])
      invariant forall k :: i <= k <= j ==> a[k] == old(a[k])
    {
      a[i], a[j] := a[j], a[i];
      i, j := i + 1, j - 1;
    }
  }

  /** `fmtInt` as written, on Go's 64-bit `int`: the decimal form of every
      value except the least one, for which `-v` overflows back to a
      negative number, the digit loop never runs and only the sign is
      written. */
  method FmtIntAsWritten(v: int) returns (s: string)
    requires Int64Min <= v <= Int64Max
    ensures v != Int64Min ==> s == IntToString(v)
    ensures v == Int64Min ==> s == "-"
  {
    if v == 0 {
      return "0";
    }
    var neg := v < 0;
    var buf := ReversedDigits(if neg then Negate64(v) else v);
    if neg {
      buf := buf + ['-'];
      ReverseSnoc(buf[..|buf| - 1], '-');
    }
    s := Reversal(buf);
  }

  /** `fmtInt` with the magnitude taken without overflow: the decimal
      form, with a minus sign for negative values. */
  method FmtInt(v: int) returns (s: string)
    ensures s == IntToString(v)
  {
    if v == 0 {
      return "0";
    }
    var neg := v < 0;
    var buf := ReversedDigits(if neg then -v else v);
    if neg {
      buf := buf + ['-'];
      ReverseSnoc(buf[..|buf| - 1], '-');
    }
    s := Reversal(buf);
  }

  /** The byte buffer reversed in place and turned into a string. */
  method Reversal(buf: string) returns (s: string)
    ensures s == Reverse(buf)
  {
    var a := new char[|buf|](k requires 0 <= k < |buf| => buf[k]);
    ReverseInPlace(a);
    s := a[..];
  }

  lemma DecimalListSnoc(a: seq<int>, i: nat)
    requires i < |a|
    ensures DecimalList(a[..i + 1]) == DecimalList(a[..i]) + [IntToString(a[i])]
  {
  }

  /** `seqKey`: the entries in decimal, comma-separated. */
  method SeqKey(a: seq<int>) returns (key: string)
    ensures key == SeqKeyOf(a)
  {
    if |a| == 0 {
      return "";
    }
    key := "";
    var i := 0;
    while i < |a|
      invariant 0 <= i <= |a|
      invariant key == Join(DecimalList(a[..i]), ",")
    {
      DecimalListSnoc(a, i);
      JoinSnoc(DecimalList(a[..i]), IntToString(a[i]), ",");
      if i > 0 {
        key := key + ",";
      }
      var d := FmtInt(a[i]);
      key := key + d;
      i := i + 1;
    }
    assert a[..|a|] == a;
  }

  /** `normalizeCycleKey`: the key of the canonical sequence, "" for an
      empty cycle. */
  method NormalizeCycleKey(cycle: seq<int>) returns (key: string)
    ensures key == CycleKey(cycle)
  {
    var n := |cycle|;
    if n == 0 {
      return "";
    }
    var rev: seq<int> := [];
    var i := 0;
    while i < n
      invariant 0 <= i <= n && |rev| == i
      invariant forall p :: 0 <= p < i ==> rev[p] == cycle[n - 1 - p]
    {
      rev := rev + [cycle[n - 1 - i]];
      i := i + 1;
    }
    assert rev == Reverse(cycle);
    var fwd := RotateToMinFirst(cycle);
    rev := RotateToMinFirst(rev);
    var less := LessSeq(rev, fwd);
    if less {
      key := SeqKey(rev);
    } else {
      key := SeqKey(fwd);
    }
  }

  // ---------------------------------------------------------------------
  // De-duplication

  /** The keys of a list of cycles under `key`. */
  function KeysOf(cs: seq<seq<int>>, key: seq<int> -> string): (ks: set<string>)
    ensures forall i :: 0 <= i < |cs| ==> key(cs[i]) in ks
  {
    if cs == [] then {}
    else
      var init := cs[..|cs| - 1];
      assert forall i :: 0 <= i < |init| ==> init[i] == cs[i];
      KeysOf(init, key) + {key(cs[|cs| - 1])}
  }

  lemma KeysOfSnoc(cs: seq<seq<int>>, c: seq<int>, key: seq<int> -> string)
    ensures KeysOf(cs + [c], key) == KeysOf(cs, key) + {key(c)}
  {
    assert (cs + [c])[..|cs|] == cs;
  }

  /** The members of a non-empty sequence: those before the last, and the
      last. */
  lemma SplitLast<T>(s: seq<T>)
    requires s != []
    ensures forall x :: x in s <==> x in s[..|s| - 1] || x == s[|s| - 1]
  {
    assert s == s[..|s| - 1] + [s[|s| - 1]];
  }

  /** One step longer prefix. */
  lemma PrefixStep<T>(s: seq<T>, i: nat)
    requires i < |s|
    ensures s[..i + 1][..i] == s[..i] && s[..i + 1][i] == s[i]
  {
  }

  /** What `dedupCycles` keeps when cycles are keyed by `key`: each
      non-empty cycle whose key no earlier kept cycle has, in input order.
      The result holds only non-empty input cycles, no two with the same
      key, and a cycle for every key of a non-empty input cycle. */
  function Dedup(cs: seq<seq<int>>, key: seq<int> -> string): (r: seq<seq<int>>)
    ensures forall c :: c in r ==> c in cs && c != []
    ensures forall i, j :: 0 <= i < j < |r| ==> key(r[i]) != key(r[j])
    ensures forall c :: c in cs && c != [] ==> key(c) in KeysOf(r, key)
  {
    if cs == [] then []
    else
      var init := cs[..|cs| - 1];
      var r := Dedup(init, key);
      var c := cs[|cs| - 1];
      SplitLast(cs);
      if c == [] || key(c) in KeysOf(r, key) then r
      else
        KeysOfSnoc(r, c, key);
        DedupStep(r, c, key);
        r + [c]
  }

  /** Appending a cycle whose key is new keeps the keys distinct. */
  lemma DedupStep(r: seq<seq<int>>, c: seq<int>, key: seq<int> -> string)
    requires forall i, j :: 0 <= i < j < |r| ==> key(r[i]) != key(r[j])
    requires key(c) !in KeysOf(r, key)
    ensures forall i, j :: 0 <= i < j < |r + [c]| ==> key((r + [c])[i]) != key((r + [c])[j])
  {
  }

  /** `dedupCycles`: one pass with a set of the keys seen so far. */
  method DedupCycles(cycles: seq<seq<int>>) returns (res: seq<seq<int>>)
    ensures res == Dedup(cycles, CycleKey)
  {
    var seen: set<string> := {};
    res := [];
    var i := 0;
    while i < |cycles|
      invariant 0 <= i <= |cycles|
      invariant res == Dedup(cycles[..i], CycleKey) && seen == KeysOf(res, CycleKey)
    {
      var c := cycles[i];
      PrefixStep(cycles, i);
      if |c| > 0 {
        var key := NormalizeCycleKey(c);
        if key !in seen {
          KeysOfSnoc(res, c, CycleKey);
          seen := seen + {key};
          res := res + [c];
        }
      }
      i := i + 1;
    }
    assert cycles[..|cycles|] == cycles;
  }

  /** No cycle `dedupCycles` keeps is a rotation or the reversal of an
      earlier kept cycle of distinct vertices. */
  lemma DedupDropsRotations(cs: seq<seq<int>>, i: nat, j: nat, k: nat)
    requires var r := Dedup(cs, CycleKey); i < j < |r| && Distinct(r[i]) && k < |r[i]|
    ensures var r := Dedup(cs, CycleKey); r[j] != Rotation(r[i], k) && r[j] != Reverse(r[i])
  {
    CycleKeyInvariant(Dedup(cs, CycleKey)[i], k);
  }

  // ---------------------------------------------------------------------
  // Cycle edges

  /** The first bond in an edge list that joins `u` and `v`: the inner loop
      of `cycleEdges` and the loop of `areNeighbors`. */
  function FirstEdge(bonds: seq<Bond>, edges: seq<int>, u: int, v: int): (r: Option<int>)
    requires forall k :: 0 <= k < |edges| ==> 0 <= edges[k] < |bonds|
    ensures r.Some? ==> r.value in edges && 0 <= r.value < |bonds| && Joins(bonds[r.value], u, v)
    ensures r.None? ==> forall k :: 0 <= k < |edges| ==> !Joins(bonds[edges[k]], u, v)
  {
    if edges == [] then None
    else if Joins(bonds[edges[0]], u, v) then Some(edges[0])
    else
      var r := FirstEdge(bonds, edges[1..], u, v);
      assert forall k :: 1 <= k < |edges| ==> edges[k] == edges[1..][k - 1];
      r
  }

  /** In a well-formed molecule, the search through `u`'s edge list finds a
      bond exactly when some bond joins `u` and `v`. */
  lemma FirstEdgeFinds(atoms: seq<Atom>, bonds: seq<Bond>, vertices: seq<seq<int>>, u: int, v: int)
    requires WellFormed(atoms, bonds, vertices) && 0 <= u < |atoms|
    ensures FirstEdge(bonds, vertices[u], u, v).Some? <==> Connected(bonds, u, v)
  {
    if Connected(bonds, u, v) {
      var i :| 0 <= i < |bonds| && Joins(bonds[i], u, v);
      EdgeListExact(atoms, bonds, vertices, u, i);
      var k :| 0 <= k < |vertices[u]| && vertices[u][k] == i;
    }
  }

  /** The search loop over `u`'s edge list. */
  method EdgeBetween(m: Molecule, u: int, v: int) returns (r: Option<int>)
    requires m.Valid() && 0 <= u < |m.atoms|
    ensures r == FirstEdge(m.bonds, m.vertices[u], u, v)
  {
    var edges := m.vertices[u];
    var k := 0;
    while k < |edges|
      invariant 0 <= k <= |edges|
      invariant FirstEdge(m.bonds, edges, u, v) == FirstEdge(m.bonds, edges[k..], u, v)
    {
      var e := m.bonds[edges[k]];
      assert edges[k..][1..] == edges[k + 1..];
      if (e.beg == u && e.end == v) || (e.beg == v && e.end == u) {
        return Some(edges[k]);
      }
      k := k + 1;
    }
    return None;
  }

  /** `areNeighbors`: some bond joins `u` and `v`. */
  method AreNeighbors(m: Molecule, u: int, v: int) returns (b: bool)
    requires m.Valid() && 0 <= u < |m.atoms|
    ensures b <==> Connected(m.bonds, u, v)
  {
    var r := EdgeBetween(m, u, v);
    FirstEdgeFinds(m.atoms, m.bonds, m.vertices, u, v);
    b := r.Some?;
  }

  /** Every vertex of the cycle is an atom. */
  predicate CycleInRange(atoms: seq<Atom>, cycle: seq<int>)
  {
    forall k :: 0 <= k < |cycle| ==> 0 <= cycle[k] < |atoms|
  }

  /** The vertex after position `i` of a cycle, wrapping to the start. */
  function Next(cycle: seq<int>, i: nat): int
    requires i < |cycle|
  {
    if i + 1 < |cycle| then cycle[i + 1] else cycle[0]
  }

  /** What `cycleEdges` collects for the first `k` steps of the cycle: for
      each step the first bond found in the edge list of its start, and
      nothing for a step with no bond. */
  function CycleEdgesOf(bonds: seq<Bond>, vertices: seq<seq<int>>, cycle: seq<int>, k: nat): (es: seq<int>)
    requires k <= |cycle| && EdgesInRange(vertices, bonds)
    requires forall j :: 0 <= j < |cycle| ==> 0 <= cycle[j] < |vertices|
    ensures |es| <= k
    ensures forall j :: 0 <= j < |es| ==> 0 <= es[j] < |bonds|
  {
    if k == 0 then []
    else
      var rest := CycleEdgesOf(bonds, vertices, cycle, k - 1);
      var u := cycle[k - 1];
      match FirstEdge(bonds, vertices[u], u, Next(cycle, k - 1))
      case Some(e) => rest + [e]
      case None => rest
  }

  /** A step of the cycle has a bond exactly when its two vertices are
      joined, so all `k` steps have one exactly when all are joined. */
  lemma {:induction false} CycleEdgesComplete(atoms: seq<Atom>, bonds: seq<Bond>, vertices: seq<seq<int>>,
                                              cycle: seq<int>, k: nat)
    requires WellFormed(atoms, bonds, vertices) && CycleInRange(atoms, cycle) && k <= |cycle|
    ensures |CycleEdgesOf(bonds, vertices, cycle, k)| == k <==>
            forall i :: 0 <= i < k ==> Connected(bonds, cycle[i], Next(cycle, i))
  {
    if k > 0 {
      CycleEdgesComplete(atoms, bonds, vertices, cycle, k - 1);
      FirstEdgeFinds(atoms, bonds, vertices, cycle[k - 1], Next(cycle, k - 1));
    }
  }

  /** When every one of the first `k` steps has a bond, the `i`th edge
      joins the two vertices of the `i`th step. */
  lemma {:induction false} CycleEdgesJoin(bonds: seq<Bond>, vertices: seq<seq<int>>, cycle: seq<int>, k: nat)
    requires k <= |cycle| && EdgesInRange(vertices, bonds)
    requires forall j :: 0 <= j < |cycle| ==> 0 <= cycle[j] < |vertices|
    requires |CycleEdgesOf(bonds, vertices, cycle, k)| == k
    ensures forall i :: 0 <= i < k ==> Joins(bonds[CycleEdgesOf(bonds, vertices, cycle, k)[i]], cycle[i], Next(cycle, i))
  {
    if k > 0 {
      CycleEdgesJoin(bonds, vertices, cycle, k - 1);
    }
  }

  /** `cycleEdges`: one pass over the steps of the cycle. */
  method CycleEdges(m: Molecule, cycle: seq<int>) returns (res: seq<int>)
    requires m.Valid() && CycleInRange(m.atoms, cycle)
    ensures res == CycleEdgesOf(m.bonds, m.vertices, cycle, |cycle|)
  {
    res := [];
    var i := 0;
    while i < |cycle|
      invariant 0 <= i <= |cycle|
      invariant res == CycleEdgesOf(m.bonds, m.vertices, cycle, i)
    {
      var u := cycle[i];
      var v := cycle[(i + 1) % |cycle|];
      ModWrap(i + 1, |cycle|);
      assert v == Next(cycle, i);
      var r := EdgeBetween(m, u, v);
      if r.Some? {
        res := res + [r.value];
      }
      i := i + 1;
    }
  }

  // ---------------------------------------------------------------------
  // The alternation test

  /** The first `n` edges have order `even` at even positions and `odd` at
      odd ones. */
  predicate AlternatesUpTo(bonds: seq<Bond>, edges: seq<int>, n: nat, even: int, odd: int)
    requires n <= |edges|
  {
    forall i :: 0 <= i < n ==> BondOrderOf(bonds, edges[i]) == if i % 2 == 0 then even else odd
  }

  /** Every vertex is a neutral carbon. */
  predicate NeutralCarbons(atoms: seq<Atom>, cycle: seq<int>)
    requires CycleInRange(atoms, cycle)
  {
    forall k :: 0 <= k < |cycle| ==> atoms[cycle[k]].number == Elements.ElemC && atoms[cycle[k]].charge == 0
  }

  /** `isAlternatingSingleDouble`: a bond for every step, the orders going
      single-double or double-single all the way round, and only neutral
      carbons. */
  predicate AlternatingCycle(atoms: seq<Atom>, bonds: seq<Bond>, vertices: seq<seq<int>>, cycle: seq<int>)
    requires WellFormed(atoms, bonds, vertices) && CycleInRange(atoms, cycle)
  {
    var es := CycleEdgesOf(bonds, vertices, cycle, |cycle|);
    |es| == |cycle| &&
    (AlternatesUpTo(bonds, es, |es|, BondSingle, BondDouble) || AlternatesUpTo(bonds, es, |es|, BondDouble, BondSingle)) &&
    NeutralCarbons(atoms, cycle)
  }

  /** An alternating cycle is closed by bonds, each of order single or
      double. */
  lemma AlternatingCycleBonds(atoms: seq<Atom>, bonds: seq<Bond>, vertices: seq<seq<int>>, cycle: seq<int>)
    requires WellFormed(atoms, bonds, vertices) && CycleInRange(atoms, cycle)
    requires AlternatingCycle(atoms, bonds, vertices, cycle)
    ensures forall i :: 0 <= i < |cycle| ==> Connected(bonds, cycle[i], Next(cycle, i))
    ensures var es := CycleEdgesOf(bonds, vertices, cycle, |cycle|);
            forall i :: 0 <= i < |es| ==> Joins(bonds[es[i]], cycle[i], Next(cycle, i)) &&
                                          (bonds[es[i]].order == BondSingle || bonds[es[i]].order == BondDouble)
  {
    CycleEdgesComplete(atoms, bonds, vertices, cycle, |cycle|);
    CycleEdgesJoin(bonds, vertices, cycle, |cycle|);
  }

  /** `isAlternatingSingleDouble`: the order scan, with an early exit once
      both patterns have failed, then the atom scan. */
  method IsAlternatingSingleDouble(m: Molecule, cycle: seq<int>) returns (ok: bool)
    requires m.Valid() && CycleInRange(m.atoms, cycle)
    ensures ok == AlternatingCycle(m.atoms, m.bonds, m.vertices, cycle)
  {
    var edges := CycleEdges(m, cycle);
    if |edges| != |cycle| {
      return false;
    }
    var ok1, ok2 := true, true;
    var i := 0;
    while i < |edges|
      invariant 0 <= i <= |edges|
      invariant ok1 == AlternatesUpTo(m.bonds, edges, i, BondSingle, BondDouble)
      invariant ok2 == AlternatesUpTo(m.bonds, edges, i, BondDouble, BondSingle)
      invariant ok1 || ok2
    {
      var order := BondOrderOf(m.bonds, edges[i]);
      if i % 2 == 0 {
        if order != BondSingle {
          ok1 := false;
        }
        if order != BondDouble {
          ok2 := false;
        }
      } else {
        if order != BondDouble {
          ok1 := false;
        }
        if order != BondSingle {
          ok2 := false;
        }
      }
      if !ok1 && !ok2 {
        assert !AlternatesUpTo(m.bonds, edges, |edges|, BondSingle, BondDouble);
        assert !AlternatesUpTo(m.bonds, edges, |edges|, BondDouble, BondSingle);
        return false;
      }
      i := i + 1;
    }
    var k := 0;
    while k < |cycle|
      invariant 0 <= k <= |cycle|
      invariant forall j :: 0 <= j < k ==> m.atoms[cycle[j]].number == Elements.ElemC && m.atoms[cycle[j]].charge == 0
    {
      var a := m.atoms[cycle[k]];
      if a.number != Elements.ElemC || a.charge != 0 {
        return false;
      }
      k := k + 1;
    }
    ok := true;
  }

  // ---------------------------------------------------------------------
  // Rewriting bond orders

  /** The bonds after `setBondOrderInternal(e, order)` for every listed `e`:
      only indices below `limit` (the length of `BondOrders`) change, and
      they keep their endpoints. */
  function MarkBonds(bonds: seq<Bond>, es: seq<int>, limit: int, order: int): (r: seq<Bond>)
    ensures |r| == |bonds|
    ensures forall i :: 0 <= i < |r| ==> r[i].beg == bonds[i].beg && r[i].end == bonds[i].end
  {
    seq(|bonds|, i requires 0 <= i < |bonds| => if i in es && i < limit then bonds[i].(order := order) else bonds[i])
  }

  /** `BondOrders` after the same calls. */
  function MarkOrders(orders: seq<int>, es: seq<int>, order: int): (r: seq<int>)
    ensures |r| == |orders|
  {
    seq(|orders|, i requires 0 <= i < |orders| => if i in es then order else orders[i])
  }

  lemma MarkStep(bonds: seq<Bond>, orders: seq<int>, es: seq<int>, j: nat, limit: int, order: int,
                 cur: seq<Bond>, curOrders: seq<int>)
    requires j < |es| && 0 <= es[j] < |bonds| && limit == |orders| <= |bonds|
    requires cur == MarkBonds(bonds, es[..j], limit, order) && curOrders == MarkOrders(orders, es[..j], order)
    ensures es[j] < limit ==>
              MarkBonds(bonds, es[..j + 1], limit, order) == cur[es[j] := cur[es[j]].(order := order)] &&
              MarkOrders(orders, es[..j + 1], order) == curOrders[es[j] := order]
    ensures es[j] >= limit ==>
              MarkBonds(bonds, es[..j + 1], limit, order) == cur && MarkOrders(orders, es[..j + 1], order) == curOrders
  {
    assert es[..j + 1] == es[..j] + [es[j]];
  }

  lemma DropTwice(c0: seq<int>, c: seq<int>, x: int, y: int)
    requires KeptOrDropped(c0, c)
    ensures KeptOrDropped(c0, CacheInvalidate(CacheInvalidate(c, x), y))
  {
  }

  /** Bonds with the same endpoints leave the graph well formed. */
  lemma SameEnds(atoms: seq<Atom>, bonds: seq<Bond>, r: seq<Bond>, vertices: seq<seq<int>>)
    requires WellFormed(atoms, bonds, vertices) && |r| == |bonds|
    requires forall i :: 0 <= i < |r| ==> r[i].beg == bonds[i].beg && r[i].end == bonds[i].end
    ensures WellFormed(atoms, r, vertices)
  {
    forall a, i | 0 <= a < |vertices| && 0 <= i < |r|
      ensures multiset(vertices[a])[i] == Incidence(r[i], a)
    {
      assert Incidence(r[i], a) == Incidence(bonds[i], a);
    }
  }

  /** Each cache entry is either what it was or dropped to -1. */
  predicate KeptOrDropped(before: seq<int>, after: seq<int>)
  {
    |after| == |before| && forall i :: 0 <= i < |after| ==> after[i] == before[i] || after[i] == -1
  }

  /** `setBondOrderInternal(e, order)` for every `e` of `es` in turn. */
  method MarkAll(m: Molecule, es: seq<int>, order: int)
    requires m.Valid() && forall j :: 0 <= j < |es| ==> 0 <= es[j] < |m.bonds|
    modifies m`bonds, m`bondOrders, m`connectivity, m`implicitH, m`aromaticity, m`aromatized
    ensures m.Valid()
    ensures m.bonds == MarkBonds(old(m.bonds), es, |old(m.bondOrders)|, order)
    ensures m.bondOrders == MarkOrders(old(m.bondOrders), es, order)
    ensures KeptOrDropped(old(m.connectivity), m.connectivity) && KeptOrDropped(old(m.implicitH), m.implicitH)
    ensures m.aromaticity == old(m.aromaticity) || m.aromaticity == []
    ensures m.aromatized ==> old(m.aromatized)
  {
    ghost var b0, o0, c0, h0 := m.bonds, m.bondOrders, m.connectivity, m.implicitH;
    var j := 0;
    while j < |es|
      invariant 0 <= j <= |es| && m.Valid() && |m.bonds| == |b0| && |m.bondOrders| == |o0|
      invariant m.bonds == MarkBonds(b0, es[..j], |o0|, order)
      invariant m.bondOrders == MarkOrders(o0, es[..j], order)
      invariant KeptOrDropped(c0, m.connectivity) && KeptOrDropped(h0, m.implicitH)
      invariant m.aromaticity == old(m.aromaticity) || m.aromaticity == []
      invariant m.aromatized ==> old(m.aromatized)
    {
      MarkStep(b0, o0, es, j, |o0|, order, m.bonds, m.bondOrders);
      var b := m.bonds[es[j]];
      DropTwice(c0, m.connectivity, b.beg, b.end);
      DropTwice(h0, m.implicitH, b.beg, b.end);
      m.SetBondOrderInternal(es[j], order);
      j := j + 1;
    }
    assert es[..j] == es;
  }

  /** One cycle of `Aromatize`: when it alternates on the current bonds,
      all its edges are set aromatic. */
  function AromatizeStep(atoms: seq<Atom>, bonds: seq<Bond>, orders: seq<int>, vertices: seq<seq<int>>,
                         c: seq<int>): (r: (seq<Bond>, seq<int>))
    requires WellFormed(atoms, bonds, vertices) && CycleInRange(atoms, c)
    ensures WellFormed(atoms, r.0, vertices) && |r.0| == |bonds| && |r.1| == |orders|
    ensures forall i :: 0 <= i < |bonds| ==> r.0[i].beg == bonds[i].beg && r.0[i].end == bonds[i].end
  {
    if AlternatingCycle(atoms, bonds, vertices, c) then
      var es := CycleEdgesOf(bonds, vertices, c, |c|);
      SameEnds(atoms, bonds, MarkBonds(bonds, es, |orders|, BondAromatic), vertices);
      (MarkBonds(bonds, es, |orders|, BondAromatic), MarkOrders(orders, es, BondAromatic))
    else (bonds, orders)
  }

  /** The bonds and `BondOrders` after `Aromatize` has walked `cycles`,
      each cycle judged on the bonds as the earlier ones left them. */
  function Aromatized(atoms: seq<Atom>, bonds: seq<Bond>, orders: seq<int>, vertices: seq<seq<int>>,
                      cycles: seq<seq<int>>): (r: (seq<Bond>, seq<int>))
    requires WellFormed(atoms, bonds, vertices)
    requires forall k :: 0 <= k < |cycles| ==> CycleInRange(atoms, cycles[k])
    ensures WellFormed(atoms, r.0, vertices) && |r.0| == |bonds| && |r.1| == |orders|
    ensures forall i :: 0 <= i < |bonds| ==> r.0[i].beg == bonds[i].beg && r.0[i].end == bonds[i].end
    decreases |cycles|
  {
    if cycles == [] then (bonds, orders)
    else
      var p := Aromatized(atoms, bonds, orders, vertices, cycles[..|cycles| - 1]);
      AromatizeStep(atoms, p.0, p.1, vertices, cycles[|cycles| - 1])
  }

  /** One cycle of `Aromatize`: the alternation test, then the marking. */
  method AromatizeCycle(m: Molecule, cycle: seq<int>)
    requires m.Valid() && CycleInRange(m.atoms, cycle)
    modifies m`bonds, m`bondOrders, m`connectivity, m`implicitH, m`aromaticity, m`aromatized
    ensures m.Valid()
    ensures (m.bonds, m.bondOrders) == AromatizeStep(m.atoms, old(m.bonds), old(m.bondOrders), m.vertices, cycle)
    ensures KeptOrDropped(old(m.connectivity), m.connectivity) && KeptOrDropped(old(m.implicitH), m.implicitH)
    ensures m.aromaticity == old(m.aromaticity) || m.aromaticity == []
    ensures m.aromatized ==> old(m.aromatized)
  {
    var ok := IsAlternatingSingleDouble(m, cycle);
    if ok {
      var es := CycleEdges(m, cycle);
      MarkAll(m, es, BondAromatic);
    }
  }

  /** `Aromatize`: every alternating six-cycle of neutral carbons has its
      bonds set aromatic, then the molecule is flagged aromatized. The
      cycles are those `findSimpleCyclesOfLength(m, 6)` returns. */
  method Aromatize(m: Molecule, cycles: seq<seq<int>>)
    requires m.Valid() && forall k :: 0 <= k < |cycles| ==> CycleInRange(m.atoms, cycles[k])
    modifies m`bonds, m`bondOrders, m`connectivity, m`implicitH, m`aromaticity, m`aromatized
    ensures m.Valid()
    ensures (m.bonds, m.bondOrders) == Aromatized(m.atoms, old(m.bonds), old(m.bondOrders), m.vertices, cycles)
    ensures KeptOrDropped(old(m.connectivity), m.connectivity) && KeptOrDropped(old(m.implicitH), m.implicitH)
    ensures m.aromatized && m.aromaticity == []
  {
    ghost var b0, o0, c0, h0 := m.bonds, m.bondOrders, m.connectivity, m.implicitH;
    var k := 0;
    while k < |cycles|
      invariant 0 <= k <= |cycles| && m.Valid()
      invariant (m.bonds, m.bondOrders) == Aromatized(m.atoms, b0, o0, m.vertices, cycles[..k])
      invariant KeptOrDropped(c0, m.connectivity) && KeptOrDropped(h0, m.implicitH)
    {
      assert cycles[..k + 1][..k] == cycles[..k];
      AromatizeCycle(m, cycles[k]);
      k := k + 1;
    }
    assert cycles[..k] == cycles;
    m.aromatized := true;
    m.aromaticity := [];
  }

  /** `Aromatize` only ever sets the aromatic order: every bond and every
      `BondOrders` entry is either as it was or aromatic, and bonds keep
      their atoms. */
  lemma {:induction false} AromatizedOnlyMarks(atoms: seq<Atom>, bonds: seq<Bond>, orders: seq<int>,
                                               vertices: seq<seq<int>>, cycles: seq<seq<int>>)
    requires WellFormed(atoms, bonds, vertices)
    requires forall k :: 0 <= k < |cycles| ==> CycleInRange(atoms, cycles[k])
    ensures var r := Aromatized(atoms, bonds, orders, vertices, cycles);
            (forall i :: 0 <= i < |bonds| ==> r.0[i] == bonds[i] || (i < |orders| && r.0[i] == bonds[i].(order := BondAromatic))) &&
            (forall i :: 0 <= i < |orders| ==> r.1[i] == orders[i] || r.1[i] == BondAromatic)
    decreases |cycles|
  {
    if cycles != [] {
      AromatizedOnlyMarks(atoms, bonds, orders, vertices, cycles[..|cycles| - 1]);
    }
  }

  /** A single alternating cycle (a Kekule benzene) ends with every one of
      its steps closed by an aromatic bond, and nothing else changes. */
  lemma AromatizeOneAlternating(atoms: seq<Atom>, bonds: seq<Bond>, orders: seq<int>,
                                vertices: seq<seq<int>>, c: seq<int>)
    requires WellFormed(atoms, bonds, vertices) && CycleInRange(atoms, c) && |orders| == |bonds|
    requires AlternatingCycle(atoms, bonds, vertices, c)
    ensures var r, es := Aromatized(atoms, bonds, orders, vertices, [c]), CycleEdgesOf(bonds, vertices, c, |c|);
            |es| == |c| &&
            (forall i :: 0 <= i < |c| ==> Joins(r.0[es[i]], c[i], Next(c, i)) &&
                                          r.0[es[i]].order == BondAromatic && r.1[es[i]] == BondAromatic) &&
            (forall i :: 0 <= i < |bonds| && i !in es ==> r.0[i] == bonds[i] && r.1[i] == orders[i])
  {
    assert [c][..0] == [];
    AlternatingCycleBonds(atoms, bonds, vertices, c);
  }

  /** A molecule whose bonds are all single has no alternating cycle of two
      or more atoms, so `Aromatize` leaves its bonds alone. */
  lemma {:induction false} AromatizeAllSingle(atoms: seq<Atom>, bonds: seq<Bond>, orders: seq<int>,
                                              vertices: seq<seq<int>>, cycles: seq<seq<int>>)
    requires WellFormed(atoms, bonds, vertices)
    requires forall k :: 0 <= k < |cycles| ==> CycleInRange(atoms, cycles[k]) && |cycles[k]| >= 2
    requires forall i :: 0 <= i < |bonds| ==> bonds[i].order == BondSingle
    ensures Aromatized(atoms, bonds, orders, vertices, cycles) == (bonds, orders)
    decreases |cycles|
  {
    if cycles != [] {
      AromatizeAllSingle(atoms, bonds, orders, vertices, cycles[..|cycles| - 1]);
      var c := cycles[|cycles| - 1];
      var es := CycleEdgesOf(bonds, vertices, c, |c|);
      if |es| == |c| {
        assert BondOrderOf(bonds, es[0]) == BondSingle && BondOrderOf(bonds, es[1]) == BondSingle;
        assert !AlternatesUpTo(bonds, es, |es|, BondSingle, BondDouble);
        assert !AlternatesUpTo(bonds, es, |es|, BondDouble, BondSingle);
      }
    }
  }

  /** `BondOrders` after the first `n` steps of `Dearomatize`. */
  function DearomatizedOrders(orders: seq<int>, n: nat): (r: seq<int>)
    ensures |r| == |orders|
    ensures forall i :: 0 <= i < |r| && i < n ==> r[i] != BondAromatic
    ensures forall i :: 0 <= i < |r| ==> r[i] == orders[i] || (orders[i] == BondAromatic && r[i] == BondSingle)
  {
    seq(|orders|, i requires 0 <= i < |orders| => if i < n && orders[i] == BondAromatic then BondSingle else orders[i])
  }

  /** The bonds after the first `n` steps of `Dearomatize`. */
  function DearomatizedBonds(bonds: seq<Bond>, orders: seq<int>, n: nat): (r: seq<Bond>)
    ensures |r| == |bonds|
    ensures forall i :: 0 <= i < |r| ==> r[i].beg == bonds[i].beg && r[i].end == bonds[i].end
  {
    seq(|bonds|, i requires 0 <= i < |bonds| =>
      if i < n && i < |orders| && orders[i] == BondAromatic then bonds[i].(order := BondSingle) else bonds[i])
  }

  /** Dearomatizing twice changes nothing more. */
  lemma DearomatizeIdempotent(orders: seq<int>)
    ensures DearomatizedOrders(DearomatizedOrders(orders, |orders|), |orders|) == DearomatizedOrders(orders, |orders|)
  {
  }

  /** `Dearomatize`: every aromatic `BondOrders` entry becomes single, then
      the molecule is flagged not aromatized. The loop indexes `BondOrders`
      by bond, so it must be as long as the bond list. */
  method Dearomatize(m: Molecule)
    requires m.Valid() && |m.bondOrders| == |m.bonds|
    modifies m`bonds, m`bondOrders, m`connectivity, m`implicitH, m`aromaticity, m`aromatized
    ensures m.Valid()
    ensures m.bondOrders == DearomatizedOrders(old(m.bondOrders), |old(m.bonds)|)
    ensures m.bonds == DearomatizedBonds(old(m.bonds), old(m.bondOrders), |old(m.bonds)|)
    ensures KeptOrDropped(old(m.connectivity), m.connectivity) && KeptOrDropped(old(m.implicitH), m.implicitH)
    ensures !m.aromatized && m.aromaticity == []
  {
    ghost var b0, o0, c0, h0 := m.bonds, m.bondOrders, m.connectivity, m.implicitH;
    var i := 0;
    while i < |m.bonds|
      invariant 0 <= i <= |b0| && m.Valid() && |m.bonds| == |b0| && |m.bondOrders| == |o0|
      invariant m.bondOrders == DearomatizedOrders(o0, i)
      invariant m.bonds == DearomatizedBonds(b0, o0, i)
      invariant KeptOrDropped(c0, m.connectivity) && KeptOrDropped(h0, m.implicitH)
    {
      DearomatizeStep(b0, o0, i, m.bonds, m.bondOrders);
      if m.bondOrders[i] == BondAromatic {
        var b := m.bonds[i];
        DropTwice(c0, m.connectivity, b.beg, b.end);
        DropTwice(h0, m.implicitH, b.beg, b.end);
        m.SetBondOrderInternal(i, BondSingle);
      }
      i := i + 1;
    }
    m.aromatized := false;
    m.aromaticity := [];
  }

  lemma DearomatizeStep(bonds: seq<Bond>, orders: seq<int>, i: nat, cur: seq<Bond>, curOrders: seq<int>)
    requires i < |orders| == |bonds|
    requires cur == DearomatizedBonds(bonds, orders, i) && curOrders == DearomatizedOrders(orders, i)
    ensures curOrders[i] == orders[i]
    ensures orders[i] == BondAromatic ==>
              DearomatizedBonds(bonds, orders, i + 1) == cur[i := cur[i].(order := BondSingle)] &&
              DearomatizedOrders(orders, i + 1) == curOrders[i := BondSingle]
    ensures orders[i] != BondAromatic ==>
              DearomatizedBonds(bonds, orders, i + 1) == cur && DearomatizedOrders(orders, i + 1) == curOrders
  {
  }
}
