/** Decimal formatting and parsing as used by Go's `fmt` (%d, %3d) and
    `strconv.Atoi`, plus the few `strings` helpers the core relies on.
    Strings are sequences of characters; every format in the core is ASCII. */
module Text {
  import opened Wrappers

  const Int64Max: int := 0x7fff_ffff_ffff_ffff
  const Int64Min: int := -0x8000_0000_0000_0000

  predicate IsDigit(c: char) { '0' <= c <= '9' }

  predicate AllDigits(s: string) { forall i :: 0 <= i < |s| ==> IsDigit(s[i]) }

  function DigitValue(c: char): (d: nat)
    requires IsDigit(c)
    ensures d < 10
  {
    (c as int) - ('0' as int)
  }

  function DigitChar(d: nat): (c: char)
    requires d < 10
    ensures IsDigit(c) && DigitValue(c) == d
  {
    (('0' as int) + d) as char
  }

  /** `fmt.Sprintf("%d", n)` for a non-negative n: most significant digit
      first, no leading zeros. */
  function NatToString(n: nat): (s: string)
    ensures |s| >= 1 && AllDigits(s)
    ensures s[0] == '0' <==> n == 0
    decreases n
  {
    if n < 10 then [DigitChar(n)] else NatToString(n / 10) + [DigitChar(n % 10)]
  }

  /** `fmt.Sprintf("%d", i)`: a minus sign followed by the magnitude. */
  function IntToString(i: int): (s: string)
    ensures |s| >= 1
    ensures s[0] == '-' <==> i < 0
  {
    if i < 0 then "-" + NatToString(-i) else NatToString(i)
  }

  /** The value of a run of decimal digits, read left to right. */
  function DigitsValue(s: string): nat
    requires AllDigits(s)
  {
    if s == [] then 0 else DigitsValue(s[..|s| - 1]) * 10 + DigitValue(s[|s| - 1])
  }

  lemma {:induction false} NatToStringRoundTrip(n: nat)
    ensures DigitsValue(NatToString(n)) == n
    decreases n
  {
    if n >= 10 {
      var s := NatToString(n);
      assert s[..|s| - 1] == NatToString(n / 10);
      NatToStringRoundTrip(n / 10);
    }
  }

  /** `strconv.Atoi`: an optional sign and at least one decimal digit, within
      the 64-bit range; anything else is an error. */
  function Atoi(s: string): (r: Option<int>)
    ensures r.Some? ==> Int64Min <= r.value <= Int64Max
  {
    var body := if |s| > 0 && (s[0] == '+' || s[0] == '-') then s[1..] else s;
    if |body| == 0 || !AllDigits(body) then None
    else
      var v: int := if |s| > 0 && s[0] == '-' then 0 - (DigitsValue(body) as int) else DigitsValue(body);
      if Int64Min <= v <= Int64Max then Some(v) else None
  }

  lemma AtoiIntToString(i: int)
    requires Int64Min <= i <= Int64Max
    ensures Atoi(IntToString(i)) == Some(i)
  {
    var s := IntToString(i);
    if i < 0 {
      assert s[1..] == NatToString(-i);
      NatToStringRoundTrip(-i);
    } else {
      NatToStringRoundTrip(i);
    }
  }

  /** The ASCII white space `strings.TrimSpace` removes. */
  predicate IsSpace(c: char) { c == ' ' || c == '\t' || c == '\n' || c == '\r' || c == '\U{000B}' || c == '\U{000C}' }

  /** `strings.TrimLeft` with the white space set. */
  function TrimLeft(s: string): (r: string)
    ensures |r| <= |s|
  {
    if s != [] && IsSpace(s[0]) then TrimLeft(s[1..]) else s
  }

  /** `strings.TrimRight` with the white space set. */
  function TrimRight(s: string): (r: string)
    ensures |r| <= |s|
  {
    if s != [] && IsSpace(s[|s| - 1]) then TrimRight(s[..|s| - 1]) else s
  }

  /** `strings.TrimSpace`. */
  function TrimSpace(s: string): string
  {
    TrimRight(TrimLeft(s))
  }

  /** What `TrimLeft` leaves is a suffix that does not start with white space. */
  lemma {:induction false} TrimLeftSuffix(s: string)
    ensures var r := TrimLeft(s); r == s[|s| - |r|..] && (r == [] || !IsSpace(r[0]))
    decreases |s|
  {
    if s != [] && IsSpace(s[0]) {
      TrimLeftSuffix(s[1..]);
    }
  }

  /** What `TrimRight` leaves is a prefix that does not end with white space. */
  lemma {:induction false} TrimRightPrefix(s: string)
    ensures var r := TrimRight(s); r == s[..|r|] && (r == [] || !IsSpace(r[|r| - 1]))
    decreases |s|
  {
    if s != [] && IsSpace(s[|s| - 1]) {
      TrimRightPrefix(s[..|s| - 1]);
    }
  }

  /** `TrimSpace` leaves white space at neither end. */
  lemma TrimSpaceEnds(s: string)
    ensures var r := TrimSpace(s); r == [] || (!IsSpace(r[0]) && !IsSpace(r[|r| - 1]))
  {
    TrimLeftSuffix(s);
    TrimRightPrefix(TrimLeft(s));
    var l := TrimLeft(s);
    var r := TrimRight(l);
    if r != [] {
      assert r[0] == l[0];
    }
  }

  predicate HasPrefix(s: string, p: string) { |p| <= |s| && s[..|p|] == p }

  /** `fmt.Sprintf("%*s")` with a width: spaces on the left up to `width`. */
  function PadLeft(s: string, width: nat): (r: string)
    ensures |r| == if |s| < width then width else |s|
    ensures r[|r| - |s|..] == s
  {
    if |s| < width then Spaces(width - |s|) + s else s
  }

  /** `fmt.Sprintf("%-*s")`: spaces on the right up to `width`. */
  function PadRight(s: string, width: nat): (r: string)
    ensures |r| == if |s| < width then width else |s|
    ensures r[..|s|] == s
  {
    if |s| < width then s + Spaces(width - |s|) else s
  }

  function Spaces(n: nat): (r: string)
    ensures |r| == n && forall i :: 0 <= i < n ==> r[i] == ' '
  {
    if n == 0 then "" else Spaces(n - 1) + " "
  }

  /** `strings.Repeat`. */
  function Repeat(s: string, n: nat): (r: string)
    ensures |r| == n * |s|
  {
    if n == 0 then "" else s + Repeat(s, n - 1)
  }

  /** One more copy can go at either end. */
  lemma {:induction false} RepeatSnoc(s: string, n: nat)
    ensures Repeat(s, n) + s == Repeat(s, n + 1)
  {
    if n > 0 {
      RepeatSnoc(s, n - 1);
    }
  }

  /** `strings.Join`. */
  function Join(parts: seq<string>, sep: string): string
  {
    if parts == [] then ""
    else if |parts| == 1 then parts[0]
    else parts[0] + sep + Join(parts[1..], sep)
  }

  /** Appending one part to a join adds the separator and the
      part. */
  lemma {:induction false} JoinSnoc(parts: seq<string>, x: string, sep: string)
    ensures Join(parts + [x], sep) == if parts == [] then x else Join(parts, sep) + sep + x
  {
    if |parts| > 1 {
      assert (parts + [x])[1..] == parts[1..] + [x];
      JoinSnoc(parts[1..], x, sep);
    }
  }

  /** Concatenation is associative. */
  lemma Assoc<T>(a: seq<T>, b: seq<T>, c: seq<T>)
    ensures (a + b) + c == a + (b + c)
  {
  }

  /** Go's `<` on strings: byte-wise lexicographic order, a proper prefix
      coming first. */
  predicate LexLess(a: string, b: string)
  {
    b != [] && (a == [] || a[0] < b[0] || (a[0] == b[0] && LexLess(a[1..], b[1..])))
  }

  lemma {:induction false} LexLessIrreflexive(a: string)
    ensures !LexLess(a, a)
  {
    if a != [] {
      LexLessIrreflexive(a[1..]);
    }
  }

  lemma {:induction false} LexLessTransitive(a: string, b: string, c: string)
    requires LexLess(a, b) && LexLess(b, c)
    ensures LexLess(a, c)
  {
    if a != [] && a[0] == b[0] && b[0] == c[0] {
      LexLessTransitive(a[1..], b[1..], c[1..]);
    }
  }

  /** Two different strings are ordered one way or the other. */
  lemma {:induction false} LexLessTotal(a: string, b: string)
    requires a != b
    ensures LexLess(a, b) || LexLess(b, a)
  {
    if a != [] && b != [] && a[0] == b[0] {
      assert a == [a[0]] + a[1..] && b == [b[0]] + b[1..];
      LexLessTotal(a[1..], b[1..]);
    }
  }

  // ---------------------------------------------------------------------
  // Fixed-width fields

  predicate NoSpace(s: string) { forall i :: 0 <= i < |s| ==> !IsSpace(s[i]) }

  /** A decimal number never contains white space. */
  lemma IntToStringNoSpace(i: int)
    ensures NoSpace(IntToString(i))
  {
    var s := IntToString(i);
    if i < 0 {
      assert forall k :: 1 <= k < |s| ==> s[k] == NatToString(-i)[k - 1];
    }
  }

  /** Numbers below 1000 take at most three characters, and numbers between
      -99 and 999 at most three with the sign. */
  lemma IntToStringWidth(i: int)
    ensures 0 <= i < 10 ==> |IntToString(i)| == 1
    ensures 0 <= i < 100 ==> |IntToString(i)| <= 2
    ensures 0 <= i < 1000 ==> |IntToString(i)| <= 3
    ensures -9 <= i < 0 ==> |IntToString(i)| == 2
    ensures -99 <= i < 0 ==> |IntToString(i)| <= 3
  {
    if 0 <= i < 1000 {
      if i >= 10 {
        assert |NatToString(i)| == |NatToString(i / 10)| + 1;
        if i >= 100 {
          assert |NatToString(i / 10)| == |NatToString(i / 100)| + 1;
        }
      }
    }
    if -99 <= i < -9 {
      assert |NatToString(-i)| == |NatToString(-i / 10)| + 1;
    }
  }

  lemma {:induction false} TrimLeftSpaces(k: nat, t: string)
    requires t == [] || !IsSpace(t[0])
    ensures TrimLeft(Spaces(k) + t) == t
  {
    var s := Spaces(k) + t;
    if k > 0 {
      SpacesCons(k);
      assert s[0] == ' ';
      assert s[1..] == Spaces(k - 1) + t;
      TrimLeftSpaces(k - 1, t);
    } else {
      assert s == t;
    }
  }

  lemma SpacesCons(k: nat)
    requires k > 0
    ensures Spaces(k) == [' '] + Spaces(k - 1)
  {
    assert |Spaces(k)| == |[' '] + Spaces(k - 1)|;
  }

  lemma {:induction false} TrimRightSpaces(t: string, k: nat)
    requires t == [] || !IsSpace(t[|t| - 1])
    ensures TrimRight(t + Spaces(k)) == t
  {
    if k > 0 {
      assert (t + Spaces(k))[..|t + Spaces(k)| - 1] == t + Spaces(k - 1);
      TrimRightSpaces(t, k - 1);
    } else {
      assert t + Spaces(k) == t;
    }
  }

  /** A field written right-aligned (`%3d`) is read back by trimming. */
  lemma TrimPadLeft(t: string, width: nat)
    requires t != [] && NoSpace(t)
    ensures TrimSpace(PadLeft(t, width)) == t
  {
    if |t| < width {
      TrimLeftSpaces(width - |t|, t);
    } else {
      TrimLeftSpaces(0, t);
      assert Spaces(0) + t == t;
    }
    TrimRightSpaces(t, 0);
    assert t + Spaces(0) == t;
  }

  /** A field written left-aligned (`%-3s`) is read back by trimming. */
  lemma TrimPadRight(t: string, width: nat)
    requires t != [] && !IsSpace(t[0]) && !IsSpace(t[|t| - 1])
    ensures TrimSpace(PadRight(t, width)) == t
  {
    var r := PadRight(t, width);
    TrimLeftSpaces(0, r);
    assert Spaces(0) + r == r;
    if |t| < width {
      TrimRightSpaces(t, width - |t|);
    } else {
      TrimRightSpaces(t, 0);
      assert t + Spaces(0) == t;
    }
  }

  // ---------------------------------------------------------------------
  // strings.Fields

  /** The longest prefix without white space. */
  function Word(s: string): (w: string)
    ensures |w| <= |s| && w == s[..|w|] && NoSpace(w)
    ensures |w| == |s| || IsSpace(s[|w|])
  {
    if s == [] || IsSpace(s[0]) then [] else [s[0]] + Word(s[1..])
  }

  /** `strings.Fields`: the maximal runs of non-space characters. */
  function Fields(s: string): seq<string>
    decreases |s|
  {
    var t := TrimLeft(s);
    if t == [] then []
    else
      TrimLeftSuffix(s);
      var w := Word(t);
      assert |w| >= 1;
      [w] + Fields(t[|w|..])
  }

  lemma {:induction false} WordOf(t: string, rest: string)
    requires NoSpace(t) && (rest == [] || IsSpace(rest[0]))
    ensures Word(t + rest) == t
    decreases |t|
  {
    if t != [] {
      assert (t + rest)[1..] == t[1..] + rest;
      WordOf(t[1..], rest);
    } else {
      assert t + rest == rest;
    }
  }

  /** Leading spaces do not change the fields. */
  lemma FieldsAfterSpaces(k: nat, u: string)
    requires u == [] || !IsSpace(u[0])
    ensures Fields(Spaces(k) + u) == Fields(u)
  {
    TrimLeftSpaces(k, u);
    TrimLeftSpaces(0, u);
    assert Spaces(0) + u == u;
  }

  /** A word followed by nothing or by white space is the first field. */
  lemma FieldsWord(t: string, rest: string)
    requires t != [] && NoSpace(t) && (rest == [] || IsSpace(rest[0]))
    ensures Fields(t + rest) == [t] + Fields(rest)
  {
    var u := t + rest;
    assert u[0] == t[0];
    assert TrimLeft(u) == u;
    WordOf(t, rest);
    assert u[|t|..] == rest;
  }

  /** Reading one space-led token: `Fields(" " * k + t + rest)` starts with
      `t` when `rest` is empty or starts with a space. */
  lemma FieldsCons(k: nat, t: string, rest: string)
    requires t != [] && NoSpace(t) && (rest == [] || IsSpace(rest[0]))
    ensures Fields(Spaces(k) + t + rest) == [t] + Fields(rest)
  {
    assert Spaces(k) + t + rest == Spaces(k) + (t + rest);
    assert (t + rest)[0] == t[0];
    FieldsAfterSpaces(k, t + rest);
    FieldsWord(t, rest);
  }

  // ---------------------------------------------------------------------
  // Splitting and trimming

  /** The last character of a decimal number is a digit. */
  lemma IntToStringEndsInDigit(i: int)
    ensures IsDigit(IntToString(i)[|IntToString(i)| - 1])
  {
    var s := IntToString(i);
    if i < 0 {
      assert s[|s| - 1] == NatToString(-i)[|NatToString(-i)| - 1];
    }
  }

  /** `strings.Split(s, string(sep))` for a one-character separator: the
      pieces between separators, so one more piece than there are
      separators. */
  function Split(s: string, sep: char): (parts: seq<string>)
    ensures |parts| >= 1
  {
    if s == [] then [""]
    else if s[0] == sep then [""] + Split(s[1..], sep)
    else
      var rest := Split(s[1..], sep);
      [[s[0]] + rest[0]] + rest[1..]
  }

  /** A string without the separator is a single piece. */
  lemma {:induction false} SplitNoSep(s: string, sep: char)
    requires sep !in s
    ensures Split(s, sep) == [s]
  {
    if s != [] {
      SplitNoSep(s[1..], sep);
      assert [s[0]] + s[1..] == s;
    }
  }

  /** Splitting `a + sep + b` where `a` has no separator: `a`, then the
      pieces of `b`. */
  lemma {:induction false} SplitCons(a: string, sep: char, b: string)
    requires sep !in a
    ensures Split(a + [sep] + b, sep) == [a] + Split(b, sep)
  {
    if a == [] {
      assert a + [sep] + b == [sep] + b;
      assert ([sep] + b)[1..] == b;
    } else {
      assert (a + [sep] + b)[1..] == a[1..] + [sep] + b;
      SplitCons(a[1..], sep, b);
      assert [a[0]] + a[1..] == a;
    }
  }

  /** There are at least two pieces exactly when the separator occurs. */
  lemma {:induction false} SplitTwoParts(s: string, sep: char)
    ensures |Split(s, sep)| >= 2 <==> sep in s
  {
    if s != [] && s[0] != sep {
      SplitTwoParts(s[1..], sep);
      assert sep in s <==> sep in s[1..];
    } else if s != [] {
      assert s[0] == sep;
    }
  }

  /** `strings.TrimPrefix`: `s` without `p` when it starts with `p`. */
  function TrimPrefix(s: string, p: string): (r: string)
    ensures HasPrefix(s, p) ==> p + r == s
    ensures !HasPrefix(s, p) ==> r == s
  {
    if HasPrefix(s, p) then s[|p|..] else s
  }

  /** `strings.TrimSuffix(s, ",")`: one trailing comma removed. */
  function TrimComma(s: string): (r: string)
    ensures |s| > 0 && s[|s| - 1] == ',' ==> r + "," == s
    ensures !(|s| > 0 && s[|s| - 1] == ',') ==> r == s
  {
    if |s| > 0 && s[|s| - 1] == ',' then s[..|s| - 1] else s
  }

  /** `sub` occurs in `s` starting at `k`. */
  predicate OccursAt(s: string, sub: string, k: int)
  {
    0 <= k && k + |sub| <= |s| && s[k..k + |sub|] == sub
  }

  /** The first occurrence of `sub` at or after `k`, or -1. */
  function IndexFrom(s: string, sub: string, k: nat): (i: int)
    ensures i == -1 || (k <= i && OccursAt(s, sub, i))
    ensures forall j :: k <= j && (i == -1 || j < i) ==> !OccursAt(s, sub, j)
    decreases |s| - k
  {
    if k + |sub| > |s| then -1
    else if s[k..k + |sub|] == sub then k
    else IndexFrom(s, sub, k + 1)
  }

  /** `strings.Index`: the first position where `sub` occurs, or -1. */
  function Index(s: string, sub: string): (i: int)
    ensures i == -1 || OccursAt(s, sub, i)
    ensures forall j :: 0 <= j && (i == -1 || j < i) ==> !OccursAt(s, sub, j)
  {
    IndexFrom(s, sub, 0)
  }
}
