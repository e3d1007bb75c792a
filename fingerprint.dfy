/** Fingerprint bit vectors (src/molecule_fingerprint.go): a fixed number of
    bits stored in 64-bit words, set in place, counted and compared. */
module Fingerprints {

  const DefaultSize: int := 2048

  /** The word `1 << k`. */
  function Mask(k: bv7): bv64
    requires k < 64
  {
    (1 as bv64) << k
  }

  /** Whether bit `k` of `w` is set (`w & (1 << k) != 0`). */
  predicate Bit(w: bv64, k: bv7)
    requires k < 64
  {
    w & Mask(k) != 0
  }

  /** Setting bit `k` sets it. */
  lemma OrBitSame(w: bv64, k: bv7)
    requires k < 64
    ensures Bit(w | Mask(k), k)
  {
  }

  /** Or-ing in the mask of bit `k` leaves the bits under another mask alone. */
  lemma OrMaskOther(w: bv64, k: bv7, j: bv7)
    requires k < 64 && j < 64 && j != k
    ensures (w | Mask(k)) & Mask(j) == w & Mask(j)
  {
  }

  /** Setting bit `k` sets exactly that bit. */
  lemma OrBit(w: bv64, k: bv7, j: bv7)
    requires k < 64 && j < 64
    ensures Bit(w | Mask(k), j) <==> Bit(w, j) || j == k
  {
    if j == k {
      OrBitSame(w, k);
    } else {
      OrMaskOther(w, k, j);
    }
  }

  function BitValue(w: bv64, k: bv7): int
    requires k < 64
  {
    if Bit(w, k) then 1 else 0
  }

  /** Setting bit `k` raises bit `j`'s contribution only when `j` is `k`
      and the bit was clear. */
  lemma BitValueSet(w: bv64, k: bv7, j: bv7)
    requires k < 64 && j < 64
    ensures BitValue(w | Mask(k), j) == BitValue(w, j) + (if j == k && !Bit(w, k) then 1 else 0)
  {
    OrBit(w, k, j);
  }

  /** The number of set bits of `w` below bit `n`. */
  function PopBelow(w: bv64, n: bv7): (c: int)
    requires n <= 64
    ensures 0 <= c <= n as int
    decreases n as int
  {
    if n == 0 then 0 else PopBelow(w, n - 1) + BitValue(w, n - 1)
  }

  /** `bits.OnesCount64`. */
  function PopCount(w: bv64): int
  {
    PopBelow(w, 64)
  }

  /** Setting bit `k` adds one to the count below `n` exactly when the bit
      was clear and lies below `n`. */
  lemma {:induction false} PopBelowSetBit(w: bv64, k: bv7, n: bv7)
    requires k < 64 && n <= 64
    ensures PopBelow(w | Mask(k), n) == PopBelow(w, n) + (if k < n && !Bit(w, k) then 1 else 0)
    decreases n as int
  {
    if n > 0 {
      PopBelowSetBit(w, k, n - 1);
      BitValueSet(w, k, n - 1);
    }
  }

  /** Setting bit `k` adds one to the population count exactly when the bit
      was clear. */
  lemma PopCountSetBit(w: bv64, k: bv7)
    requires k < 64
    ensures PopCount(w | Mask(k)) == PopCount(w) + (if Bit(w, k) then 0 else 1)
  {
    PopBelowSetBit(w, k, 64);
  }

  /** A clear word counts nothing. */
  lemma {:induction false} PopBelowClear(n: bv7)
    requires n <= 64
    ensures PopBelow(0, n) == 0
    decreases n as int
  {
    if n > 0 {
      PopBelowClear(n - 1);
    }
  }

  /** Small integers survive the trip to `bv7` and back. */
  lemma Bv7Exact(x: int)
    requires 0 <= x < 64
    ensures (x as bv7) as int == x
  {
  }

  /** The bit index of a position within its word, `uint(pos % 64)`. */
  function BitIndex(pos: int): (k: bv7)
    requires pos >= 0
    ensures k < 64
  {
    (pos % 64) as bv7
  }

  /** Positions in the same word with different offsets have different
      bit indices. */
  lemma BitIndexDistinct(p: int, q: int)
    requires p >= 0 && q >= 0 && p / 64 == q / 64 && p != q
    ensures BitIndex(p) != BitIndex(q)
  {
    Bv7Exact(p % 64);
    Bv7Exact(q % 64);
  }

  /** Bit `pos` of a word list holding `size` bits (`GetBit`). */
  predicate WordsBit(words: seq<bv64>, size: int, pos: int)
  {
    0 <= pos < size && pos / 64 < |words| && Bit(words[pos / 64], BitIndex(pos))
  }

  /** The word list with bit `pos` set. */
  function SetWordsBit(words: seq<bv64>, pos: int): (r: seq<bv64>)
    requires 0 <= pos && pos / 64 < |words|
    ensures |r| == |words|
  {
    words[pos / 64 := words[pos / 64] | Mask(BitIndex(pos))]
  }

  /** The word list after `SetWordsBit` in terms of the changed word. */
  lemma SetWordsBitUnfold(words: seq<bv64>, pos: int)
    requires 0 <= pos && pos / 64 < |words|
    ensures SetWordsBit(words, pos) == words[pos / 64 := words[pos / 64] | Mask(BitIndex(pos))]
  {
  }

  /** Setting bit `pos` sets it and leaves every other bit as it was. */
  lemma SetWordsBitSpec(words: seq<bv64>, size: int, pos: int, q: int)
    requires 0 <= pos < size && pos / 64 < |words|
    ensures WordsBit(SetWordsBit(words, pos), size, q) <==> WordsBit(words, size, q) || q == pos
  {
    var r := SetWordsBit(words, pos);
    if 0 <= q < size && q / 64 < |words| {
      var w, kq := words[q / 64], BitIndex(q);
      if q / 64 == pos / 64 {
        var kp := BitIndex(pos);
        assert r[q / 64] == w | Mask(kp);
        OrBit(w, kp, kq);
        if q != pos {
          BitIndexDistinct(pos, q);
        }
      } else {
        assert r[q / 64] == w;
      }
    }
  }

  /** Setting bit `pos` sets it and leaves every other bit as it was. */
  lemma SetWordsBitAll(words: seq<bv64>, size: int, pos: int)
    requires 0 <= pos < size && pos / 64 < |words|
    ensures forall q :: WordsBit(SetWordsBit(words, pos), size, q) <==> WordsBit(words, size, q) || q == pos
  {
    forall q
      ensures WordsBit(SetWordsBit(words, pos), size, q) <==> WordsBit(words, size, q) || q == pos
    {
      SetWordsBitSpec(words, size, pos, q);
    }
  }

  /** The population count of a word list. */
  function TotalPop(words: seq<bv64>): (c: int)
    ensures c >= 0
  {
    if words == [] then 0 else TotalPop(words[..|words| - 1]) + PopCount(words[|words| - 1])
  }

  /** Changing one word changes the total by the change in that word. */
  lemma {:induction false} TotalPopUpdate(words: seq<bv64>, i: int, w: bv64)
    requires 0 <= i < |words|
    ensures TotalPop(words[i := w]) == TotalPop(words) - PopCount(words[i]) + PopCount(w)
    decreases |words|
  {
    if i < |words| - 1 {
      assert words[i := w][..|words| - 1] == words[..|words| - 1][i := w];
      TotalPopUpdate(words[..|words| - 1], i, w);
    } else {
      assert words[i := w][..|words| - 1] == words[..|words| - 1];
    }
  }

  /** All-zero words count nothing. */
  lemma {:induction false} TotalPopZeros(words: seq<bv64>)
    requires forall i :: 0 <= i < |words| ==> words[i] == 0
    ensures TotalPop(words) == 0
    decreases |words|
  {
    if words != [] {
      TotalPopZeros(words[..|words| - 1]);
      PopBelowClear(64);
    }
  }

  /** The Hamming distance of two equally long word lists. */
  function HammingWords(a: seq<bv64>, b: seq<bv64>): (d: int)
    requires |a| == |b|
    ensures d >= 0
  {
    if a == [] then 0
    else HammingWords(a[..|a| - 1], b[..|b| - 1]) + PopCount(a[|a| - 1] ^ b[|b| - 1])
  }

  /** The distance is symmetric. */
  lemma {:induction false} HammingSymmetric(a: seq<bv64>, b: seq<bv64>)
    requires |a| == |b|
    ensures HammingWords(a, b) == HammingWords(b, a)
    decreases |a|
  {
    if a != [] {
      HammingSymmetric(a[..|a| - 1], b[..|b| - 1]);
      assert a[|a| - 1] ^ b[|b| - 1] == b[|b| - 1] ^ a[|a| - 1];
    }
  }

  /** Identical word lists are at distance zero. */
  lemma {:induction false} HammingSelf(a: seq<bv64>)
    ensures HammingWords(a, a) == 0
    decreases |a|
  {
    if a != [] {
      HammingSelf(a[..|a| - 1]);
      assert a[|a| - 1] ^ a[|a| - 1] == 0;
      PopBelowClear(64);
    }
  }

  /** The lower-case hex digit for a nibble (`hexChar`). */
  function HexChar(n: bv8): char
    requires n < 16
  {
    if n < 10 then ('0' as int + n as int) as char else ('a' as int + (n as int - 10)) as char
  }

  /** The value of a lower-case hex digit. */
  function HexValue(c: char): int
  {
    if '0' <= c <= '9' then c as int - '0' as int
    else if 'a' <= c <= 'f' then c as int - 'a' as int + 10
    else -1
  }

  /** Each nibble becomes a lower-case hex digit that reads back as it. */
  lemma HexCharDecode(n: bv8)
    requires n < 16
    ensures HexChar(n) in "0123456789abcdef"
    ensures HexValue(HexChar(n)) == n as int
  {
  }

  /** The two digits of one byte, high nibble first. */
  function ByteHex(b: bv8): (s: string)
    ensures |s| == 2
  {
    [HexChar(b >> 4), HexChar(b & 0x0F)]
  }

  /** The low `n` bytes of `w`, least significant first (the values of
      `byte((word >> (i * 8)) & 0xFF)` for `i` below `n`). */
  function LowBytes(w: bv64, n: nat): (bs: seq<bv8>)
    ensures |bs| == n
  {
    if n == 0 then [] else [(w & 0xFF) as bv8] + LowBytes(w >> 8, n - 1)
  }

  /** Two hex digits per byte, high nibble first. */
  function HexOfBytes(bs: seq<bv8>): (s: string)
    ensures |s| == 2 * |bs|
  {
    if bs == [] then [] else ByteHex(bs[0]) + HexOfBytes(bs[1..])
  }

  /** The 16 characters `ToHexString` writes for one word: its eight bytes
      from the least significant, each as high nibble then low nibble. */
  function HexOfWord(w: bv64): (s: string)
    ensures |s| == 16
  {
    HexOfBytes(LowBytes(w, 8))
  }

  function HexOfWords(words: seq<bv64>): (s: string)
    ensures |s| == 16 * |words|
  {
    if words == [] then [] else HexOfWords(words[..|words| - 1]) + HexOfWord(words[|words| - 1])
  }

  /** Peeling the lowest byte off the hex form of the low bytes. */
  lemma HexOfLowBytesStep(rest: bv64, n: nat)
    ensures HexOfBytes(LowBytes(rest, n + 1)) ==
              ByteHex((rest & 0xFF) as bv8) + HexOfBytes(LowBytes(rest >> 8, n))
  {
    var bs := LowBytes(rest, n + 1);
    assert bs[0] == (rest & 0xFF) as bv8 && bs[1..] == LowBytes(rest >> 8, n);
  }

  /** The two digits written for a byte decode back to it. */
  lemma ByteDigitsDecode(b: bv8)
    ensures 16 * HexValue(ByteHex(b)[0]) + HexValue(ByteHex(b)[1]) == b as int
  {
    HexCharDecode(b >> 4);
    HexCharDecode(b & 0x0F);
    assert (b >> 4) as int * 16 + (b & 0x0F) as int == b as int;
  }

  /** Digits `2k` and `2k+1` of the hex form decode to byte `k`. */
  lemma {:induction false} HexOfBytesDecode(bs: seq<bv8>, k: int)
    requires 0 <= k < |bs|
    ensures 16 * HexValue(HexOfBytes(bs)[2 * k]) + HexValue(HexOfBytes(bs)[2 * k + 1]) == bs[k] as int
  {
    if k == 0 {
      ByteDigitsDecode(bs[0]);
    } else {
      HexOfBytesDecode(bs[1..], k - 1);
      assert HexOfBytes(bs)[2 * k] == HexOfBytes(bs[1..])[2 * (k - 1)];
      assert HexOfBytes(bs)[2 * k + 1] == HexOfBytes(bs[1..])[2 * (k - 1) + 1];
    }
  }

  /** Every character of the hex form is a lower-case hex digit. */
  lemma {:induction false} HexOfWordsDigits(words: seq<bv64>)
    ensures forall j :: 0 <= j < |HexOfWords(words)| ==> HexOfWords(words)[j] in "0123456789abcdef"
    decreases |words|
  {
    if words != [] {
      HexOfWordsDigits(words[..|words| - 1]);
      HexOfBytesDigits(LowBytes(words[|words| - 1], 8));
    }
  }

  lemma {:induction false} HexOfBytesDigits(bs: seq<bv8>)
    ensures forall j :: 0 <= j < |HexOfBytes(bs)| ==> HexOfBytes(bs)[j] in "0123456789abcdef"
  {
    if bs != [] {
      HexOfBytesDigits(bs[1..]);
      HexCharDecode(bs[0] >> 4);
      HexCharDecode(bs[0] & 0x0F);
    }
  }

  /** The position `SetBitsFromHash` derives for its `i`-th bit:
      `uint32(hash + uint32(i * 0x9e3779b9)) % uint32(size)`. */
  function HashPosition(hash: bv32, i: nat, size: int): (p: int)
    requires size % 0x1_0000_0000 != 0
    ensures 0 <= p < size % 0x1_0000_0000
  {
    var step := (i * 0x9e3779b9) % 0x1_0000_0000;
    var seed := (hash as int + step) % 0x1_0000_0000;
    seed % (size % 0x1_0000_0000)
  }

  /** The positions of the first `n` bits `SetBitsFromHash` sets. */
  function HashPositions(hash: bv32, n: int, size: int): (ps: seq<int>)
    requires size % 0x1_0000_0000 != 0
    ensures |ps| == if n <= 0 then 0 else n
    ensures forall k :: 0 <= k < |ps| ==> ps[k] == HashPosition(hash, k, size)
  {
    if n <= 0 then [] else HashPositions(hash, n - 1, size) + [HashPosition(hash, n - 1, size)]
  }

  class Fingerprint {
    var bits: array<bv64>
    var size: int
    var kind: int

    /** `Size` is positive and `Bits` holds `ceil(Size / 64)` words. */
    predicate Valid()
      reads this
    {
      size > 0 && bits.Length == (size + 63) / 64
    }

    /** `NewFingerprint`: a non-positive size becomes 2048; all bits clear. */
    constructor (requestedSize: int, fingerprintType: int)
      ensures Valid() && fresh(bits)
      ensures size == if requestedSize <= 0 then DefaultSize else requestedSize
      ensures kind == fingerprintType
      ensures forall i :: 0 <= i < bits.Length ==> bits[i] == 0
    {
      var s := if requestedSize <= 0 then DefaultSize else requestedSize;
      size := s;
      kind := fingerprintType;
      bits := new bv64[(s + 63) / 64](_ => 0);
    }

    /** `GetBit`: false outside `[0, Size)`. */
    function GetBit(pos: int): (b: bool)
      reads this, bits
      requires Valid()
      ensures b ==> 0 <= pos < size
    {
      WordsBit(bits[..], size, pos)
    }

    /** `SetBit`: out-of-range positions change nothing; otherwise exactly
        bit `pos` becomes set. */
    method SetBit(pos: int)
      requires Valid()
      modifies bits
      ensures Valid()
      ensures bits[..] == if 0 <= pos < size then SetWordsBit(old(bits[..]), pos) else old(bits[..])
      ensures forall q :: GetBit(q) <==> old(GetBit(q)) || (q == pos && 0 <= pos < size)
    {
      if pos < 0 || pos >= size {
        return;
      }
      var wordIdx := pos / 64;
      var bitIdx := BitIndex(pos);
      bits[wordIdx] := bits[wordIdx] | Mask(bitIdx);
      assert bits[..] == SetWordsBit(old(bits[..]), pos);
      SetWordsBitAll(old(bits[..]), size, pos);
    }

    /** `CountBits`: the population count of all words. */
    method CountBits() returns (count: int)
      requires Valid()
      ensures count == TotalPop(bits[..])
    {
      count := 0;
      var i := 0;
      while i < bits.Length
        invariant 0 <= i <= bits.Length
        invariant count == TotalPop(bits[..i])
      {
        assert bits[..i + 1][..i] == bits[..i];
        count := count + PopCount(bits[i]);
        i := i + 1;
      }
      assert bits[..i] == bits[..];
    }

    /** `SetBitsFromHash`: sets the `numBits` positions derived from the
        hash, and no other bit. Go divides by `uint32(Size)`, which panics
        when that is 0. */
    method SetBitsFromHash(hash: bv32, numBits: int)
      requires Valid() && size % 0x1_0000_0000 != 0
      modifies bits
      ensures Valid()
      ensures forall q :: GetBit(q) <==> old(GetBit(q)) || q in HashPositions(hash, numBits, size)
    {
      var i := 0;
      while i < numBits
        invariant 0 <= i && (i <= numBits || i == 0)
        invariant forall q :: GetBit(q) <==> old(GetBit(q)) || q in HashPositions(hash, i, size)
      {
        var pos := HashPosition(hash, i, size);
        assert HashPositions(hash, i + 1, size) == HashPositions(hash, i, size) + [pos];
        SetBit(pos);
        i := i + 1;
      }
    }

    /** `ToHexString`: 16 hex digits per word. */
    method ToHexString() returns (s: string)
      requires Valid()
      ensures s == HexOfWords(bits[..])
    {
      s := [];
      var i := 0;
      while i < bits.Length
        invariant 0 <= i <= bits.Length
        invariant s == HexOfWords(bits[..i])
      {
        assert bits[..i + 1][..i] == bits[..i];
        var part := WordToHex(bits[i]);
        s := s + part;
        i := i + 1;
      }
      assert bits[..i] == bits[..];
    }
  }

  /** The inner loop of `ToHexString`: the bytes of one word, least
      significant first, two hex digits each. `rest` holds `word >> (k * 8)`. */
  method WordToHex(word: bv64) returns (part: string)
    ensures part == HexOfWord(word)
  {
    var k := 0;
    var rest := word;
    part := [];
    while k < 8
      invariant 0 <= k <= 8
      invariant part + HexOfBytes(LowBytes(rest, 8 - k)) == HexOfWord(word)
    {
      var b := (rest & 0xFF) as bv8;
      var digits := ByteHex(b);
      HexOfLowBytesStep(rest, 7 - k);
      ghost var tail := HexOfBytes(LowBytes(rest >> 8, 7 - k));
      assert HexOfBytes(LowBytes(rest, 8 - k)) == digits + tail;
      assert (part + digits) + tail == part + (digits + tail);
      part := part + digits;
      rest := rest >> 8;
      k := k + 1;
    }
  }

  /** Counting after one `SetBit` on a clear fingerprint gives 1. */
  lemma CountAfterFirstSet(words: seq<bv64>, pos: int)
    requires 0 <= pos && pos / 64 < |words|
    requires forall j :: 0 <= j < |words| ==> words[j] == 0
    ensures TotalPop(SetWordsBit(words, pos)) == 1
  {
    TotalPopZeros(words);
    TotalPopUpdate(words, pos / 64, words[pos / 64] | Mask(BitIndex(pos)));
    PopCountSetBit(0, BitIndex(pos));
    PopBelowClear(64);
  }

  /** One `SetBit` raises the count by one exactly when the bit was clear. */
  lemma CountAfterSet(words: seq<bv64>, size: int, pos: int)
    requires 0 <= pos < size && pos / 64 < |words|
    ensures TotalPop(SetWordsBit(words, pos)) == TotalPop(words) + (if WordsBit(words, size, pos) then 0 else 1)
  {
    SetWordsBitUnfold(words, pos);
    TotalPopUpdate(words, pos / 64, words[pos / 64] | Mask(BitIndex(pos)));
    PopCountSetBit(words[pos / 64], BitIndex(pos));
  }

  /** `HammingDistance`: -1 for prints of different word counts, otherwise
      the number of differing bits. */
  method HammingDistance(fp1: Fingerprint, fp2: Fingerprint) returns (d: int)
    ensures fp1.bits.Length != fp2.bits.Length ==> d == -1
    ensures fp1.bits.Length == fp2.bits.Length ==> d == HammingWords(fp1.bits[..], fp2.bits[..])
  {
    if fp1.bits.Length != fp2.bits.Length {
      return -1;
    }
    d := 0;
    var i := 0;
    while i < fp1.bits.Length
      invariant 0 <= i <= fp1.bits.Length
      invariant d == HammingWords(fp1.bits[..i], fp2.bits[..i])
    {
      assert fp1.bits[..i + 1][..i] == fp1.bits[..i];
      assert fp2.bits[..i + 1][..i] == fp2.bits[..i];
      d := d + PopCount(fp1.bits[i] ^ fp2.bits[i]);
      i := i + 1;
    }
    assert fp1.bits[..i] == fp1.bits[..] && fp2.bits[..i] == fp2.bits[..];
  }
}
