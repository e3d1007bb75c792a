/** The InChIKey and the string-level helpers of the InChI generator
    (molecule/molecule_inchi.go): the hashed key with its base-26 blocks,
    `ValidateInChI` and `CompareInChI`. The SHA-256 digest is a parameter
    of the key: any function from text to bytes. */
module InChIKey {
  import opened Wrappers
  import Text
  import InChI

  type Byte = b: int | 0 <= b < 0x100

  const Alphabet: string := "ABCDEFGHIJKLMNOPQRSTUVWXYZ"

  /** Go's `uint64` arithmetic wraps modulo 2^64. */
  const Word: int := 0x1_0000_0000_0000_0000

  predicate IsLetter(c: char) { 'A' <= c <= 'Z' }

  // ---------------------------------------------------------------------
  // Base-26 encoding (`encodeBase26FromBytes`)

  /** The carry after mixing in the bytes for character `i` from the `j`th
      on: at most ten bytes, taken cyclically from position `i * 10`, each
      shifted in as `carry * 256 + byte` in 64-bit arithmetic. */
  function Mix(carry: int, data: seq<Byte>, i: nat, j: nat): (c: int)
    requires 0 <= carry < Word
    ensures 0 <= c < Word
    decreases 10 - j
  {
    if j >= |data| || j >= 10 then carry
    else Mix((carry * 256 + data[(i * 10 + j) % |data|]) % Word, data, i, j + 1)
  }

  /** Characters `i` to `length - 1`: each is the letter of the mixed carry
      modulo 26, and the carry is divided by 26 before the next one. */
  function Base26From(carry: int, data: seq<Byte>, i: nat, length: nat): (s: string)
    requires 0 <= carry < Word
    ensures |s| == if i <= length then length - i else 0
    ensures forall k :: 0 <= k < |s| ==> IsLetter(s[k])
    decreases length - i
  {
    if i >= length then ""
    else
      var c := Mix(carry, data, i, 0);
      [Alphabet[c % 26]] + Base26From(c / 26, data, i + 1, length)
  }

  /** The encoding of `data` in `length` capital letters. */
  function EncodeBase26(data: seq<Byte>, length: nat): (s: string)
    ensures |s| == length
    ensures forall k :: 0 <= k < |s| ==> IsLetter(s[k])
  {
    Base26From(0, data, 0, length)
  }

  /** `encodeBase26FromBytes`: fills a buffer of `length` letters. */
  method EncodeBase26FromBytes(data: seq<Byte>, length: nat) returns (s: string)
    ensures s == EncodeBase26(data, length)
  {
    var result := new char[length];
    var carry := 0;
    var i := 0;
    while i < length
      invariant 0 <= i <= length
      invariant 0 <= carry < Word
      invariant result[..i] + Base26From(carry, data, i, length) == EncodeBase26(data, length)
    {
      ghost var start := carry;
      var j := 0;
      while j < |data| && j < 10
        invariant 0 <= j <= 10
        invariant 0 <= carry < Word
        invariant Mix(carry, data, i, j) == Mix(start, data, i, 0)
      {
        carry := (carry * 256 + data[(i * 10 + j) % |data|]) % Word;
        j := j + 1;
      }
      ghost var before := result[..i];
      result[i] := Alphabet[carry % 26];
      assert result[..i + 1] == before + [Alphabet[carry % 26]];
      Text.Assoc(before, [Alphabet[carry % 26]], Base26From(carry / 26, data, i + 1, length));
      carry := carry / 26;
      i := i + 1;
    }
    assert result[..length] == result[..];
    s := result[..];
  }

  /** With no bytes the carry stays zero, so every letter is 'A'. */
  lemma {:induction false} EmptyDataAllA(carry: int, i: nat, length: nat)
    requires carry == 0
    ensures forall k :: 0 <= k < |Base26From(carry, [], i, length)| ==> Base26From(carry, [], i, length)[k] == 'A'
    decreases length - i
  {
    if i < length {
      assert Mix(0, [], i, 0) == 0;
      EmptyDataAllA(0, i + 1, length);
    }
  }

  lemma EncodeEmptyData(length: nat)
    ensures EncodeBase26([], length) == seq(length, _ => 'A')
  {
    EmptyDataAllA(0, 0, length);
  }

  // ---------------------------------------------------------------------
  // Splitting the InChI into its main and stereo parts

  const StereoMarkers: seq<string> := ["/b", "/t", "/m", "/s"]

  /** One step of the marker loop: a found index replaces the start when
      there is none yet or it is earlier. */
  function Earlier(start: int, idx: int): int
  {
    if idx != -1 && (start == -1 || idx < start) then idx else start
  }

  function EarliestOf(body: string, markers: seq<string>): int
    decreases |markers|
  {
    if markers == [] then -1
    else Earlier(EarliestOf(body, markers[..|markers| - 1]), Text.Index(body, markers[|markers| - 1]))
  }

  /** The loop finds the first position where any marker occurs, or -1
      when none does. */
  lemma {:induction false} EarliestOfMeaning(body: string, markers: seq<string>)
    ensures EarliestOf(body, markers) == -1 ==>
              forall k, j :: 0 <= k < |markers| && 0 <= j ==> !Text.OccursAt(body, markers[k], j)
    ensures EarliestOf(body, markers) != -1 ==>
              (exists k :: 0 <= k < |markers| && Text.OccursAt(body, markers[k], EarliestOf(body, markers)))
              && forall k, j :: 0 <= k < |markers| && 0 <= j < EarliestOf(body, markers) ==>
                                  !Text.OccursAt(body, markers[k], j)
    decreases |markers|
  {
    if markers != [] {
      var n := |markers| - 1;
      var front := markers[..n];
      EarliestOfMeaning(body, front);
      assert forall k :: 0 <= k < n ==> markers[k] == front[k];
      var idx := Text.Index(body, markers[n]);
      var prev := EarliestOf(body, front);
      if prev != -1 && !(idx != -1 && idx < prev) {
        var k0 :| 0 <= k0 < n && Text.OccursAt(body, front[k0], prev);
        assert Text.OccursAt(body, markers[k0], prev);
      }
    }
  }

  /** `stereoStartIdx`, computed by the marker loop. */
  method StereoStart(body: string) returns (start: int)
    ensures start == StereoStartOf(body)
  {
    start := -1;
    for k := 0 to |StereoMarkers|
      invariant start == EarliestOf(body, StereoMarkers[..k])
    {
      var idx := Text.Index(body, StereoMarkers[k]);
      if idx != -1 && (start == -1 || idx < start) {
        start := idx;
      }
      assert StereoMarkers[..k + 1][..k] == StereoMarkers[..k];
    }
    assert StereoMarkers[..|StereoMarkers|] == StereoMarkers;
  }

  /** Where the stereo part starts, or -1. */
  function StereoStartOf(body: string): (k: int)
    ensures k == -1 || 0 <= k < |body|
  {
    EarliestOfMeaning(body, StereoMarkers);
    EarliestOf(body, StereoMarkers)
  }

  function MainPart(body: string): string
  {
    var k := StereoStartOf(body);
    if k == -1 then body else body[..k]
  }

  function StereoPart(body: string): string
  {
    var k := StereoStartOf(body);
    if k == -1 then "" else body[k..]
  }

  /** The two parts split the body; the stereo part is empty exactly when
      no marker occurs, and otherwise starts with a marker; no marker
      occurs in the main part. */
  lemma SplitParts(body: string)
    ensures MainPart(body) + StereoPart(body) == body
    ensures StereoPart(body) == "" <==>
              forall k, j :: 0 <= k < |StereoMarkers| && 0 <= j ==> !Text.OccursAt(body, StereoMarkers[k], j)
    ensures StereoPart(body) != "" ==>
              exists k :: 0 <= k < |StereoMarkers| && Text.HasPrefix(StereoPart(body), StereoMarkers[k])
    ensures forall k, j :: 0 <= k < |StereoMarkers| && 0 <= j ==> !Text.OccursAt(MainPart(body), StereoMarkers[k], j)
  {
    EarliestOfMeaning(body, StereoMarkers);
    var s := StereoStartOf(body);
    if s != -1 {
      StereoStartsWithMarker(body);
      MainHasNoMarker(body, s);
    }
  }

  lemma StereoStartsWithMarker(body: string)
    requires StereoStartOf(body) != -1
    ensures exists k :: 0 <= k < |StereoMarkers| && Text.HasPrefix(StereoPart(body), StereoMarkers[k])
  {
    EarliestOfMeaning(body, StereoMarkers);
    var s := StereoStartOf(body);
    var k0 :| 0 <= k0 < |StereoMarkers| && Text.OccursAt(body, StereoMarkers[k0], s);
    assert Text.HasPrefix(StereoPart(body), StereoMarkers[k0]) by {
      assert body[s..][..|StereoMarkers[k0]|] == body[s..s + |StereoMarkers[k0]|];
    }
  }

  lemma MainHasNoMarker(body: string, s: int)
    requires s == StereoStartOf(body) != -1
    ensures forall k, j :: 0 <= k < |StereoMarkers| && 0 <= j ==> !Text.OccursAt(MainPart(body), StereoMarkers[k], j)
  {
    EarliestOfMeaning(body, StereoMarkers);
    var main := body[..s];
    assert MainPart(body) == main;
    forall k, j | 0 <= k < |StereoMarkers| && 0 <= j
      ensures !Text.OccursAt(main, StereoMarkers[k], j)
    {
      var m := StereoMarkers[k];
      if j + |m| <= |main| {
        assert main[j..j + |m|] == body[j..j + |m|];
        assert !Text.OccursAt(body, m, j);
      }
    }
  }

  // ---------------------------------------------------------------------
  // The key (`GenerateInChIKey`)

  /** The version flag: 'N' for a non-standard "1/" body, 'S' otherwise. */
  function Version(body: string): char
  {
    if Text.HasPrefix(body, "1S/") then 'S'
    else if Text.HasPrefix(body, "1/") then 'N'
    else 'S'
  }

  /** The block written when there is no stereo part. */
  const NoStereoBlock: string := "UHFFFAOYSA"

  lemma NoStereoBlockLetters()
    ensures |NoStereoBlock| == 10 && forall i :: 0 <= i < 10 ==> IsLetter(NoStereoBlock[i])
  {
  }

  /** Nine letters for a stereo part, the fixed "no stereo" block otherwise. */
  function StereoBlock(stereo: string, hash: string -> seq<Byte>): (b: string)
    ensures |b| == if stereo == "" then 10 else 9
    ensures forall i :: 0 <= i < |b| ==> IsLetter(b[i])
  {
    NoStereoBlockLetters();
    if stereo != "" then EncodeBase26(hash(stereo), 9) else NoStereoBlock
  }

  /** `fmt.Sprintf("%s-%s-%s%s", ...)` with the protonation flag 'A'. */
  function Assemble(first: string, second: string, version: char): string
  {
    first + "-" + second + "-" + [version, 'A']
  }

  /** Where each piece sits in the assembled key. */
  lemma AssembleShape(first: string, second: string, version: char)
    ensures var key := Assemble(first, second, version);
            && |key| == |first| + |second| + 4
            && key[..|first| + 1] == first + "-"
            && (forall i :: 0 <= i < |first| ==> key[i] == first[i])
            && key[|first|] == '-'
            && (forall i :: |first| + 1 <= i < |key| - 3 ==> key[i] == second[i - |first| - 1])
            && key[|key| - 3] == '-' && key[|key| - 2] == version && key[|key| - 1] == 'A'
  {
  }

  /** The key of an InChI, or why there is none. */
  function KeyOf(inchi: string, hash: string -> seq<Byte>): Result<string>
  {
    if inchi == "" then Err("empty InChI string")
    else if !Text.HasPrefix(inchi, "InChI=") then Err("invalid InChI format: missing 'InChI=' prefix")
    else
      var body := Text.TrimPrefix(inchi, "InChI=");
      Ok(Assemble(EncodeBase26(hash(MainPart(body)), 14), StereoBlock(StereoPart(body), hash), Version(body)))
  }

  /** `GenerateInChIKey`, with the digest as a parameter. */
  method GenerateInChIKey(inchi: string, hash: string -> seq<Byte>) returns (r: Result<string>)
    ensures r == KeyOf(inchi, hash)
  {
    if inchi == "" {
      return Err("empty InChI string");
    }
    if !Text.HasPrefix(inchi, "InChI=") {
      return Err("invalid InChI format: missing 'InChI=' prefix");
    }
    var body := Text.TrimPrefix(inchi, "InChI=");
    var version := 'S';
    var protonation := 'A';
    if Text.HasPrefix(body, "1S/") {
      version := 'S';
    } else if Text.HasPrefix(body, "1/") {
      version := 'N';
    }
    var mainPart := body;
    var stereoPart := "";
    var start := StereoStart(body);
    if start != -1 {
      mainPart := body[..start];
      stereoPart := body[start..];
    }
    var connectivityBlock := EncodeBase26FromBytes(hash(mainPart), 14);
    var stereoBlock;
    if stereoPart != "" {
      stereoBlock := EncodeBase26FromBytes(hash(stereoPart), 9);
    } else {
      stereoBlock := NoStereoBlock;
    }
    r := Ok(connectivityBlock + "-" + stereoBlock + "-" + [version, protonation]);
    assert version == Version(body);
  }

  /** A key is refused exactly for an empty string or a missing "InChI="
      prefix. */
  lemma KeyErrors(inchi: string, hash: string -> seq<Byte>)
    ensures KeyOf(inchi, hash).Err? <==> inchi == "" || !Text.HasPrefix(inchi, "InChI=")
    ensures inchi == "" ==> KeyOf(inchi, hash) == Err("empty InChI string")
  {
  }

  /** The flag is 'N' exactly for a "1/" body. */
  lemma VersionMeaning(body: string)
    ensures Version(body) == 'N' <==> Text.HasPrefix(body, "1/")
  {
    if Text.HasPrefix(body, "1S/") {
      assert body[1] == 'S';
    }
  }

  /** The shape of a key: 14 letters, a dash, a stereo block of 9 letters
      (10 when the body has no stereo marker), a dash, the version flag and
      'A'. */
  lemma KeyShape(inchi: string, hash: string -> seq<Byte>)
    requires KeyOf(inchi, hash).Ok?
    ensures var key := KeyOf(inchi, hash).value;
            var body := Text.TrimPrefix(inchi, "InChI=");
            && (forall i :: 0 <= i < 14 ==> IsLetter(key[i]))
            && key[14] == '-'
            && (|key| == 28 <==> forall k, j :: 0 <= k < |StereoMarkers| && 0 <= j ==> !Text.OccursAt(body, StereoMarkers[k], j))
            && (|key| == 27 || |key| == 28)
            && (forall i :: 15 <= i < |key| - 3 ==> IsLetter(key[i]))
            && key[|key| - 3] == '-'
            && (key[|key| - 2] == 'N' <==> Text.HasPrefix(body, "1/"))
            && key[|key| - 1] == 'A'
  {
    var body := Text.TrimPrefix(inchi, "InChI=");
    SplitParts(body);
    VersionMeaning(body);
    var a := EncodeBase26(hash(MainPart(body)), 14);
    var b := StereoBlock(StereoPart(body), hash);
    AssembleShape(a, b, Version(body));
  }

  /** Two InChIs whose bodies share the main part share the first block:
      stereo layers only change the second block. */
  lemma SameMainSameFirstBlock(inchi1: string, inchi2: string, hash: string -> seq<Byte>)
    requires KeyOf(inchi1, hash).Ok? && KeyOf(inchi2, hash).Ok?
    requires MainPart(Text.TrimPrefix(inchi1, "InChI=")) == MainPart(Text.TrimPrefix(inchi2, "InChI="))
    ensures KeyOf(inchi1, hash).value[..15] == KeyOf(inchi2, hash).value[..15]
  {
    var body1, body2 := Text.TrimPrefix(inchi1, "InChI="), Text.TrimPrefix(inchi2, "InChI=");
    var a := EncodeBase26(hash(MainPart(body1)), 14);
    AssembleShape(a, StereoBlock(StereoPart(body1), hash), Version(body1));
    AssembleShape(a, StereoBlock(StereoPart(body2), hash), Version(body2));
  }

  // ---------------------------------------------------------------------
  // Validation and comparison

  /** `ValidateInChI`: the "InChI=" prefix and at least two slash-separated
      parts. */
  function ValidateInChI(inchi: string): bool
  {
    Text.HasPrefix(inchi, "InChI=") && |Text.Split(inchi, '/')| >= 2
  }

  /** Valid exactly when the prefix is there and a slash occurs. */
  lemma ValidateMeaning(inchi: string)
    ensures ValidateInChI(inchi) <==> Text.HasPrefix(inchi, "InChI=") && '/' in inchi
  {
    Text.SplitTwoParts(inchi, '/');
  }

  /** What the generator writes is valid whenever its prefix starts with
      "InChI=" and the formula layer is not empty. */
  lemma GeneratedIsValid(prefix: string, l: InChI.InChILayers)
    requires Text.HasPrefix(prefix, "InChI=") && l.formula != ""
    ensures ValidateInChI(InChI.InChIText(prefix, l))
  {
    var s := InChI.InChIText(prefix, l);
    var rest := InChI.Layer("", l.formula) + InChI.Layer("c", l.connectivity) + InChI.Layer("h", l.hydrogen)
                + InChI.Layer("b", l.cistrans) + InChI.Layer("t", l.tetrahedral) + InChI.StereoLayers(l);
    assert s == prefix + rest by {
      Text.Assoc(prefix, InChI.Layer("", l.formula), InChI.Layer("c", l.connectivity));
      Text.Assoc(prefix, InChI.Layer("", l.formula) + InChI.Layer("c", l.connectivity), InChI.Layer("h", l.hydrogen));
      Text.Assoc(prefix, InChI.Layer("", l.formula) + InChI.Layer("c", l.connectivity) + InChI.Layer("h", l.hydrogen),
                 InChI.Layer("b", l.cistrans));
      Text.Assoc(prefix, InChI.Layer("", l.formula) + InChI.Layer("c", l.connectivity) + InChI.Layer("h", l.hydrogen)
                         + InChI.Layer("b", l.cistrans), InChI.Layer("t", l.tetrahedral));
      Text.Assoc(prefix, InChI.Layer("", l.formula) + InChI.Layer("c", l.connectivity) + InChI.Layer("h", l.hydrogen)
                         + InChI.Layer("b", l.cistrans) + InChI.Layer("t", l.tetrahedral), InChI.StereoLayers(l));
    }
    assert rest[0] == '/';
    assert s[|prefix|] == '/';
    assert s[..|"InChI="|] == prefix[..|"InChI="|];
    ValidateMeaning(s);
  }

  /** Both version prefixes are removed before comparing. */
  function Normalize(inchi: string): string
  {
    Text.TrimPrefix(Text.TrimPrefix(inchi, "InChI=1S/"), "InChI=1/")
  }

  /** `CompareInChI`: 0, -1 or 1 by byte order of the normalised strings. */
  function CompareInChI(inchi1: string, inchi2: string): int
  {
    var n1, n2 := Normalize(inchi1), Normalize(inchi2);
    if n1 == n2 then 0 else if Text.LexLess(n1, n2) then -1 else 1
  }

  /** The comparison is three-valued, zero exactly for equal normal forms,
      and swapping the arguments negates it. */
  lemma CompareIsOrder(a: string, b: string)
    ensures CompareInChI(a, b) in {-1, 0, 1}
    ensures CompareInChI(a, b) == 0 <==> Normalize(a) == Normalize(b)
    ensures CompareInChI(a, b) == -CompareInChI(b, a)
  {
    var n1, n2 := Normalize(a), Normalize(b);
    if n1 != n2 {
      Text.LexLessTotal(n1, n2);
      if Text.LexLess(n1, n2) && Text.LexLess(n2, n1) {
        Text.LexLessTransitive(n1, n2, n1);
        Text.LexLessIrreflexive(n1);
      }
    }
  }

  /** "Less than" is transitive. */
  lemma CompareTransitive(a: string, b: string, c: string)
    requires CompareInChI(a, b) == -1 && CompareInChI(b, c) == -1
    ensures CompareInChI(a, c) == -1
  {
    var na, nb, nc := Normalize(a), Normalize(b), Normalize(c);
    Text.LexLessTransitive(na, nb, nc);
    if na == nc {
      Text.LexLessTransitive(nb, nc, nb);
      Text.LexLessIrreflexive(nb);
    }
  }

  /** The standard and non-standard prefixes of the same body compare
      equal, unless the body itself starts with "InChI=1/". */
  lemma VersionIgnored(x: string)
    requires !Text.HasPrefix(x, "InChI=1/")
    ensures CompareInChI("InChI=1S/" + x, "InChI=1/" + x) == 0
  {
    var s, n := "InChI=1S/" + x, "InChI=1/" + x;
    assert s[..|"InChI=1S/"|] == "InChI=1S/";
    assert Text.TrimPrefix(s, "InChI=1S/") == x;
    assert n[7] == '/';
    assert !Text.HasPrefix(n, "InChI=1S/");
    assert n[..|"InChI=1/"|] == "InChI=1/";
    assert Text.TrimPrefix(n, "InChI=1/") == x;
  }
}
