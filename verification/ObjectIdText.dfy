/**
 * Object IDs as text: the z-base-32 form of Size and Hash behind a prefix, and the parser
 * with the decoder of RFC 4648 section 6 beneath it, which skips line breaks and reads a
 * tail of '=' as padding.
 */
module ObjectIdText {
  import opened Wrappers
  import opened Bytes
  import opened Bits

  const ALPHABET := "ybndrfg8ejkmcpqxot1uwisza345h769"
  const FULL_PREFIX := "data1"
  const PARTIAL_PREFIX := "data0"
  const FULL_BODY: nat := 64
  const PARTIAL_BODY: nat := 52
  const IMAGE: nat := 40
  const FIVE: nat := 5
  const OCTET: nat := 8
  const SIZE_BYTES: nat := 8

  datatype ObjectID = ObjectID(size: nat, hash: seq<byte>)

  predicate ValidId(id: ObjectID) { id.size < Pow256(SIZE_BYTES) && |id.hash| == 32 }

  /** The 40 bytes of the binary form. */
  function Image(id: ObjectID): seq<byte> { BE(SIZE_BYTES, id.size) + id.hash }

  // ---------------------------------------------------------------- the encoder

  /** The place of a character in the alphabet, 32 when it has none. */
  function Digit(c: char): (d: nat)
    ensures d <= 32
  {
    match c
    case 'y' => 0 case 'b' => 1 case 'n' => 2 case 'd' => 3 case 'r' => 4 case 'f' => 5 case 'g' => 6 case '8' => 7
    case 'e' => 8 case 'j' => 9 case 'k' => 10 case 'm' => 11 case 'c' => 12 case 'p' => 13 case 'q' => 14 case 'x' => 15
    case 'o' => 16 case 't' => 17 case '1' => 18 case 'u' => 19 case 'w' => 20 case 'i' => 21 case 's' => 22 case 'z' => 23
    case 'a' => 24 case '3' => 25 case '4' => 26 case '5' => 27 case 'h' => 28 case '7' => 29 case '6' => 30 case '9' => 31
    case _ => 32
  }

  function Letter(d: nat): (c: char)
    ensures d < 32 ==> Digit(c) == d && c == ALPHABET[d]
  {
    if d < 32 then ALPHABET[d] else '='
  }

  lemma LetterOfDigit(c: char)
    requires Digit(c) < 32
    ensures Letter(Digit(c)) == c
  {
  }

  function Letters(ns: seq<nat>): (s: string)
    ensures |s| == |ns| && forall i :: 0 <= i < |ns| ==> s[i] == Letter(ns[i])
  {
    seq(|ns|, i requires 0 <= i < |ns| => Letter(ns[i]))
  }

  function Digits(s: string): (ns: seq<nat>)
    ensures |ns| == |s| && forall i :: 0 <= i < |s| ==> ns[i] == Digit(s[i])
  {
    seq(|s|, i requires 0 <= i < |s| => Digit(s[i]))
  }

  /** Base-32 of a whole number of five-byte groups, which needs no padding. */
  function Encode32(b: seq<byte>): string { Letters(Group(FIVE, Spread(OCTET, b))) }

  /** `strings.TrimLeft(s, "y")`. */
  function TrimLeft(s: string): (t: string)
    ensures |t| <= |s| && (t == [] || t[0] != 'y')
  {
    if s != [] && s[0] == 'y' then TrimLeft(s[1..]) else s
  }

  function Zeros(n: nat): string { seq(n, _ => 'y') }

  function String(id: ObjectID): string { FULL_PREFIX + TrimLeft(Encode32(Image(id))) }

  function PartialString(id: ObjectID): string {
    var enc := Encode32(Image(id.(size := 0)));
    PARTIAL_PREFIX + if |enc| >= 12 then enc[12..] else []
  }

  // ---------------------------------------------------------------- the decoder

  function Unbroken(s: string): (t: string)
    ensures |t| <= |s|
  {
    if s == [] then [] else (if s[0] == '\n' || s[0] == '\r' then [] else [s[0]]) + Unbroken(s[1..])
  }

  /** How a quantum of eight characters ends: full, at padding after `used` characters, or not at all. */
  datatype Quantum = Full | Padded(used: nat) | Corrupt

  /** A quantum at the front of `s`, read from its j-th character on. */
  function Scan(s: string, j: nat): (q: Quantum)
    requires j <= 8 && j <= |s|
    ensures q.Full? ==> 8 <= |s| && forall i :: j <= i < 8 ==> Digit(s[i]) < 32
    ensures q.Padded? ==> j <= q.used < 8 <= |s| && forall i :: j <= i < q.used ==> Digit(s[i]) < 32
    decreases 8 - j
  {
    if j == 8 then Full
    else if j == |s| then Corrupt
    else
      var after := s[j + 1..];
      if s[j] == '=' && j >= 2 && |after| < 8 then
        if |after| + j < 7 then Corrupt
        else if exists k :: 0 <= k < 7 - j && k < |after| && after[k] != '=' then Corrupt
        else if j == 3 || j == 6 then Corrupt
        else Padded(j)
      else if Digit(s[j]) == 32 then Corrupt
      else Scan(s, j + 1)
  }

  /** The bytes that the digits of `s` spell; bits short of a byte are dropped. */
  function Spell(s: string): (b: seq<byte>)
  {
    GroupBelow(OCTET, Spread(FIVE, Digits(s)));
    assert Pow2(4) == 16 && Pow2(OCTET) == 256;
    Group(OCTET, Spread(FIVE, Digits(s)))
  }

  function Decode32(s: string): Option<seq<byte>>
    decreases |s|
  {
    if s == [] then Some([])
    else
      match Scan(s, 0)
      case Corrupt => None
      case Padded(n) => Some(Spell(s[..n]))
      case Full =>
        match Decode32(s[8..])
        case None => None
        case Some(b) => Some(Spell(s[..8]) + b)
  }

  function DecodeId(s: string): Option<ObjectID> {
    match Decode32(Unbroken(s))
    case None => None
    case Some(b) => if |b| != IMAGE then None else Some(ObjectID(FromBE(b[..8]), b[8..]))
  }

  function ParseFull(body: string): Option<ObjectID> {
    if |body| > FULL_BODY then None else DecodeId(Zeros(FULL_BODY - |body|) + body)
  }

  function ParsePartial(body: string): Option<ObjectID> {
    if |body| != PARTIAL_BODY then None
    else if body[0] != 'y' && body[0] != 'b' then None
    else
      match DecodeId(Zeros(FULL_BODY - PARTIAL_BODY) + body)
      case None => None
      case Some(id) => if id.size != 0 then None else Some(id)
  }

  function ParseID(s: string): Option<ObjectID> {
    if FULL_PREFIX <= s then ParseFull(s[|FULL_PREFIX|..])
    else if PARTIAL_PREFIX <= s then ParsePartial(s[|PARTIAL_PREFIX|..])
    else None
  }

  // ---------------------------------------------------------------- what the decoder accepts

  ghost predicate InAlphabet(s: string) { forall i :: 0 <= i < |s| ==> Digit(s[i]) < 32 }

  lemma SpellLength(s: string)
    requires |s| <= 8
    ensures |Spell(s)| <= 5 && (|s| < 8 ==> |Spell(s)| < 5) && (|s| == 8 ==> |Spell(s)| == 5)
  {
    TimesIs(FIVE, |s|);
    GroupCount(OCTET, Spread(FIVE, Digits(s)));
  }

  lemma {:induction false} GroupCount(w: nat, b: seq<bool>)
    requires w == 8
    ensures |Group(w, b)| == |b| / 8
    decreases |b|
  {
    if |b| >= w {
      GroupCount(w, b[w..]);
    }
  }

  /** Every 8 characters give at most 5 bytes, and exactly 5 only if all of them are letters. */
  lemma {:induction false} DecodeYield(s: string)
    requires Decode32(s).Some?
    ensures 8 * |Decode32(s).value| <= 5 * |s|
    ensures 8 * |Decode32(s).value| == 5 * |s| ==> InAlphabet(s)
    decreases |s|
  {
    if s != [] {
      match Scan(s, 0)
      case Full =>
        SpellLength(s[..8]);
        DecodeYield(s[8..]);
        assert s == s[..8] + s[8..];
      case Padded(n) => SpellLength(s[..n]);
    }
  }

  lemma {:induction false} ScanLetters(s: string, j: nat)
    requires j <= 8 <= |s| && InAlphabet(s)
    ensures Scan(s, j) == Full
    decreases 8 - j
  {
    if j < 8 {
      ScanLetters(s, j + 1);
    }
  }

  /** Whole quanta of letters spell what they would spell together. */
  lemma {:induction false} DecodeLetters(s: string, n: nat)
    requires InAlphabet(s) && |s| == 8 * n
    ensures Decode32(s) == Some(Spell(s))
    decreases n
  {
    if n > 0 {
      ScanLetters(s, 0);
      DecodeLetters(s[8..], n - 1);
      SpellSplit(s);
    } else {
      assert Spell([]) == [];
    }
  }

  lemma SpellSplit(s: string)
    requires |s| >= 8
    ensures Spell(s) == Spell(s[..8]) + Spell(s[8..])
  {
    var a, b := Digits(s[..8]), Digits(s[8..]);
    assert Digits(s) == a + b;
    SpreadConcat(FIVE, a, b);
    TimesIs(FIVE, 8);
    TimesIs(OCTET, 5);
    GroupConcat(OCTET, Spread(FIVE, a), Spread(FIVE, b), 5);
  }

  lemma {:induction false} SpreadConcat(w: nat, a: seq<nat>, b: seq<nat>)
    ensures Spread(w, a + b) == Spread(w, a) + Spread(w, b)
    decreases |a|
  {
    if a == [] {
      assert a + b == b;
    } else {
      assert (a + b)[1..] == a[1..] + b;
      SpreadConcat(w, a[1..], b);
    }
  }

  lemma {:induction false} GroupConcat(w: nat, a: seq<bool>, b: seq<bool>, n: nat)
    requires w > 0 && |a| == Times(w, n)
    ensures Group(w, a + b) == Group(w, a) + Group(w, b)
    decreases n
  {
    if n == 0 {
      assert a + b == b;
    } else {
      assert (a + b)[..w] == a[..w] && (a + b)[w..] == a[w..] + b;
      GroupConcat(w, a[w..], b, n - 1);
    }
  }

  lemma {:induction false} UnbrokenLetters(s: string)
    ensures |Unbroken(s)| == |s| ==> Unbroken(s) == s
    ensures InAlphabet(s) ==> Unbroken(s) == s
    decreases |s|
  {
    if s != [] {
      UnbrokenLetters(s[1..]);
      assert s == [s[0]] + s[1..];
    }
  }

  /** A padded body decodes exactly when all of its 64 characters are letters. */
  lemma DecodeExact(s: string)
    requires |s| == FULL_BODY
    ensures DecodeId(s).Some? <==> InAlphabet(s)
    ensures InAlphabet(s) ==> Decode32(Unbroken(s)) == Some(Spell(s)) && |Spell(s)| == IMAGE
  {
    var t := Unbroken(s);
    UnbrokenLetters(s);
    if Decode32(t).Some? {
      DecodeYield(t);
    }
    if InAlphabet(s) {
      DecodeLetters(s, 8);
      TimesIs(FIVE, FULL_BODY);
      GroupCount(OCTET, Spread(FIVE, Digits(s)));
    }
  }

  // ---------------------------------------------------------------- text and bytes are inverse

  function FromImage(b: seq<byte>): ObjectID
    requires |b| == IMAGE
  {
    ObjectID(FromBE(b[..8]), b[8..])
  }

  lemma ImageInverse(id: ObjectID, b: seq<byte>)
    ensures ValidId(id) ==> |Image(id)| == IMAGE && FromImage(Image(id)) == id
    ensures |b| == IMAGE ==> Image(FromImage(b)) == b && ValidId(FromImage(b))
  {
    if ValidId(id) {
      assert Image(id)[..8] == BE(SIZE_BYTES, id.size) && Image(id)[8..] == id.hash;
      FromBEOfBE(SIZE_BYTES, id.size);
    }
    if |b| == IMAGE {
      BEOfFromBE(b[..8]);
      assert b == b[..8] + b[8..];
    }
  }

  lemma DigitsOfLetters(ns: seq<nat>)
    requires Below(ns, 32)
    ensures Digits(Letters(ns)) == ns && InAlphabet(Letters(ns))
  {
  }

  lemma LettersOfDigits(s: string)
    requires InAlphabet(s)
    ensures Letters(Digits(s)) == s && Below(Digits(s), 32)
  {
    forall i | 0 <= i < |s|
      ensures Letter(Digits(s)[i]) == s[i]
    {
      LetterOfDigit(s[i]);
    }
  }

  lemma Powers()
    ensures Pow2(FIVE) == 32 && Pow2(OCTET) == 256
  {
    assert Pow2(4) == 16 && Pow2(5) == 32 && Pow2(8) == 8 * Pow2(5);
  }

  lemma SpellOfEncode(b: seq<byte>)
    requires |b| == IMAGE
    ensures |Encode32(b)| == FULL_BODY && InAlphabet(Encode32(b)) && Spell(Encode32(b)) == b
  {
    var bits := Spread(OCTET, b);
    TimesIs(OCTET, IMAGE);
    TimesIs(FIVE, FULL_BODY);
    GroupLength(FIVE, bits, FULL_BODY);
    SpreadOfGroup(FIVE, bits, FULL_BODY);
    GroupBelow(FIVE, bits);
    Powers();
    DigitsOfLetters(Group(FIVE, bits));
    GroupOfSpread(OCTET, b);
  }

  lemma EncodeOfSpell(s: string)
    requires |s| == FULL_BODY && InAlphabet(s)
    ensures Encode32(Spell(s)) == s
  {
    var bits := Spread(FIVE, Digits(s));
    TimesIs(FIVE, FULL_BODY);
    TimesIs(OCTET, IMAGE);
    SpreadOfGroup(OCTET, bits, IMAGE);
    LettersOfDigits(s);
    Powers();
    GroupOfSpread(FIVE, Digits(s));
  }

  lemma {:induction false} PadOfTrim(s: string)
    ensures Zeros(|s| - |TrimLeft(s)|) + TrimLeft(s) == s
  {
    if s != [] && s[0] == 'y' {
      PadOfTrim(s[1..]);
      assert s == ['y'] + s[1..];
      assert Zeros(|s| - |TrimLeft(s)|) == ['y'] + Zeros(|s[1..]| - |TrimLeft(s)|);
    }
  }

  lemma {:induction false} TrimOfPad(n: nat, s: string)
    ensures TrimLeft(Zeros(n) + s) == TrimLeft(s)
  {
    if n == 0 {
      assert Zeros(n) + s == s;
    } else {
      assert (Zeros(n) + s)[1..] == Zeros(n - 1) + s;
      TrimOfPad(n - 1, s);
    }
  }

  lemma {:induction false} TrimLetters(s: string)
    requires InAlphabet(s)
    ensures InAlphabet(TrimLeft(s))
  {
    if s != [] && s[0] == 'y' {
      TrimLetters(s[1..]);
    }
  }

  lemma Prefixed(body: string)
    ensures ParseID(FULL_PREFIX + body) == ParseFull(body) && ParseID(PARTIAL_PREFIX + body) == ParsePartial(body)
  {
    assert (FULL_PREFIX + body)[|FULL_PREFIX|..] == body && (PARTIAL_PREFIX + body)[|PARTIAL_PREFIX|..] == body;
    assert (PARTIAL_PREFIX + body)[4] == '0' && FULL_PREFIX[4] == '1';
  }

  /** Every ID, the zero one included, comes back from its text. */
  lemma ParseString(id: ObjectID)
    requires ValidId(id)
    ensures ParseID(String(id)) == Some(id)
  {
    var enc := Encode32(Image(id));
    ImageInverse(id, Image(id));
    SpellOfEncode(Image(id));
    Prefixed(TrimLeft(enc));
    PadOfTrim(enc);
    DecodeExact(enc);
  }

  /** A data1 body parses exactly when it has at most 64 letters, and prints without its leading zeros. */
  lemma ParseFullExact(body: string)
    ensures ParseID(FULL_PREFIX + body).Some? <==> |body| <= FULL_BODY && InAlphabet(body)
    ensures var r := ParseID(FULL_PREFIX + body);
            r.Some? ==> ValidId(r.value) && String(r.value) == FULL_PREFIX + TrimLeft(body)
  {
    Prefixed(body);
    if |body| <= FULL_BODY {
      var z := FULL_BODY - |body|;
      PaddedExact(body, z, Zeros(z) + body);
    }
  }

  lemma PaddedExact(body: string, z: nat, s: string)
    requires z + |body| == FULL_BODY && s == Zeros(z) + body
    ensures DecodeId(s).Some? <==> InAlphabet(body)
    ensures InAlphabet(body) ==> ValidId(DecodeId(s).value) && String(DecodeId(s).value) == FULL_PREFIX + TrimLeft(body)
  {
    PaddedLetters(z, body);
    DecodeExact(s);
    if InAlphabet(body) {
      StringOfDecoded(s);
      TrimOfPad(z, body);
    }
  }

  lemma StringOfDecoded(s: string)
    requires |s| == FULL_BODY && InAlphabet(s)
    ensures var r := DecodeId(s); r.Some? && ValidId(r.value) && String(r.value) == FULL_PREFIX + TrimLeft(s)
  {
    DecodeExact(s);
    EncodeOfSpell(s);
    ImageInverse(FromImage(Spell(s)), Spell(s));
  }

  lemma PaddedLetters(n: nat, body: string)
    ensures InAlphabet(Zeros(n) + body) <==> InAlphabet(body)
  {
    var s := Zeros(n) + body;
    if InAlphabet(s) {
      forall i | 0 <= i < |body|
        ensures Digit(body[i]) < 32
      {
        assert s[n + i] == body[i];
      }
    }
  }

  /** Two bodies name one ID exactly when they agree after their leading zeros. */
  lemma SameId(a: string, b: string)
    requires ParseID(FULL_PREFIX + a).Some? && ParseID(FULL_PREFIX + b).Some?
    ensures ParseID(FULL_PREFIX + a) == ParseID(FULL_PREFIX + b) <==> TrimLeft(a) == TrimLeft(b)
  {
    ParseFullExact(a);
    ParseFullExact(b);
    var x, y := ParseID(FULL_PREFIX + a).value, ParseID(FULL_PREFIX + b).value;
    if x == y {
      assert (FULL_PREFIX + TrimLeft(a))[|FULL_PREFIX|..] == TrimLeft(a);
      assert (FULL_PREFIX + TrimLeft(b))[|FULL_PREFIX|..] == TrimLeft(b);
    }
    if TrimLeft(a) == TrimLeft(b) {
      ParseString(x);
      ParseString(y);
    }
  }

  // ---------------------------------------------------------------- the partial form

  /** The first 64 bits of an image, those of Size. */
  ghost predicate NoSize(bits: seq<bool>) { |bits| == 320 && forall i :: 0 <= i < 64 ==> !bits[i] }

  lemma {:induction false} NumOfZeros(b: seq<bool>)
    requires forall i :: 0 <= i < |b| ==> !b[i]
    ensures NumOf(b) == 0
  {
    if b != [] {
      NumOfZeros(b[..|b| - 1]);
    }
  }

  lemma {:induction false} BEZero(w: nat)
    ensures forall i :: 0 <= i < w ==> BE(w, 0)[i] == 0
  {
    if w > 0 {
      BEZero(w - 1);
    }
  }

  lemma SizelessBits(b: seq<nat>)
    requires |b| == IMAGE && forall k :: 0 <= k < 8 ==> b[k] == 0
    ensures NoSize(Spread(OCTET, b))
  {
    TimesIs(OCTET, IMAGE);
    forall i | 0 <= i < 64
      ensures !Spread(OCTET, b)[i]
    {
      TimesIs(OCTET, i / 8);
      SpreadAt(OCTET, b, i / 8, i % 8);
      HighBitsClear(b[i / 8], 7 - i % 8);
    }
  }

  /** Without Size bits the first 12 characters are zeros and the next is one of the first two letters. */
  lemma SizelessLetters(bits: seq<bool>)
    requires NoSize(bits)
    ensures |Group(FIVE, bits)| == FULL_BODY
    ensures forall k :: 0 <= k < 12 ==> Group(FIVE, bits)[k] == 0
    ensures Group(FIVE, bits)[12] <= 1
  {
    TimesIs(FIVE, FULL_BODY);
    GroupLength(FIVE, bits, FULL_BODY);
    forall k | 0 <= k < 12
      ensures Group(FIVE, bits)[k] == 0
    {
      TimesIs(FIVE, k);
      GroupAt(FIVE, bits, k);
      NumOfZeros(bits[5 * k..5 * k + 5]);
    }
    TimesIs(FIVE, 12);
    GroupAt(FIVE, bits, 12);
    var last := bits[60..65];
    NumOfZeros(last[..4]);
  }

  lemma ShapeOfLetters(ns: seq<nat>)
    requires |ns| == FULL_BODY && ns[12] <= 1 && forall k :: 0 <= k < 12 ==> ns[k] == 0
    ensures Letters(ns) == Zeros(12) + Letters(ns)[12..] && (Letters(ns)[12] == 'y' || Letters(ns)[12] == 'b')
  {
    FirstTwo(Letter(ns[12]));
    forall k | 0 <= k < 12
      ensures Letters(ns)[k] == 'y'
    {
      assert ns[k] == 0;
    }
  }

  lemma PartialShape(hash: seq<byte>)
    requires |hash| == 32
    ensures var enc := Encode32(Image(ObjectID(0, hash)));
            |enc| == FULL_BODY && InAlphabet(enc) && enc == Zeros(12) + enc[12..] && (enc[12] == 'y' || enc[12] == 'b')
  {
    var bits := Spread(OCTET, Image(ObjectID(0, hash)));
    SpellOfEncode(Image(ObjectID(0, hash)));
    BEZero(SIZE_BYTES);
    SizelessBits(Image(ObjectID(0, hash)));
    SizelessLetters(bits);
    ShapeOfLetters(Group(FIVE, bits));
  }

  /** Every hash comes back from its partial text, with Size 0. */
  lemma ParsePartialString(id: ObjectID)
    requires ValidId(id)
    ensures ParseID(PartialString(id)) == Some(ObjectID(0, id.hash))
  {
    var zero := ObjectID(0, id.hash);
    var enc := Encode32(Image(zero));
    ImageInverse(zero, Image(zero));
    SpellOfEncode(Image(zero));
    PartialShape(id.hash);
    Prefixed(enc[12..]);
    DecodeExact(enc);
  }

  lemma SizelessDigits(ns: seq<nat>)
    requires |ns| == FULL_BODY && ns[12] <= 1 && forall k :: 0 <= k < 12 ==> ns[k] == 0
    ensures NoSize(Spread(FIVE, ns))
  {
    TimesIs(FIVE, FULL_BODY);
    forall i | 0 <= i < 64
      ensures !Spread(FIVE, ns)[i]
    {
      TimesIs(FIVE, i / 5);
      SpreadAt(FIVE, ns, i / 5, i % 5);
      HighBitsClear(ns[i / 5], 4 - i % 5);
    }
  }

  lemma SizelessBytes(bits: seq<bool>, k: nat)
    requires NoSize(bits) && k < 8
    ensures |Group(OCTET, bits)| == IMAGE && Group(OCTET, bits)[k] == 0
  {
    TimesIs(OCTET, IMAGE);
    GroupLength(OCTET, bits, IMAGE);
    TimesIs(OCTET, k);
    GroupAt(OCTET, bits, k);
    NumOfZeros(bits[8 * k..8 * k + 8]);
  }

  lemma SizelessSpell(s: string)
    requires |s| == FULL_BODY && Digit(s[12]) <= 1 && forall k :: 0 <= k < 12 ==> Digit(s[k]) == 0
    ensures |Spell(s)| == IMAGE && FromImage(Spell(s)).size == 0
  {
    var bits := Spread(FIVE, Digits(s));
    SizelessDigits(Digits(s));
    SizelessBytes(bits, 0);
    forall k | 0 <= k < 8
      ensures Spell(s)[k] == 0
    {
      SizelessBytes(bits, k);
    }
    FromBEZeros(Spell(s)[..8]);
  }

  lemma HighBitsClear(n: nat, k: nat)
    ensures n == 0 || (n == 1 && k > 0) ==> !Bit(n, k)
  {
    if n == 1 && k > 0 {
      assert Pow2(k) >= 2;
    }
  }

  lemma {:induction false} FromBEZeros(b: seq<byte>)
    requires forall i :: 0 <= i < |b| ==> b[i] == 0
    ensures FromBE(b) == 0
  {
    if b != [] {
      FromBEZeros(b[..|b| - 1]);
    }
  }

  lemma PartialDecodes(body: string)
    requires |body| == PARTIAL_BODY && InAlphabet(body) && Digit(body[0]) <= 1
    ensures var r := DecodeId(Zeros(12) + body);
            r.Some? && r.value.size == 0 && PartialString(r.value) == PARTIAL_PREFIX + body
  {
    var s := Zeros(12) + body;
    assert s[12] == body[0] && s[12..] == body;
    PaddedLetters(12, body);
    DecodeExact(s);
    SizelessSpell(s);
    ImageInverse(FromImage(Spell(s)), Spell(s));
    EncodeOfSpell(s);
  }

  /**
   * A data0 body parses exactly when it has 52 letters and starts with one of the first two,
   * and it is then the partial text of the ID it gives: the test on Size never fails.
   */
  lemma ParsePartialExact(body: string)
    ensures ParseID(PARTIAL_PREFIX + body).Some? <==> |body| == PARTIAL_BODY && InAlphabet(body) && Digit(body[0]) <= 1
    ensures var r := ParseID(PARTIAL_PREFIX + body); r.Some? ==> PartialString(r.value) == PARTIAL_PREFIX + body
  {
    Prefixed(body);
    if |body| == PARTIAL_BODY {
      PaddedLetters(12, body);
      DecodeExact(Zeros(12) + body);
      if InAlphabet(body) && Digit(body[0]) <= 1 {
        PartialDecodes(body);
        FirstTwo(body[0]);
      }
    }
  }

  lemma FirstTwo(c: char)
    ensures Digit(c) <= 1 <==> c == 'y' || c == 'b'
  {
  }

  // ---------------------------------------------------------------- the number a text spells

  lemma {:induction false} TrimNumber(s: string)
    ensures Positional(32, Digits(TrimLeft(s))) == Positional(32, Digits(s))
    decreases |s|
  {
    if s != [] && s[0] == 'y' {
      TrimNumber(s[1..]);
      LeadingZero(32, Digits(s));
      assert Digits(s)[1..] == Digits(s[1..]);
    }
  }

  lemma EncodedNumber(b: seq<byte>)
    requires |b| == IMAGE
    ensures Positional(32, Digits(Encode32(b))) == FromBE(b)
  {
    var bits := Spread(OCTET, b);
    TimesIs(OCTET, IMAGE);
    TimesIs(FIVE, FULL_BODY);
    SpreadOfGroup(FIVE, bits, FULL_BODY);
    GroupBelow(FIVE, bits);
    Powers();
    DigitsOfLetters(Group(FIVE, bits));
    SpreadNumber(FIVE, Group(FIVE, bits));
    BytesNumber(OCTET, b);
  }

  /** Behind its prefix the text of an ID is one number in base 32, Size times 2^256 plus the hash. */
  lemma StringNumber(id: ObjectID)
    requires ValidId(id)
    ensures "data1" <= String(id)
    ensures Positional(32, Digits(String(id)[5..])) == id.size * Pow256(32) + FromBE(id.hash)
  {
    ImageInverse(id, Image(id));
    EncodedNumber(Image(id));
    TrimNumber(Encode32(Image(id)));
    FromBEConcat(BE(SIZE_BYTES, id.size), id.hash);
    FromBEOfBE(SIZE_BYTES, id.size);
    assert String(id)[5..] == TrimLeft(Encode32(Image(id)));
  }
}
