/**
 * BIP-39 mnemonics: entropy and a checksum cut into 11-bit word numbers, and back. SHA-256
 * enters as `head`, any function giving the first byte of a digest, and the word list as
 * `list`.
 */
module Bip39 {
  import opened Bytes
  import opened Bits

  datatype Fault = BadEntropySize | BadWordCount | BadMnemonic
  datatype Result<+T> = Ok(value: T) | Fail(fault: Fault)

  const WORDS := 2048
  const WORD: nat := 11
  const OCTET: nat := 8

  ghost predicate WordList(list: seq<string>) {
    |list| == WORDS && forall i, j :: 0 <= i < j < |list| ==> list[i] != list[j]
  }

  // ---------------------------------------------------------------- what the two directions compute

  predicate EntropySize(n: nat) { n == 16 || n == 20 || n == 24 || n == 28 || n == 32 }

  predicate WordCount(n: nat) { n == 12 || n == 15 || n == 18 || n == 21 || n == 24 }

  function Checksum(head: seq<byte> -> byte, entropy: seq<byte>): seq<bool> {
    var c := |entropy| / 4;
    if c <= 8 then BitsOf(OCTET, head(entropy))[..c] else []
  }

  function Sealed(head: seq<byte> -> byte, entropy: seq<byte>): seq<bool> {
    Spread(OCTET, entropy) + Checksum(head, entropy)
  }

  function WordsAt(list: seq<string>, ns: seq<nat>): (ws: seq<string>)
    requires Below(ns, |list|)
    ensures |ws| == |ns| && forall i :: 0 <= i < |ns| ==> ws[i] == list[ns[i]]
  {
    seq(|ns|, i requires 0 <= i < |ns| => list[ns[i]])
  }

  lemma Pow2Words()
    ensures Pow2(WORD) == WORDS && Pow2(OCTET) == 256
  {
    assert Pow2(4) == 16 && Pow2(8) == 16 * Pow2(4) && Pow2(11) == 8 * Pow2(8);
  }

  function ToMnemonic(head: seq<byte> -> byte, list: seq<string>, entropy: seq<byte>): Result<seq<string>>
    requires |list| == WORDS
  {
    if !EntropySize(|entropy|) then Fail(BadEntropySize)
    else
      Pow2Words();
      GroupBelow(WORD, Sealed(head, entropy));
      Ok(WordsAt(list, Group(WORD, Sealed(head, entropy))))
  }

  /** `slices.Index`: the first position of a word. */
  function IndexOf(list: seq<string>, word: string): (n: nat)
    ensures n <= |list|
    ensures n < |list| ==> list[n] == word
    ensures forall i :: 0 <= i < n ==> list[i] != word
  {
    if list == [] || list[0] == word then 0 else 1 + IndexOf(list[1..], word)
  }

  function IndicesOf(list: seq<string>, words: seq<string>): (ns: seq<nat>)
    ensures |ns| == |words| && forall i :: 0 <= i < |ns| ==> ns[i] == IndexOf(list, words[i])
  {
    seq(|words|, i requires 0 <= i < |words| => IndexOf(list, words[i]))
  }

  /** The entropy in front of `c` checksum bits that match it. */
  function Unseal(head: seq<byte> -> byte, c: nat, bits: seq<bool>): Result<seq<byte>>
    requires c <= |bits|
  {
    Pow2Words();
    GroupBelow(OCTET, bits[..|bits| - c]);
    var entropy: seq<byte> := Group(OCTET, bits[..|bits| - c]);
    if bits[|bits| - c..] == Checksum(head, entropy) then Ok(entropy) else Fail(BadMnemonic)
  }

  function FromMnemonic(head: seq<byte> -> byte, list: seq<string>, words: seq<string>): Result<seq<byte>> {
    var ns := IndicesOf(list, words);
    if !WordCount(|words|) then Fail(BadWordCount)
    else if |list| in ns then Fail(BadMnemonic)
    else
      TimesIs(WORD, |words|);
      Unseal(head, |words| / 3, Spread(WORD, ns))
  }

  // ---------------------------------------------------------------- the two directions are inverse

  /** Three words carry four bytes and one checksum bit. */
  lemma Sizes(n: nat)
    ensures WordCount(n) ==> Times(WORD, n) == 11 * n == 33 * (n / 3) && n / 3 <= 8 && EntropySize(n / 3 * 4)
    ensures EntropySize(n) ==> WordCount(n / 4 * 3) && n / 4 * 3 / 3 == n / 4 <= 8
  {
    if WordCount(n) {
      TimesIs(WORD, n);
    }
  }

  lemma SealedLength(head: seq<byte> -> byte, entropy: seq<byte>)
    requires EntropySize(|entropy|)
    ensures |Sealed(head, entropy)| == Times(WORD, |entropy| / 4 * 3) == 8 * |entropy| + |entropy| / 4
  {
    TimesIs(OCTET, |entropy|);
    TimesIs(WORD, |entropy| / 4 * 3);
  }

  lemma IndicesOfWords(list: seq<string>, ns: seq<nat>)
    requires WordList(list) && Below(ns, WORDS)
    ensures IndicesOf(list, WordsAt(list, ns)) == ns && |list| !in ns
  {
    var words := WordsAt(list, ns);
    forall i | 0 <= i < |ns|
      ensures IndexOf(list, words[i]) == ns[i]
    {
      assert words[i] == list[ns[i]];
    }
  }

  lemma UnsealSealed(head: seq<byte> -> byte, entropy: seq<byte>)
    requires EntropySize(|entropy|)
    ensures |entropy| / 4 <= |Sealed(head, entropy)|
    ensures Unseal(head, |entropy| / 4, Sealed(head, entropy)) == Ok(entropy)
  {
    var bits, c := Sealed(head, entropy), |entropy| / 4;
    Pow2Words();
    assert |Checksum(head, entropy)| == c;
    assert bits[..|bits| - c] == Spread(OCTET, entropy);
    assert bits[|bits| - c..] == Checksum(head, entropy);
    GroupOfSpread(OCTET, entropy);
  }

  lemma SealUnsealed(head: seq<byte> -> byte, c: nat, bits: seq<bool>)
    requires |bits| == 33 * c && Unseal(head, c, bits).Ok?
    ensures var e := Unseal(head, c, bits).value; |e| == 4 * c && Sealed(head, e) == bits
  {
    var n := 32 * c;
    BodyWhole(bits[..n], c);
    assert bits == bits[..n] + bits[n..];
  }

  lemma BodyWhole(body: seq<bool>, c: nat)
    requires |body| == 32 * c
    ensures |Group(OCTET, body)| == 4 * c && Spread(OCTET, Group(OCTET, body)) == body
  {
    TimesIs(OCTET, 4 * c);
    GroupLength(OCTET, body, 4 * c);
    SpreadOfGroup(OCTET, body, 4 * c);
  }

  lemma SealedWhole(head: seq<byte> -> byte, entropy: seq<byte>)
    requires EntropySize(|entropy|)
    ensures |Sealed(head, entropy)| % 11 == 0
  {
    SealedLength(head, entropy);
  }

  lemma SizeTest(n: nat)
    ensures EntropySize(n) <==> 128 <= n * 8 <= 256 && n * 8 % 32 == 0
  {
  }

  /** Every entropy of the five sizes comes back from its mnemonic. */
  lemma EntropyRoundTrip(head: seq<byte> -> byte, list: seq<string>, entropy: seq<byte>)
    requires WordList(list) && EntropySize(|entropy|)
    ensures ToMnemonic(head, list, entropy).Ok?
    ensures FromMnemonic(head, list, ToMnemonic(head, list, entropy).value) == Ok(entropy)
  {
    var bits, n := Sealed(head, entropy), |entropy| / 4 * 3;
    SealedLength(head, entropy);
    Pow2Words();
    GroupLength(WORD, bits, n);
    SpreadOfGroup(WORD, bits, n);
    GroupBelow(WORD, bits);
    IndicesOfWords(list, Group(WORD, bits));
    Sizes(|entropy|);
    UnsealSealed(head, entropy);
  }

  /** Every accepted word list is the mnemonic of the entropy it gives. */
  lemma MnemonicRoundTrip(head: seq<byte> -> byte, list: seq<string>, words: seq<string>)
    requires |list| == WORDS && FromMnemonic(head, list, words).Ok?
    ensures ToMnemonic(head, list, FromMnemonic(head, list, words).value) == Ok(words)
  {
    var ns := IndicesOf(list, words);
    Pow2Words();
    Sizes(|words|);
    SealUnsealed(head, |words| / 3, Spread(WORD, ns));
    GroupOfSpread(WORD, ns);
    assert WordsAt(list, ns) == words;
  }

  /** A word list is accepted exactly when it is the mnemonic of some entropy, and of one only. */
  lemma AcceptedExactly(head: seq<byte> -> byte, list: seq<string>, words: seq<string>)
    requires WordList(list)
    ensures FromMnemonic(head, list, words).Ok? <==> exists e :: ToMnemonic(head, list, e) == Ok(words)
    ensures forall e, f :: ToMnemonic(head, list, e) == Ok(words) && ToMnemonic(head, list, f) == Ok(words) ==> e == f
  {
    if FromMnemonic(head, list, words).Ok? {
      MnemonicRoundTrip(head, list, words);
    }
    forall e | ToMnemonic(head, list, e) == Ok(words)
      ensures FromMnemonic(head, list, words) == Ok(e)
    {
      EntropyRoundTrip(head, list, e);
    }
  }

  lemma SealedNumber(head: seq<byte> -> byte, entropy: seq<byte>)
    requires EntropySize(|entropy|)
    ensures var c := |entropy| / 4;
            NumOf(Sealed(head, entropy)) == FromBE(entropy) * Pow2(c) + head(entropy) / Pow2(8 - c)
  {
    BytesNumber(OCTET, entropy);
    ChecksumNumber(head, entropy);
    NumOfConcat(Spread(OCTET, entropy), Checksum(head, entropy));
  }

  lemma ChecksumNumber(head: seq<byte> -> byte, entropy: seq<byte>)
    requires EntropySize(|entropy|)
    ensures |Checksum(head, entropy)| == |entropy| / 4
    ensures NumOf(Checksum(head, entropy)) == head(entropy) / Pow2(8 - |entropy| / 4)
  {
    Pow2Words();
    TopBits(OCTET, head(entropy), |entropy| / 4);
  }

  /**
   * The mnemonic as BIP-39 defines it: the words are the digits, in base 2048, of the entropy
   * followed by the first bits of its digest, one for every four bytes.
   */
  lemma MnemonicNumber(head: seq<byte> -> byte, list: seq<string>, entropy: seq<byte>) returns (ns: seq<nat>)
    requires |list| == WORDS && EntropySize(|entropy|)
    ensures Below(ns, 2048) && |ns| == |entropy| / 4 * 3 && ToMnemonic(head, list, entropy) == Ok(WordsAt(list, ns))
    ensures var c := |entropy| / 4;
            Positional(2048, ns) == FromBE(entropy) * Pow2(c) + head(entropy) / Pow2(8 - c)
  {
    var bits, n := Sealed(head, entropy), |entropy| / 4 * 3;
    Pow2Words();
    SealedLength(head, entropy);
    SealedNumber(head, entropy);
    GroupBelow(WORD, bits);
    GroupLength(WORD, bits, n);
    SpreadOfGroup(WORD, bits, n);
    ns := Group(WORD, bits);
    SpreadNumber(WORD, ns);
  }

  // ---------------------------------------------------------------- bit by bit

  method EntropyToMnemonic(head: seq<byte> -> byte, list: seq<string>, entropy: seq<byte>) returns (r: Result<seq<string>>)
    requires |list| == WORDS
    ensures r == ToMnemonic(head, list, entropy)
  {
    var entropyBits := |entropy| * 8;
    SizeTest(|entropy|);
    if entropyBits < 128 || entropyBits > 256 || entropyBits % 32 != 0 {
      return Fail(BadEntropySize);
    }
    var bits := SealBits(head, entropy);
    SealedWhole(head, entropy);
    var words := PickWords(list, bits);
    return Ok(words);
  }

  lemma SealedAt(head: seq<byte> -> byte, entropy: seq<byte>, i: nat)
    requires EntropySize(|entropy|) && i < |entropy| * 8
    ensures i < |Sealed(head, entropy)| && Sealed(head, entropy)[i] == Bit(entropy[i / 8], 7 - i % 8)
  {
    TimesIs(OCTET, i / 8);
    SpreadAt(OCTET, entropy, i / 8, i % 8);
  }

  lemma SealedCheckAt(head: seq<byte> -> byte, entropy: seq<byte>, i: nat)
    requires EntropySize(|entropy|) && i < |entropy| / 4
    ensures var at := |entropy| * 8 + i;
            at < |Sealed(head, entropy)| && Sealed(head, entropy)[at] == Bit(head(entropy), 7 - i)
  {
    TimesIs(OCTET, |entropy|);
    ChecksumAt(head, entropy, i);
  }

  method SealBits(head: seq<byte> -> byte, entropy: seq<byte>) returns (bits: array<bool>)
    requires EntropySize(|entropy|)
    ensures fresh(bits) && bits[..] == Sealed(head, entropy)
  {
    var entropyBits := |entropy| * 8;
    var checksumBits := entropyBits / 32;
    var hash := head(entropy);
    bits := new bool[entropyBits + checksumBits];
    ghost var want := Sealed(head, entropy);
    SealedLength(head, entropy);
    for i := 0 to entropyBits
      invariant forall k :: 0 <= k < i ==> bits[k] == want[k]
    {
      SealedAt(head, entropy, i);
      bits[i] := Bit(entropy[i / 8], 7 - i % 8);
    }
    SealChecksum(head, entropy, bits, hash);
  }

  method SealChecksum(head: seq<byte> -> byte, entropy: seq<byte>, bits: array<bool>, hash: byte)
    requires EntropySize(|entropy|) && hash == head(entropy)
    requires bits.Length == |Sealed(head, entropy)| == |entropy| * 8 + |entropy| / 4
    requires forall k :: 0 <= k < |entropy| * 8 ==> bits[k] == Sealed(head, entropy)[k]
    modifies bits
    ensures bits[..] == Sealed(head, entropy)
  {
    var entropyBits := |entropy| * 8;
    ghost var want := Sealed(head, entropy);
    for i := 0 to |entropy| / 4
      invariant forall k :: 0 <= k < entropyBits + i ==> bits[k] == want[k]
    {
      SealedCheckAt(head, entropy, i);
      bits[entropyBits + i] := Bit(hash, 7 - i);
    }
  }

  method ReadIndex(bits: array<bool>, at: nat) returns (idx: nat)
    requires at + 11 <= bits.Length
    ensures idx == NumOf(bits[at..at + 11])
  {
    idx := 0;
    for j := 0 to 11
      invariant idx == NumOf(bits[at..at + j]) * Pow2(11 - j)
    {
      OrAppends(bits[at..at + j], bits[at + j], 10 - j);
      assert bits[at..at + j + 1] == bits[at..at + j] + [bits[at + j]];
      if bits[at + j] {
        idx := SetBit(idx, 10 - j);
      }
    }
  }

  lemma WordNumber(bits: seq<bool>, i: nat)
    requires |bits| % 11 == 0 && i < |bits| / 11
    ensures |Group(WORD, bits)| == |bits| / 11 && Group(WORD, bits)[i] == NumOf(bits[i * 11..i * 11 + 11]) < WORDS
  {
    Pow2Words();
    TimesIs(WORD, |bits| / 11);
    GroupLength(WORD, bits, |bits| / 11);
    TimesIs(WORD, i);
    GroupAt(WORD, bits, i);
  }

  method PickWords(list: seq<string>, bits: array<bool>) returns (words: seq<string>)
    requires |list| == WORDS && bits.Length % 11 == 0
    ensures Below(Group(WORD, bits[..]), WORDS) && words == WordsAt(list, Group(WORD, bits[..]))
  {
    words := [];
    for i := 0 to bits.Length / 11
      invariant |words| == i
      invariant forall k :: 0 <= k < i ==> (WordNumber(bits[..], k); words[k] == list[Group(WORD, bits[..])[k]])
    {
      var idx := ReadIndex(bits, i * 11);
      WordNumber(bits[..], i);
      assert bits[..][i * 11..i * 11 + 11] == bits[i * 11..i * 11 + 11];
      words := words + [list[idx]];
    }
    Pow2Words();
    GroupBelow(WORD, bits[..]);
    TimesIs(WORD, |words|);
    GroupLength(WORD, bits[..], |words|);
  }

  method FindIndices(list: seq<string>, words: seq<string>) returns (found: bool, indices: seq<nat>)
    ensures found <==> |list| !in IndicesOf(list, words)
    ensures found ==> indices == IndicesOf(list, words)
  {
    indices := [];
    for i := 0 to |words|
      invariant |indices| == i && forall k :: 0 <= k < i ==> indices[k] == IndexOf(list, words[k]) < |list|
    {
      var idx := IndexOf(list, words[i]);
      if idx == |list| {
        assert IndicesOf(list, words)[i] == idx;
        return false, [];
      }
      indices := indices + [idx];
    }
    return true, indices;
  }

  /** Byte `k` when the first `i` bits have been set. */
  function Partial(bits: seq<bool>, i: nat, k: nat): nat
    requires i <= |bits|
  {
    if 8 * k + 8 <= i then NumOf(bits[8 * k..8 * k + 8])
    else if 8 * k <= i then NumOf(bits[8 * k..i]) * Pow2(8 * k + 8 - i)
    else 0
  }

  lemma PartialStep(bits: seq<bool>, i: nat, k: nat)
    requires i < |bits|
    ensures Partial(bits, i + 1, k) ==
            if k == i / 8 && bits[i] then SetBit(Partial(bits, i, k), 7 - i % 8) else Partial(bits, i, k)
  {
    if k == i / 8 {
      PartialHere(bits, i, k);
    } else if i == 8 * k - 1 {
      assert bits[8 * k..i + 1] == [];
    }
  }

  lemma PartialHere(bits: seq<bool>, i: nat, k: nat)
    requires i < |bits| && k == i / 8
    ensures Partial(bits, i + 1, k) ==
            if bits[i] then SetBit(Partial(bits, i, k), 7 - i % 8) else Partial(bits, i, k)
  {
    var b, j := bits[8 * k..i], 7 - i % 8;
    OrAppends(b, bits[i], j);
    assert bits[8 * k..i + 1] == b + [bits[i]];
    assert Partial(bits, i, k) == NumOf(b) * Pow2(j + 1);
    assert Partial(bits, i + 1, k) == NumOf(b + [bits[i]]) * Pow2(j);
  }

  lemma PartialByte(bits: seq<bool>, i: nat, k: nat)
    requires i <= |bits|
    ensures Partial(bits, i, k) < 256
  {
    Pow2Words();
    if 8 * k <= i < 8 * k + 8 {
      var b, p := bits[8 * k..i], 8 * k + 8 - i;
      PowSplit(|b|, p);
      MulBelow(NumOf(b), Pow2(|b|), Pow2(p));
    }
  }

  lemma MulBelow(a: nat, b: nat, c: nat)
    requires a < b && c > 0
    ensures a * c < b * c
  {
  }

  lemma {:induction false} PowSplit(a: nat, b: nat)
    ensures Pow2(a) * Pow2(b) == Pow2(a + b)
  {
    if a > 0 {
      PowSplit(a - 1, b);
      assert Pow2(a) * Pow2(b) == 2 * (Pow2(a - 1) * Pow2(b));
    }
  }

  method CollectBytes(bits: seq<bool>, size: nat) returns (entropy: array<byte>)
    requires |bits| == 8 * size
    ensures fresh(entropy) && entropy.Length == size && entropy[..] == Group(OCTET, bits)
  {
    entropy := new byte[size](_ => 0);
    assert forall k {:trigger entropy[k]} :: 0 <= k < size ==> entropy[k] == Partial(bits, 0, k) by {
      forall k | 0 <= k < size
        ensures Partial(bits, 0, k) == 0
      {
        assert k == 0 ==> bits[8 * k..0] == [];
      }
    }
    for i := 0 to |bits|
      invariant forall k :: 0 <= k < size ==> entropy[k] == Partial(bits, i, k)
    {
      ghost var was := entropy[..];
      PartialByte(bits, i + 1, i / 8);
      PartialStep(bits, i, i / 8);
      if bits[i] {
        entropy[i / 8] := SetBit(entropy[i / 8], 7 - i % 8);
      }
      forall k | 0 <= k < size
        ensures entropy[k] == Partial(bits, i + 1, k)
      {
        PartialStep(bits, i, k);
        assert k != i / 8 ==> entropy[k] == was[k];
      }
    }
    TimesIs(OCTET, size);
    GroupLength(OCTET, bits, size);
    forall k | 0 <= k < size
      ensures entropy[k] == Group(OCTET, bits)[k]
    {
      TimesIs(OCTET, k);
      GroupAt(OCTET, bits, k);
    }
  }

  lemma ChecksumAt(head: seq<byte> -> byte, entropy: seq<byte>, i: nat)
    requires i < |entropy| / 4 <= 8
    ensures |Checksum(head, entropy)| == |entropy| / 4 && Checksum(head, entropy)[i] == Bit(head(entropy), 7 - i)
  {
    BitAt(OCTET, head(entropy), i);
  }

  method ChecksumMatches(head: seq<byte> -> byte, entropy: seq<byte>, bits: seq<bool>, at: nat) returns (ok: bool)
    requires |entropy| / 4 <= 8 && at + |entropy| / 4 == |bits|
    ensures ok <==> bits[at..] == Checksum(head, entropy)
  {
    var hash := head(entropy);
    for i := 0 to |entropy| / 4
      invariant forall k :: 0 <= k < i ==> bits[at..][k] == Checksum(head, entropy)[k]
    {
      ChecksumAt(head, entropy, i);
      var expected := Bit(hash, 7 - i);
      if bits[at + i] != expected {
        assert bits[at..][i] != Checksum(head, entropy)[i];
        return false;
      }
    }
    return true;
  }

  method MnemonicToEntropy(head: seq<byte> -> byte, list: seq<string>, words: seq<string>) returns (r: Result<seq<byte>>)
    requires |list| == WORDS
    ensures r == FromMnemonic(head, list, words)
  {
    var wordCount := |words|;
    if wordCount != 12 && wordCount != 15 && wordCount != 18 && wordCount != 21 && wordCount != 24 {
      return Fail(BadWordCount);
    }
    var found, indices := FindIndices(list, words);
    if !found {
      return Fail(BadMnemonic);
    }
    var bits := SpreadBits(indices);
    Sizes(wordCount);
    r := UnsealBits(head, wordCount / 3, bits);
  }

  method UnsealBits(head: seq<byte> -> byte, checksumBits: nat, bits: seq<bool>) returns (r: Result<seq<byte>>)
    requires |bits| == 33 * checksumBits && checksumBits <= 8
    ensures r == Unseal(head, checksumBits, bits)
  {
    var entropyBits := |bits| - checksumBits;
    var entropy := CollectBytes(bits[..entropyBits], entropyBits / 8);
    var ok := ChecksumMatches(head, entropy[..], bits, entropyBits);
    return if ok then Ok(entropy[..]) else Fail(BadMnemonic);
  }

  method SpreadBits(indices: seq<nat>) returns (b: seq<bool>)
    ensures b == Spread(WORD, indices)
  {
    var bits := new bool[|indices| * 11];
    TimesIs(WORD, |indices|);
    ghost var want := Spread(WORD, indices);
    for i := 0 to |indices|
      invariant forall k :: 0 <= k < i * 11 ==> bits[k] == want[k]
    {
      for j := 0 to 11
        invariant forall k :: 0 <= k < i * 11 + j ==> bits[k] == want[k]
      {
        bits[i * 11 + j] := Bit(indices[i], 10 - j);
        TimesIs(WORD, i);
        SpreadAt(WORD, indices, i, j);
      }
    }
    assert bits[..] == want;
    return bits[..];
  }
}
