/** Byte strings: big-endian fixed-width integers and the order of `bytes.Compare`. */
module Bytes {

  type byte = x: int | 0 <= x < 256

  function Pow256(w: nat): (p: nat)
    ensures p > 0
  {
    if w == 0 then 1 else 256 * Pow256(w - 1)
  }

  /** The low `w` bytes of `n`, most significant first: a Go conversion to a narrower width truncates. */
  function BE(w: nat, n: nat): (s: seq<byte>)
    ensures |s| == w
  {
    if w == 0 then [] else BE(w - 1, n / 256) + [n % 256]
  }

  function FromBE(s: seq<byte>): (n: nat)
    ensures n < Pow256(|s|)
  {
    if s == [] then 0 else FromBE(s[..|s| - 1]) * 256 + s[|s| - 1]
  }

  lemma {:induction false} FromBEOfBE(w: nat, n: nat)
    requires n < Pow256(w)
    ensures FromBE(BE(w, n)) == n
  {
    if w > 0 {
      FromBEOfBE(w - 1, n / 256);
      assert BE(w, n)[..w - 1] == BE(w - 1, n / 256);
    }
  }

  lemma {:induction false} BEOfFromBE(s: seq<byte>)
    ensures BE(|s|, FromBE(s)) == s
  {
    if s != [] {
      BEOfFromBE(s[..|s| - 1]);
      assert s == s[..|s| - 1] + [s[|s| - 1]];
    }
  }

  lemma Pow256Values()
    ensures Pow256(1) == 0x100 && Pow256(2) == 0x1_0000
    ensures Pow256(4) == 0x1_0000_0000 && Pow256(8) == 0x1_0000_0000_0000_0000
  {
    assert Pow256(3) == 0x100_0000 && Pow256(4) == 256 * Pow256(3);
    assert Pow256(6) == 256 * Pow256(5) && Pow256(5) == 256 * Pow256(4);
    assert Pow256(8) == 256 * Pow256(7) && Pow256(7) == 256 * Pow256(6);
  }

  /** `bytes.Compare(a, b) < 0`. */
  predicate Less(a: seq<byte>, b: seq<byte>)
    decreases |a|
  {
    b != [] && (a == [] || a[0] < b[0] || (a[0] == b[0] && Less(a[1..], b[1..])))
  }

  lemma {:induction false} LessIrreflexive(a: seq<byte>)
    ensures !Less(a, a)
    decreases |a|
  {
    if a != [] {
      LessIrreflexive(a[1..]);
    }
  }

  lemma {:induction false} LessTransitive(a: seq<byte>, b: seq<byte>, c: seq<byte>)
    requires Less(a, b) && Less(b, c)
    ensures Less(a, c)
    decreases |a|
  {
    if a != [] && a[0] == b[0] == c[0] {
      LessTransitive(a[1..], b[1..], c[1..]);
    }
  }

  lemma {:induction false} LessTotal(a: seq<byte>, b: seq<byte>)
    requires a != b
    ensures Less(a, b) || Less(b, a)
    decreases |a|
  {
    if a != [] && b != [] && a[0] == b[0] {
      assert a == [a[0]] + a[1..] && b == [b[0]] + b[1..];
      LessTotal(a[1..], b[1..]);
    }
  }

  /** Comparing two strings of equal length by their last byte only when the rest agrees. */
  lemma {:induction false} LessSnoc(a: seq<byte>, x: byte, b: seq<byte>, y: byte)
    requires |a| == |b|
    ensures Less(a + [x], b + [y]) <==> (Less(a, b) || (a == b && x < y))
    decreases |a|
  {
    if a == [] {
      assert Less([x][1..], [y][1..]) == Less([], []);
    } else {
      assert (a + [x])[1..] == a[1..] + [x] && (b + [y])[1..] == b[1..] + [y];
      LessSnoc(a[1..], x, b[1..], y);
      assert a == [a[0]] + a[1..] && b == [b[0]] + b[1..];
    }
  }

  /** Fixed-width big-endian keys sort in numeric order. */
  lemma {:induction false} BEOrder(w: nat, m: nat, n: nat)
    requires m < Pow256(w) && n < Pow256(w)
    ensures Less(BE(w, m), BE(w, n)) <==> m < n
    ensures BE(w, m) == BE(w, n) <==> m == n
  {
    FromBEOfBE(w, m);
    FromBEOfBE(w, n);
    if w > 0 {
      BEOrder(w - 1, m / 256, n / 256);
      LessSnoc(BE(w - 1, m / 256), m % 256, BE(w - 1, n / 256), n % 256);
    }
  }

  lemma {:induction false} FromBEConcat(a: seq<byte>, b: seq<byte>)
    ensures FromBE(a + b) == FromBE(a) * Pow256(|b|) + FromBE(b)
    decreases |b|
  {
    if b == [] {
      assert a + b == a;
    } else {
      var init, x := b[..|b| - 1], b[|b| - 1];
      FromBEConcat(a, init);
      assert a + b == a + init + [x] && b == init + [x];
      FromBESnoc(a + init, x);
      FromBESnoc(init, x);
      Scaled(FromBE(a), Pow256(|init|));
    }
  }

  lemma FromBESnoc(s: seq<byte>, x: byte)
    ensures FromBE(s + [x]) == FromBE(s) * 256 + x
  {
    assert (s + [x])[..|s|] == s;
  }

  lemma Scaled(m: nat, p: nat)
    ensures m * (256 * p) == 256 * (m * p)
  {
  }
}
