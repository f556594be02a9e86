/** Bit strings, most significant bit first, and numbers cut into them. */
module Bits {
  import opened Bytes

  function Pow2(k: nat): (p: nat)
    ensures p > 0
  {
    if k == 0 then 1 else 2 * Pow2(k - 1)
  }

  /** `n & (1 << k) != 0`. */
  predicate Bit(n: nat, k: nat) { n / Pow2(k) % 2 == 1 }

  /** `n | (1 << k)`. */
  function SetBit(n: nat, k: nat): nat { if Bit(n, k) then n else n + Pow2(k) }

  /** The low `w` bits of `n`. */
  function BitsOf(w: nat, n: nat): (b: seq<bool>)
    ensures |b| == w
  {
    if w == 0 then [] else BitsOf(w - 1, n / 2) + [n % 2 == 1]
  }

  function NumOf(b: seq<bool>): (n: nat)
    ensures n < Pow2(|b|)
  {
    if b == [] then 0 else 2 * NumOf(b[..|b| - 1]) + if b[|b| - 1] then 1 else 0
  }

  lemma {:induction false} NumOfBits(w: nat, n: nat)
    requires n < Pow2(w)
    ensures NumOf(BitsOf(w, n)) == n
  {
    if w > 0 {
      NumOfBits(w - 1, n / 2);
      assert BitsOf(w, n)[..w - 1] == BitsOf(w - 1, n / 2);
    }
  }

  lemma {:induction false} BitsOfNum(b: seq<bool>)
    ensures BitsOf(|b|, NumOf(b)) == b
  {
    if b != [] {
      var init, last := b[..|b| - 1], b[|b| - 1];
      BitsOfNum(init);
      assert NumOf(b) / 2 == NumOf(init) && (NumOf(b) % 2 == 1 <==> last);
      assert b == init + [last];
    }
  }

  lemma DivTwice(n: nat, p: nat)
    requires p > 0
    ensures n / 2 / p == n / (2 * p)
  {
    var q := n / 2 / p;
    var s := n / 2 - p * q;
    assert n == 2 * p * q + (2 * s + n % 2) && 0 <= 2 * s + n % 2 < 2 * p;
    QuotientIs(n, 2 * p, q, 2 * s + n % 2);
  }

  lemma Step(d: nat, a: nat, b: nat)
    requires a < b
    ensures d * a + d <= d * b
  {
    assert d * b == d * a + d * (b - a) && d * (b - a) == d * (b - a - 1) + d;
  }

  lemma QuotientIs(n: nat, d: nat, q: nat, r: nat)
    requires d > 0 && r < d && n == d * q + r
    ensures n / d == q
  {
    var e := n / d;
    if e > q {
      Step(d, q, e);
    } else if e < q {
      Step(d, e, q);
    }
  }

  lemma {:induction false} BitAt(w: nat, n: nat, j: nat)
    requires j < w
    ensures BitsOf(w, n)[j] == Bit(n, w - 1 - j)
  {
    if j < w - 1 {
      BitAt(w - 1, n / 2, j);
      DivTwice(n, Pow2(w - 2 - j));
    }
  }

  /** Setting bit `k` of a number whose low bits are clear appends a bit. */
  lemma OrAppends(b: seq<bool>, x: bool, k: nat)
    ensures var n := NumOf(b) * Pow2(k + 1);
            NumOf(b + [x]) * Pow2(k) == if x then SetBit(n, k) else n
  {
    var m, p := NumOf(b), Pow2(k);
    assert (b + [x])[..|b|] == b;
    assert m * Pow2(k + 1) == p * (2 * m) + 0;
    QuotientIs(m * Pow2(k + 1), p, 2 * m, 0);
    assert (2 * m + 1) * p == 2 * m * p + p;
  }

  // ---------------------------------------------------------------- groups of bits

  /** `k` groups of `w` bits. */
  function Times(w: nat, k: nat): nat { if k == 0 then 0 else w + Times(w, k - 1) }

  lemma {:induction false} TimesIs(w: nat, k: nat)
    ensures Times(w, k) == w * k
  {
    if k > 0 {
      TimesIs(w, k - 1);
      assert w * k == w * (k - 1) + w;
    }
  }

  /** The numbers written out one after another, `w` bits each. */
  function Spread(w: nat, ns: seq<nat>): (b: seq<bool>)
    ensures |b| == Times(w, |ns|)
  {
    if ns == [] then [] else BitsOf(w, ns[0]) + Spread(w, ns[1..])
  }

  /** The numbers read off `w` bits at a time. */
  function Group(w: nat, b: seq<bool>): (ns: seq<nat>)
    requires w > 0
  {
    if |b| < w then [] else [NumOf(b[..w])] + Group(w, b[w..])
  }

  ghost predicate Below(ns: seq<nat>, bound: nat) { forall i :: 0 <= i < |ns| ==> ns[i] < bound }

  lemma {:induction false} GroupBelow(w: nat, b: seq<bool>)
    requires w > 0
    ensures Below(Group(w, b), Pow2(w))
    decreases |b|
  {
    if |b| >= w {
      GroupBelow(w, b[w..]);
    }
  }

  lemma {:induction false} GroupLength(w: nat, b: seq<bool>, n: nat)
    requires w > 0 && |b| == Times(w, n)
    ensures |Group(w, b)| == n
    decreases n
  {
    if n > 0 {
      GroupLength(w, b[w..], n - 1);
    }
  }

  lemma {:induction false} GroupOfSpread(w: nat, ns: seq<nat>)
    requires w > 0 && Below(ns, Pow2(w))
    ensures Group(w, Spread(w, ns)) == ns
  {
    if ns != [] {
      var b := Spread(w, ns);
      assert b[..w] == BitsOf(w, ns[0]) && b[w..] == Spread(w, ns[1..]);
      NumOfBits(w, ns[0]);
      GroupOfSpread(w, ns[1..]);
    }
  }

  lemma SpreadCons(w: nat, n: nat, ns: seq<nat>)
    ensures Spread(w, [n] + ns) == BitsOf(w, n) + Spread(w, ns)
  {
    assert ([n] + ns)[1..] == ns;
  }

  lemma {:induction false} SpreadOfGroup(w: nat, b: seq<bool>, n: nat)
    requires w > 0 && |b| == Times(w, n)
    ensures Spread(w, Group(w, b)) == b
    decreases n
  {
    if n > 0 {
      var head, tail := b[..w], b[w..];
      SpreadOfGroup(w, tail, n - 1);
      BitsOfNum(head);
      SpreadCons(w, NumOf(head), Group(w, tail));
      assert b == head + tail;
    }
  }

  lemma {:induction false} SpreadAt(w: nat, ns: seq<nat>, k: nat, j: nat)
    requires k < |ns| && j < w
    ensures Times(w, k) + j < |Spread(w, ns)| && Spread(w, ns)[Times(w, k) + j] == Bit(ns[k], w - 1 - j)
    decreases k
  {
    BitAt(w, ns[0], j);
    if k > 0 {
      SpreadAt(w, ns[1..], k - 1, j);
    }
  }

  lemma {:induction false} GroupAfter(w: nat, pre: seq<bool>, g: seq<bool>, post: seq<bool>, k: nat)
    requires w > 0 && |pre| == Times(w, k) && |g| == w
    ensures k < |Group(w, pre + g + post)| && Group(w, pre + g + post)[k] == NumOf(g)
    decreases k
  {
    var b := pre + g + post;
    if k == 0 {
      assert b[..w] == g;
    } else {
      assert b[w..] == pre[w..] + g + post;
      GroupAfter(w, pre[w..], g, post, k - 1);
    }
  }

  lemma GroupAt(w: nat, b: seq<bool>, k: nat)
    requires w > 0 && Times(w, k) + w <= |b|
    ensures k < |Group(w, b)| && Group(w, b)[k] == NumOf(b[Times(w, k)..Times(w, k) + w])
  {
    var i := Times(w, k);
    assert b == b[..i] + b[i..i + w] + b[i + w..];
    GroupAfter(w, b[..i], b[i..i + w], b[i + w..], k);
  }

  // ---------------------------------------------------------------- bit strings as numbers

  /** The number whose digits in base `base` are `ns`, most significant first. */
  function Positional(base: nat, ns: seq<nat>): nat {
    if ns == [] then 0 else Positional(base, ns[..|ns| - 1]) * base + ns[|ns| - 1]
  }

  lemma {:induction false} NumOfConcat(a: seq<bool>, b: seq<bool>)
    ensures NumOf(a + b) == NumOf(a) * Pow2(|b|) + NumOf(b)
    decreases |b|
  {
    if b == [] {
      assert a + b == a;
    } else {
      var init, x := b[..|b| - 1], b[|b| - 1];
      NumOfConcat(a, init);
      assert a + b == a + init + [x] && b == init + [x];
      NumOfSnoc(a + init, x);
      NumOfSnoc(init, x);
      Twice(NumOf(a), Pow2(|init|));
    }
  }

  lemma NumOfSnoc(b: seq<bool>, x: bool)
    ensures NumOf(b + [x]) == 2 * NumOf(b) + if x then 1 else 0
  {
    assert (b + [x])[..|b|] == b;
  }

  lemma Twice(m: nat, p: nat)
    ensures m * (2 * p) == 2 * (m * p)
  {
  }

  lemma {:induction false} SpreadSnoc(w: nat, ns: seq<nat>, n: nat)
    ensures Spread(w, ns + [n]) == Spread(w, ns) + BitsOf(w, n)
    decreases |ns|
  {
    if ns == [] {
      assert ns + [n] == [n] && [n][1..] == [];
    } else {
      assert (ns + [n])[1..] == ns[1..] + [n];
      SpreadSnoc(w, ns[1..], n);
    }
  }

  /** Numbers written out in `w` bits each are the digits of one number. */
  lemma {:induction false} SpreadNumber(w: nat, ns: seq<nat>)
    requires Below(ns, Pow2(w))
    ensures NumOf(Spread(w, ns)) == Positional(Pow2(w), ns)
    decreases |ns|
  {
    if ns != [] {
      var init, n := ns[..|ns| - 1], ns[|ns| - 1];
      SpreadNumber(w, init);
      SpreadSnoc(w, init, n);
      assert ns == init + [n];
      NumOfConcat(Spread(w, init), BitsOf(w, n));
      NumOfBits(w, n);
    }
  }

  /** The first `c` of `w` bits are what a division leaves. */
  lemma {:induction false} TopBits(w: nat, n: nat, c: nat)
    requires c <= w && n < Pow2(w)
    ensures NumOf(BitsOf(w, n)[..c]) == n / Pow2(w - c)
    decreases w
  {
    if c == w {
      NumOfBits(w, n);
      assert BitsOf(w, n)[..c] == BitsOf(w, n);
    } else {
      TopBits(w - 1, n / 2, c);
      assert BitsOf(w, n)[..c] == BitsOf(w - 1, n / 2)[..c];
      DivTwice(n, Pow2(w - 1 - c));
    }
  }

  lemma {:induction false} DigitsOf256(base: nat, s: seq<byte>)
    requires base == 256
    ensures Positional(base, s) == FromBE(s)
    decreases |s|
  {
    if s != [] {
      DigitsOf256(base, s[..|s| - 1]);
    }
  }

  /** A byte string written out in bits is the same big-endian number. */
  lemma BytesNumber(w: nat, s: seq<byte>)
    requires w == 8
    ensures NumOf(Spread(w, s)) == FromBE(s)
  {
    assert Pow2(4) == 16 && Pow2(8) == 16 * Pow2(4);
    SpreadNumber(w, s);
    DigitsOf256(Pow2(w), s);
  }

  /** A leading zero does not count. */
  lemma {:induction false} LeadingZero(base: nat, ns: seq<nat>)
    requires ns != [] && ns[0] == 0
    ensures Positional(base, ns) == Positional(base, ns[1..])
    decreases |ns|
  {
    if |ns| > 1 {
      var init := ns[..|ns| - 1];
      LeadingZero(base, init);
      assert ns[1..][..|ns[1..]| - 1] == init[1..];
    } else {
      assert Positional(base, ns[..0]) == 0;
    }
  }
}
