/**
 * Struct codecs that keep the promise asked of compile-time types. A format tells how long the
 * item at the front of a stream is. Every format that is self-delimiting, however many values
 * it has, gives a codec that undoes its own encoding; strings, fixed-width fields and structs
 * of such fields are self-delimiting.
 */
module StructCodecs {
  import opened Wrappers
  import opened Bytes
  import opened Schema
  import opened Ledger
  import opened CodecRoundTrip

  /** The length of the item at the front, if there is a whole one. */
  type Format = seq<byte> -> Option<nat>

  /** An item is recognised by its own bytes, whatever follows, and not before it is whole. */
  ghost predicate SelfDelimiting(f: Format) {
    forall s :: f(s).Some? ==> Delimits(f, s, f(s).value)
  }

  ghost predicate Delimits(f: Format, s: seq<byte>, n: nat) {
    && n <= |s|
    && (forall rest :: f(s[..n] + rest) == Some(n))
    && (forall j: nat :: j < n ==> f(s[..j]) == None)
  }

  // ---------------------------------------------------------------- values by number

  /** Byte strings as numbers; the leading 1 keeps their length. */
  function Number(s: seq<byte>): nat { FromBE([1] + s) }

  lemma {:induction false} FromBECons(x: byte, s: seq<byte>)
    ensures FromBE([x] + s) == x * Pow256(|s|) + FromBE(s)
    decreases |s|
  {
    var t := [x] + s;
    if s == [] {
      assert t[..0] == [];
    } else {
      var init := s[..|s| - 1];
      FromBECons(x, init);
      assert t[..|t| - 1] == [x] + init;
      assert x * Pow256(|s|) == x * Pow256(|init|) * 256;
    }
  }

  lemma {:induction false} PowGrows(a: nat, b: nat)
    requires a < b
    ensures 2 * Pow256(a) <= Pow256(b)
    decreases b
  {
    if a + 1 < b {
      PowGrows(a, b - 1);
    }
  }

  lemma NumberInjective(s: seq<byte>, t: seq<byte>)
    requires Number(s) == Number(t)
    ensures s == t
  {
    FromBECons(1, s);
    FromBECons(1, t);
    if |s| < |t| {
      PowGrows(|s|, |t|);
    } else if |t| < |s| {
      PowGrows(|t|, |s|);
    }
    BEOfFromBE(s);
    BEOfFromBE(t);
  }

  /** The wire of a value: number 0 is the zero value, the others are their bytes. */
  ghost function WireOf(zero: seq<byte>, v: nat): seq<byte> {
    if v == 0 then zero
    else if exists s :: Number(s) == v then var s :| Number(s) == v; s
    else []
  }

  function ValueOf(zero: seq<byte>, s: seq<byte>): nat { if s == zero then 0 else Number(s) }

  lemma WireOfValue(zero: seq<byte>, s: seq<byte>)
    ensures WireOf(zero, ValueOf(zero, s)) == s
  {
    if s != zero {
      FromBECons(1, s);
      var t :| Number(t) == Number(s) && t == WireOf(zero, Number(s));
      NumberInjective(s, t);
    }
  }

  /** The codec of a format: it writes the values whose wire is one whole item. */
  ghost function CodecOf(f: Format, zero: seq<byte>, opens: nat -> Need, reopens: nat -> Need): StructCodec {
    StructCodec(
      (v: nat) => f(WireOf(zero, v)) == Some(|WireOf(zero, v)|) && ValueOf(zero, WireOf(zero, v)) == v,
      (v: nat) => WireOf(zero, v),
      s => if f(s).Some? && f(s).value <= |s| then Took(ValueOf(zero, s[..f(s).value]), f(s).value) else Refused(0),
      opens, reopens)
  }

  /** Every self-delimiting format meets the promise, bounded or not. */
  lemma DelimitedRoundTrips(f: Format, zero: seq<byte>, opens: nat -> Need, reopens: nat -> Need)
    requires SelfDelimiting(f)
    ensures RoundTrips(CodecOf(f, zero, opens, reopens)) && ValidKind(Opaque(CodecOf(f, zero, opens, reopens)))
  {
    var c := CodecOf(f, zero, opens, reopens);
    forall v: nat, rest: seq<byte> | c.valid(v)
      ensures c.dec(c.enc(v) + rest) == Took(v, |c.enc(v)|)
    {
      var s := c.enc(v);
      assert Delimits(f, s, |s|) && s[..|s|] == s;
      assert (s + rest)[..|s|] == s;
    }
    forall v: nat, j: nat | c.valid(v) && j < |c.enc(v)|
      ensures c.dec(c.enc(v)[..j]).Refused?
    {
      var s := c.enc(v);
      assert Delimits(f, s, |s|);
    }
  }

  /** And each item of the format is one of its values: nothing was left out to get there. */
  lemma ItemsAreValues(f: Format, zero: seq<byte>, opens: nat -> Need, reopens: nat -> Need, s: seq<byte>)
    requires f(s) == Some(|s|)
    ensures var c := CodecOf(f, zero, opens, reopens);
            c.valid(ValueOf(zero, s)) && c.enc(ValueOf(zero, s)) == s && c.dec(s) == Took(ValueOf(zero, s), |s|)
  {
    WireOfValue(zero, s);
    assert s[..|s|] == s;
  }

  // ---------------------------------------------------------------- fields

  /** A length of `w` bytes and so many bytes after it. */
  function StringFormat(w: nat): Format {
    s => if |s| >= w && |s| - w >= FromBE(s[..w]) then Some(w + FromBE(s[..w])) else None
  }

  /** A fixed number of bytes, of which the reader accepts only some strings. */
  function FixedFormat(n: nat, accepts: seq<byte> -> bool): Format {
    s => if |s| >= n && accepts(s[..n]) then Some(n) else None
  }

  lemma StringDelimits(w: nat)
    ensures SelfDelimiting(StringFormat(w))
  {
    var f := StringFormat(w);
    forall s: seq<byte> | f(s).Some?
      ensures Delimits(f, s, f(s).value)
    {
      var n := f(s).value;
      forall rest: seq<byte>
        ensures f(s[..n] + rest) == Some(n)
      {
        StringLonger(w, s, FromBE(s[..w]), n, rest);
      }
      forall j: nat | j < n
        ensures f(s[..j]) == None
      {
        StringCut(w, s, FromBE(s[..w]), n, j);
      }
    }
  }

  lemma StringLonger(w: nat, s: seq<byte>, len: nat, n: nat, rest: seq<byte>)
    requires w <= |s| && len == FromBE(s[..w]) && n == w + len <= |s|
    ensures StringFormat(w)(s[..n] + rest) == Some(n)
  {
    SamePrefix(s[..n], rest, s, w);
  }

  lemma StringCut(w: nat, s: seq<byte>, len: nat, n: nat, j: nat)
    requires w <= |s| && len == FromBE(s[..w]) && j < n == w + len <= |s|
    ensures StringFormat(w)(s[..j]) == None
  {
    if j >= w {
      SamePrefix(s[..j], [], s, w);
      assert s[..j] + [] == s[..j];
    }
  }

  lemma SamePrefix(a: seq<byte>, rest: seq<byte>, s: seq<byte>, w: nat)
    requires w <= |a| <= |s| && a == s[..|a|]
    ensures (a + rest)[..w] == s[..w]
  {
  }

  lemma FixedDelimits(n: nat, accepts: seq<byte> -> bool)
    ensures SelfDelimiting(FixedFormat(n, accepts))
  {
    var f := FixedFormat(n, accepts);
    forall s: seq<byte> | f(s).Some?
      ensures Delimits(f, s, f(s).value)
    {
      forall rest: seq<byte>
        ensures f(s[..n] + rest) == Some(n)
      {
        assert (s[..n] + rest)[..n] == s[..n];
      }
    }
  }

  // ---------------------------------------------------------------- structs

  /** The fields one after another. */
  function StructFormat(fields: seq<Format>): Format {
    if fields == [] then s => Some(0) else Then2(fields[0], StructFormat(fields[1..]))
  }

  function Then2(f: Format, g: Format): Format {
    s => if f(s).Some? && f(s).value <= |s| && g(s[f(s).value..]).Some?
         then Some(f(s).value + g(s[f(s).value..]).value) else None
  }

  lemma ThenDelimits(f: Format, g: Format)
    requires SelfDelimiting(f) && SelfDelimiting(g)
    ensures SelfDelimiting(Then2(f, g))
  {
    var h := Then2(f, g);
    forall s: seq<byte> | h(s).Some?
      ensures Delimits(h, s, h(s).value)
    {
      var n := f(s).value;
      var tail := s[n..];
      var m := g(tail).value;
      var k := n + m;
      assert Delimits(f, s, n) && Delimits(g, tail, m);
      forall rest: seq<byte>
        ensures h(s[..k] + rest) == Some(k)
      {
        Longer(f, g, s, n, m, rest);
      }
      forall j: nat | j < k
        ensures h(s[..j]) == None
      {
        CutShort(f, g, s, n, m, j);
      }
    }
  }

  lemma Longer(f: Format, g: Format, s: seq<byte>, n: nat, m: nat, rest: seq<byte>)
    requires Delimits(f, s, n) && Delimits(g, s[n..], m) && n + m <= |s|
    ensures Then2(f, g)(s[..n + m] + rest) == Some(n + m)
  {
    var t, tail := s[..n + m] + rest, s[n..];
    assert t == s[..n] + (tail[..m] + rest) && t[n..] == tail[..m] + rest;
  }

  lemma CutShort(f: Format, g: Format, s: seq<byte>, n: nat, m: nat, j: nat)
    requires Delimits(f, s, n) && Delimits(g, s[n..], m) && j < n + m <= |s|
    ensures Then2(f, g)(s[..j]) == None
  {
    if j >= n {
      assert s[..j] == s[..n] + s[n..j] && s[..j][n..] == s[n..][..j - n];
    }
  }

  lemma {:induction false} StructDelimits(fields: seq<Format>)
    requires forall i :: 0 <= i < |fields| ==> SelfDelimiting(fields[i])
    ensures SelfDelimiting(StructFormat(fields))
    decreases |fields|
  {
    if fields != [] {
      StructDelimits(fields[1..]);
      ThenDelimits(fields[0], StructFormat(fields[1..]));
    }
  }

  // ---------------------------------------------------------------- types of the default registry

  /** A struct of leaves opens one frame either way. */
  function OneFrame(v: nat): Need { Need(1, 1) }

  const MAP_SPEC: seq<Format> := [StringFormat(2), StringFormat(2)]
  const ARRAY_SPEC: seq<Format> := [StringFormat(2), FixedFormat(4, _ => true)]

  function Zeros(n: nat): seq<byte> { seq(n, _ => 0) }

  /** A compressed key that the curve accepts, or all zeros. */
  function IdentityFormat(onCurve: seq<byte> -> bool): Format {
    FixedFormat(33, s => s == Zeros(33) || onCurve(s))
  }

  function NoFrame(v: nat): Need { FREE }

  ghost function MapSpecKind(): Kind { Opaque(CodecOf(StructFormat(MAP_SPEC), Zeros(4), OneFrame, OneFrame)) }

  ghost function ArraySpecKind(): Kind { Opaque(CodecOf(StructFormat(ARRAY_SPEC), Zeros(6), OneFrame, OneFrame)) }

  ghost function IdentityKind(onCurve: seq<byte> -> bool): Kind {
    Opaque(CodecOf(IdentityFormat(onCurve), Zeros(33), NoFrame, NoFrame))
  }

  /** Two strings; a string and a number; a public key. */
  lemma SpecKindsValid(onCurve: seq<byte> -> bool)
    ensures ValidKind(MapSpecKind()) && ValidKind(ArraySpecKind()) && ValidKind(IdentityKind(onCurve))
  {
    StringDelimits(2);
    FixedDelimits(4, _ => true);
    StructDelimits(MAP_SPEC);
    StructDelimits(ARRAY_SPEC);
    FixedDelimits(33, s => s == Zeros(33) || onCurve(s));
    DelimitedRoundTrips(StructFormat(MAP_SPEC), Zeros(4), OneFrame, OneFrame);
    DelimitedRoundTrips(StructFormat(ARRAY_SPEC), Zeros(6), OneFrame, OneFrame);
    DelimitedRoundTrips(IdentityFormat(onCurve), Zeros(33), NoFrame, NoFrame);
  }

  /** The registry of these three types, under the names the source gives them. */
  ghost function SpecRegistry(onCurve: seq<byte> -> bool): Registry {
    var specs := map["astral.blueprint.map_spec" := Proto(MapSpecKind(), None)];
    Registry(specs["astral.blueprint.array_spec" := Proto(ArraySpecKind(), None)]["identity" := Proto(IdentityKind(onCurve), None)], None)
  }

  /** Registries that hold such types are among those the codec's theorems are about. */
  lemma SpecRegistryReady(onCurve: seq<byte> -> bool)
    ensures Ready(SpecRegistry(onCurve))
  {
    SpecKindsValid(onCurve);
    ProtoReady(map[], "astral.blueprint.map_spec", MapSpecKind());
    var specs := map["astral.blueprint.map_spec" := Proto(MapSpecKind(), None)];
    ProtoReady(specs, "astral.blueprint.array_spec", ArraySpecKind());
    ProtoReady(specs["astral.blueprint.array_spec" := Proto(ArraySpecKind(), None)], "identity", IdentityKind(onCurve));
  }

  lemma ProtoReady(entries: map<string, RegEntry>, n: string, k: Kind)
    requires Ready(Registry(entries, None)) && n != "" && ValidKind(k)
    ensures Ready(Registry(entries[n := Proto(k, None)], None))
  {
  }
}
