/** The encoding tells objects apart: two conforming values with one encoding are one value. */
module CodecTells {
  import opened Wrappers
  import opened Bytes
  import opened Schema
  import opened Ledger
  import opened Codec
  import opened CodecPlan
  import opened CodecRoundTrip
  import Construct

  // ---------------------------------------------------------------- leaves, tags and keys

  lemma CutSame(a: seq<byte>, x: seq<byte>, b: seq<byte>, y: seq<byte>)
    requires a + x == b + y && |a| == |b|
    ensures a == b && x == y
  {
    assert (a + x)[..|a|] == a && (b + y)[..|b|] == b;
    assert (a + x)[|a|..] == x && (b + y)[|b|..] == y;
  }

  lemma BlobTells(w: nat, s: seq<byte>, t: seq<byte>, a: seq<byte>, b: seq<byte>)
    requires |s| < Pow256(w) && |t| < Pow256(w) && BE(w, |s|) + s + a == BE(w, |t|) + t + b
    ensures s == t && a == b
  {
    ConcatAssoc(BE(w, |s|), s, a);
    ConcatAssoc(BE(w, |t|), t, b);
    CutSame(BE(w, |s|), s + a, BE(w, |t|), t + b);
    FromBEOfBE(w, |s|);
    FromBEOfBE(w, |t|);
    CutSame(s, a, t, b);
  }

  lemma UintTells(w: nat, m: nat, n: nat, a: seq<byte>, b: seq<byte>)
    requires m < Pow256(w) && n < Pow256(w) && BE(w, m) + a == BE(w, n) + b
    ensures m == n && a == b
  {
    CutSame(BE(w, m), a, BE(w, n), b);
    FromBEOfBE(w, m);
    FromBEOfBE(w, n);
  }

  lemma OpaqueTells(c: StructCodec, m: nat, n: nat, a: seq<byte>, b: seq<byte>)
    requires RoundTrips(c) && c.valid(m) && c.valid(n) && c.enc(m) + a == c.enc(n) + b
    ensures m == n && a == b
  {
    assert c.dec(c.enc(m) + a) == Took(m, |c.enc(m)|);
    assert c.dec(c.enc(n) + b) == Took(n, |c.enc(n)|);
    CutSame(c.enc(m), a, c.enc(n), b);
  }

  function LeafWire(k: Kind, p: Payload): seq<byte> { LeafPrefix(k, p) + LeafBody(k, p) }

  lemma LeafTells(k: Kind, p: Payload, q: Payload, a: seq<byte>, b: seq<byte>)
    requires ValidKind(k) && ValidPayload(k, p) && ValidPayload(k, q) && LeafWire(k, p) + a == LeafWire(k, q) + b
    ensures p == q && a == b
  {
    match k
    case Blob(w) => BlobTells(w, p.s, q.s, a, b);
    case Empty =>
      assert LeafWire(k, p) + a == a && LeafWire(k, q) + b == b;
    case Uint(w) =>
      BodyOnly(k, p);
      BodyOnly(k, q);
      UintTells(w, p.n, q.n, a, b);
    case Opaque(c) =>
      BodyOnly(k, p);
      BodyOnly(k, q);
      OpaqueTells(c, p.n, q.n, a, b);
    case _ =>
      BodyOnly(k, p);
      BodyOnly(k, q);
      CutSame(LeafBody(k, p), a, LeafBody(k, q), b);
  }

  lemma BodyOnly(k: Kind, p: Payload)
    requires !k.Blob?
    ensures LeafWire(k, p) == LeafBody(k, p)
  {
  }

  lemma TagTells(m: string, n: string, a: seq<byte>, b: seq<byte>)
    requires ByteName(m) && ByteName(n) && PlanTag(m).Some? && PlanTag(n).Some?
    requires PlanTag(m).value.bytes + a == PlanTag(n).value.bytes + b
    ensures m == n && a == b
  {
    BlobTells(1, NameBytes(m), NameBytes(n), a, b);
    NameRoundTrip(m);
    NameRoundTrip(n);
  }

  lemma KeyTells(w: nat, k: Key, l: Key, a: seq<byte>, b: seq<byte>)
    requires ValidKey(w, k) && ValidKey(w, l) && KeyWire(w, k).Some? && KeyWire(w, l).Some?
    requires KeyWire(w, k).value + a == KeyWire(w, l).value + b
    ensures k == l && a == b
  {
    Pow256Values();
    if w == 0 {
      BlobTells(2, k.s, l.s, a, b);
    } else {
      UintTells(w, k.n, l.n, a, b);
    }
  }

  // ---------------------------------------------------------------- objects

  /** A plan within the byte limit, so that no count wraps. */
  ghost predicate Small(p: Option<Plan>) { p.Some? && |p.value.bytes| <= MAX_BYTES }

  function BytesOf(p: Option<Plan>): seq<byte> { if p.Some? then p.value.bytes else [] }

  lemma {:induction false} ObjTells(reg: Registry, name: string, u: Val, v: Val, a: seq<byte>, b: seq<byte>)
    requires Ready(reg) && ConformsObj(reg, name, u) && ConformsObj(reg, name, v)
    requires Small(PlanObj(u)) && Small(PlanObj(v)) && BytesOf(PlanObj(u)) + a == BytesOf(PlanObj(v)) + b
    ensures CanonObj(u) == CanonObj(v) && a == b
    decreases u, 1
  {
    ResolveValid(reg, name);
    match Resolve(reg, name)
    case Some(LeafShape(k)) => LeafTells(k, u.payload, v.payload, a, b);
    case Some(AliasShape(_, k)) => LeafTells(k, u.payload, v.payload, a, b);
    case Some(StructShape(bp)) => RowTells(reg, FieldRow(bp.fields), u.fields, v.fields, a, b);
  }

  /** A flag, and the object if it is there. */
  lemma {:induction false} FlaggedTells(reg: Registry, t: string, u: Val, v: Val, hu: bool, hv: bool, a: seq<byte>, b: seq<byte>)
    requires Ready(reg) && (hu ==> ConformsObj(reg, t, u) && Small(PlanObj(u))) && (hv ==> ConformsObj(reg, t, v) && Small(PlanObj(v)))
    requires (if hu then [1] + BytesOf(PlanObj(u)) else [0]) + a == (if hv then [1] + BytesOf(PlanObj(v)) else [0]) + b
    ensures hu == hv && a == b && (hu ==> CanonObj(u) == CanonObj(v))
    decreases u, 2
  {
    var x, y := (if hu then BytesOf(PlanObj(u)) else []) + a, (if hv then BytesOf(PlanObj(v)) else []) + b;
    Prefixed(if hu then 1 else 0, if hu then BytesOf(PlanObj(u)) else [], a);
    Prefixed(if hv then 1 else 0, if hv then BytesOf(PlanObj(v)) else [], b);
    CutSame([if hu then 1 else 0], x, [if hv then 1 else 0], y);
    if hu {
      ObjTells(reg, t, u, v, a, b);
    } else {
      assert x == a && y == b;
    }
  }

  lemma Prefixed(x: byte, s: seq<byte>, a: seq<byte>)
    ensures [x] + s + a == [x] + (s + a) && [x] + [] == [x]
  {
  }

  /** The tag's first byte is its length, so an absent value is told from a present one. */
  lemma TagFirst(n: string)
    requires PlanTag(n).Some? && n != ""
    ensures |PlanTag(n).value.bytes| > 0 && PlanTag(n).value.bytes[0] == |n|
  {
    Pow256Values();
    assert BE(1, |n|) == [] + [|n| % 256];
  }

  function TaggedBytes(v: Val, here: bool): seq<byte> {
    if here then BytesOf(PlanTag(ObjectType(v))) + BytesOf(PlanObj(v)) else [0]
  }

  ghost predicate Tagged(reg: Registry, v: Val, here: bool)
    requires Ready(reg)
  {
    here ==> ConformsAny(reg, v) && PlanTag(ObjectType(v)).Some? && Small(PlanObj(v))
  }

  /** A tag and the object it names, or no value. */
  lemma {:induction false} TaggedTells(reg: Registry, u: Val, v: Val, hu: bool, hv: bool, a: seq<byte>, b: seq<byte>)
    requires Ready(reg) && Tagged(reg, u, hu) && Tagged(reg, v, hv) && TaggedBytes(u, hu) + a == TaggedBytes(v, hv) + b
    ensures hu == hv && a == b && (hu ==> CanonObj(u) == CanonObj(v))
    decreases u, 2
  {
    SameStart(u, v, hu, hv, a, b);
    if hu {
      var m, n := ObjectType(u), ObjectType(v);
      ConcatAssoc(PlanTag(m).value.bytes, BytesOf(PlanObj(u)), a);
      ConcatAssoc(PlanTag(n).value.bytes, BytesOf(PlanObj(v)), b);
      TagTells(m, n, BytesOf(PlanObj(u)) + a, BytesOf(PlanObj(v)) + b);
      ObjTells(reg, m, u, v, a, b);
    } else {
      CutSame([0], a, [0], b);
    }
  }

  lemma SameStart(u: Val, v: Val, hu: bool, hv: bool, a: seq<byte>, b: seq<byte>)
    requires hu ==> ObjectType(u) != "" && PlanTag(ObjectType(u)).Some?
    requires hv ==> ObjectType(v) != "" && PlanTag(ObjectType(v)).Some?
    requires TaggedBytes(u, hu) + a == TaggedBytes(v, hv) + b
    ensures hu == hv
  {
    if hu { TagFirst(ObjectType(u)); }
    if hv { TagFirst(ObjectType(v)); }
    assert (TaggedBytes(u, hu) + a)[0] == if hu then |ObjectType(u)| else 0;
    assert (TaggedBytes(v, hv) + b)[0] == if hv then |ObjectType(v)| else 0;
  }

  lemma {:induction false} SlotTells(reg: Registry, slot: Slot, u: Val, v: Val, a: seq<byte>, b: seq<byte>)
    requires Ready(reg) && Conforms(reg, slot, u) && Conforms(reg, slot, v)
    requires Small(PlanSlot(slot, u)) && Small(PlanSlot(slot, v)) && BytesOf(PlanSlot(slot, u)) + a == BytesOf(PlanSlot(slot, v)) + b
    ensures CanonSlot(slot, u) == CanonSlot(slot, v) && a == b
    decreases u, 3, 1
  {
    match slot
    case FieldSlot(Primitive(t)) => ObjTells(reg, t, u, v, a, b);
    case FieldSlot(Ref(t)) => ObjTells(reg, t, u, v, a, b);
    case FieldSlot(Ptr(t)) => PtrTells(reg, t, u, v, a, b);
    case FieldSlot(AnyObject) => AnyTells(reg, u, v, a, b);
    case ElemSlot(t) => ElemTells(reg, t, u, v, a, b);
    case FieldSlot(_) => CarrierTells(reg, slot.spec, u, v, a, b);
  }

  lemma {:induction false} PtrTells(reg: Registry, t: string, u: Val, v: Val, a: seq<byte>, b: seq<byte>)
    requires Ready(reg) && Conforms(reg, FieldSlot(Ptr(t)), u) && Conforms(reg, FieldSlot(Ptr(t)), v)
    requires Small(PlanSlot(FieldSlot(Ptr(t)), u)) && Small(PlanSlot(FieldSlot(Ptr(t)), v))
    requires BytesOf(PlanSlot(FieldSlot(Ptr(t)), u)) + a == BytesOf(PlanSlot(FieldSlot(Ptr(t)), v)) + b
    ensures CanonSlot(FieldSlot(Ptr(t)), u) == CanonSlot(FieldSlot(Ptr(t)), v) && a == b
    decreases u, 3, 0
  {
    FlaggedTells(reg, t, u, v, !IsAbsent(u), !IsAbsent(v), a, b);
  }

  lemma {:induction false} AnyTells(reg: Registry, u: Val, v: Val, a: seq<byte>, b: seq<byte>)
    requires Ready(reg) && Conforms(reg, FieldSlot(AnyObject), u) && Conforms(reg, FieldSlot(AnyObject), v)
    requires Small(PlanSlot(FieldSlot(AnyObject), u)) && Small(PlanSlot(FieldSlot(AnyObject), v))
    requires BytesOf(PlanSlot(FieldSlot(AnyObject), u)) + a == BytesOf(PlanSlot(FieldSlot(AnyObject), v)) + b
    ensures CanonSlot(FieldSlot(AnyObject), u) == CanonSlot(FieldSlot(AnyObject), v) && a == b
    decreases u, 3, 0
  {
    assert PlanTag("").value.bytes == [0];
    TaggedTells(reg, u, v, !IsAbsent(u), !IsAbsent(v), a, b);
  }

  lemma {:induction false} ElemTells(reg: Registry, t: string, u: Val, v: Val, a: seq<byte>, b: seq<byte>)
    requires Ready(reg) && Conforms(reg, ElemSlot(t), u) && Conforms(reg, ElemSlot(t), v)
    requires Small(PlanSlot(ElemSlot(t), u)) && Small(PlanSlot(ElemSlot(t), v))
    requires BytesOf(PlanSlot(ElemSlot(t), u)) + a == BytesOf(PlanSlot(ElemSlot(t), v)) + b
    ensures CanonSlot(ElemSlot(t), u) == CanonSlot(ElemSlot(t), v) && a == b
    decreases u, 3, 0
  {
    if t == "" {
      TaggedTells(reg, u, v, !IsAbsent(u), !IsAbsent(v), a, b);
    } else {
      FlaggedTells(reg, t, u, v, !u.NilPtr? && !u.NilIface?, !v.NilPtr? && !v.NilIface?, a, b);
    }
  }

  lemma {:induction false} CarrierTells(reg: Registry, spec: Spec, u: Val, v: Val, a: seq<byte>, b: seq<byte>)
    requires Ready(reg) && (spec.Slice? || spec.Array? || spec.Map?)
    requires Conforms(reg, FieldSlot(spec), u) && Conforms(reg, FieldSlot(spec), v)
    requires Small(PlanObj(u)) && Small(PlanObj(v)) && BytesOf(PlanObj(u)) + a == BytesOf(PlanObj(v)) + b
    ensures CanonObj(u) == CanonObj(v) && a == b
    decreases u, 3, 0
  {
    match spec
    case Array(t, _) => RowTells(reg, ElemRow(t), u.items, v.items, a, b);
    case Slice(t) => SliceTells(reg, t, u, v, a, b);
    case Map(_, t) => MapTells(reg, u, v, a, b);
  }

  lemma {:induction false} RowTells(reg: Registry, row: Row, us: seq<Val>, vs: seq<Val>, a: seq<byte>, b: seq<byte>)
    requires Ready(reg) && |us| == |vs| && RowFits(row, |us|) && ConformsRow(reg, row, us) && ConformsRow(reg, row, vs)
    requires Small(PlanRow(row, us)) && Small(PlanRow(row, vs)) && BytesOf(PlanRow(row, us)) + a == BytesOf(PlanRow(row, vs)) + b
    ensures CanonRow(row, us) == CanonRow(row, vs) && a == b
    decreases us, 0
  {
    if us == [] {
      assert [] + a == a && [] + b == b;
    } else {
      var slot, next := HeadSlot(row), TailRow(row);
      var x, y := BytesOf(PlanRow(next, us[1..])), BytesOf(PlanRow(next, vs[1..]));
      ConcatAssoc(BytesOf(PlanSlot(slot, us[0])), x, a);
      ConcatAssoc(BytesOf(PlanSlot(slot, vs[0])), y, b);
      SlotTells(reg, slot, us[0], vs[0], x + a, y + b);
      RowTells(reg, next, us[1..], vs[1..], a, b);
    }
  }

  lemma {:induction false} SliceTells(reg: Registry, t: string, u: Val, v: Val, a: seq<byte>, b: seq<byte>)
    requires Ready(reg) && u.SliceV? && v.SliceV? && u.elem == v.elem == t
    requires ConformsRow(reg, ElemRow(t), u.items) && ConformsRow(reg, ElemRow(t), v.items)
    requires Small(PlanObj(u)) && Small(PlanObj(v)) && BytesOf(PlanObj(u)) + a == BytesOf(PlanObj(v)) + b
    ensures CanonObj(u) == CanonObj(v) && a == b
    decreases u, 1
  {
    var x, y := BytesOf(PlanRow(ElemRow(t), u.items)), BytesOf(PlanRow(ElemRow(t), v.items));
    RowLength(t, u.items);
    RowLength(t, v.items);
    CountTells(|u.items|, |v.items|, x, y, a, b);
    RowTells(reg, ElemRow(t), u.items, v.items, a, b);
  }

  lemma CountTells(m: nat, n: nat, x: seq<byte>, y: seq<byte>, a: seq<byte>, b: seq<byte>)
    requires m <= MAX_BYTES && n <= MAX_BYTES && BE(4, m) + x + a == BE(4, n) + y + b
    ensures m == n && x + a == y + b
  {
    Pow256Values();
    ConcatAssoc(BE(4, m), x, a);
    ConcatAssoc(BE(4, n), y, b);
    UintTells(4, m, n, x + a, y + b);
  }

  // ---------------------------------------------------------------- maps

  lemma {:induction false} MapTells(reg: Registry, u: Val, v: Val, a: seq<byte>, b: seq<byte>)
    requires Ready(reg) && u.MapV? && v.MapV? && u.keyWidth == v.keyWidth && u.elem == v.elem
    requires DistinctKeys(u.entries) && ConformsEntries(reg, u.keyWidth, u.elem, u.entries)
    requires DistinctKeys(v.entries) && ConformsEntries(reg, v.keyWidth, v.elem, v.entries)
    requires Small(PlanObj(u)) && Small(PlanObj(v)) && BytesOf(PlanObj(u)) + a == BytesOf(PlanObj(v)) + b
    ensures CanonObj(u) == CanonObj(v) && a == b
    decreases u, 1
  {
    var w, t := u.keyWidth, u.elem;
    var us, vs := SortEntries(w, u.entries), SortEntries(w, v.entries);
    SortedParts(reg, w, t, u.entries, us);
    SortedParts(reg, w, t, v.entries, vs);
    var x, y := PairsWire(PlanStage(w, t, us).value), PairsWire(PlanStage(w, t, vs).value);
    MapBytes(u, x, a);
    MapBytes(v, y, b);
    ConcatAssoc(BE(4, |u.entries|), x, a);
    ConcatAssoc(BE(4, |v.entries|), y, b);
    CountTells(|u.entries|, |v.entries|, x, y, a, b);
    EntriesTell(reg, u, us, vs, a, b);
    CanonMap(reg, w, t, u.entries);
    CanonMap(reg, w, t, v.entries);
  }

  lemma {:induction false} EntriesTell(reg: Registry, m: Val, us: seq<Entry>, vs: seq<Entry>, a: seq<byte>, b: seq<byte>)
    requires Ready(reg) && m.MapV? && |us| == |vs| && forall e :: e in us ==> e in m.entries
    requires ConformsEntries(reg, m.keyWidth, m.elem, us) && ConformsEntries(reg, m.keyWidth, m.elem, vs)
    requires PlanStage(m.keyWidth, m.elem, us).Some? && PlanStage(m.keyWidth, m.elem, vs).Some?
    requires PairsWire(PlanStage(m.keyWidth, m.elem, us).value) + a == PairsWire(PlanStage(m.keyWidth, m.elem, vs).value) + b
    ensures CanonEntries(m.elem, us) == CanonEntries(m.elem, vs) && a == b
    decreases m, 0, |us|
  {
    var w, t := m.keyWidth, m.elem;
    if us == [] {
      assert [] + a == a && [] + b == b;
    } else {
      var ps, qs := PlanStage(w, t, us).value, PlanStage(w, t, vs).value;
      assert ps[0] == PlanPair(w, t, us[0]).value && ps[1..] == PlanStage(w, t, us[1..]).value;
      assert qs[0] == PlanPair(w, t, vs[0]).value && qs[1..] == PlanStage(w, t, vs[1..]).value;
      var x, y := PairsWire(ps[1..]) + a, PairsWire(qs[1..]) + b;
      ConcatAssoc(ps[0].key + ps[0].val, PairsWire(ps[1..]), a);
      ConcatAssoc(qs[0].key + qs[0].val, PairsWire(qs[1..]), b);
      assert us[0] in us;
      var i :| 0 <= i < |m.entries| && m.entries[i] == us[0];
      EntryTells(reg, m, i, vs[0], x, y);
      EntriesTell(reg, m, us[1..], vs[1..], a, b);
    }
  }

  lemma {:induction false} EntryTells(reg: Registry, m: Val, i: nat, f: Entry, a: seq<byte>, b: seq<byte>)
    requires Ready(reg) && m.MapV? && i < |m.entries|
    requires ConformsEntry(reg, m.keyWidth, m.elem, m.entries[i]) && ConformsEntry(reg, m.keyWidth, m.elem, f)
    requires PlanPair(m.keyWidth, m.elem, m.entries[i]).Some? && PlanPair(m.keyWidth, m.elem, f).Some?
    requires var p, q := PlanPair(m.keyWidth, m.elem, m.entries[i]).value, PlanPair(m.keyWidth, m.elem, f).value;
             p.key + p.val + a == q.key + q.val + b
    ensures CanonEntry(m.elem, m.entries[i]) == CanonEntry(m.elem, f) && a == b
    decreases m, 0, 0
  {
    var w, t, e := m.keyWidth, m.elem, m.entries[i];
    var p, q := PlanPair(w, t, e).value, PlanPair(w, t, f).value;
    ConcatAssoc(p.key, p.val, a);
    ConcatAssoc(q.key, q.val, b);
    KeyTells(w, e.key, f.key, p.val + a, q.val + b);
    SlotTells(reg, ElemSlot(t), e.val, f.val, a, b);
  }
}
