/** What the codec promises its callers: round trips, and encoder and decoder agreeing on limits. */
module CodecTheorems {
  import opened Wrappers
  import opened Bytes
  import opened Schema
  import opened Ledger
  import opened Codec
  import opened CodecPlan
  import opened CodecRoundTrip
  import Construct

  // ---------------------------------------------------------------- encode, then decode

  /**
   * Encode succeeds exactly when the tag and the object have a plan that fits the ledger,
   * and then the output is that plan.
   */
  lemma EncodeExact(v: Val, st: WState)
    requires Within(st.led) && ObjectType(v) != ""
    ensures Writes(Encode(v, st), st, Then(PlanTag(ObjectType(v)), PlanObj(v)))
  {
    TaggedExact(v, st);
  }

  /** Decode finds the name in the tag and reads the object on a fresh ledger. */
  lemma DecodeTag(reg: Registry, name: string, body: seq<byte>)
    requires PrimitivesCompiled(reg) && ByteName(name) && PlanTag(name).Some?
    ensures Decode(reg, PlanTag(name).value.bytes + body) == ReadObj(reg, name, RState(body, FRESH, 0))
  {
    var inp := PlanTag(name).value.bytes + body;
    assert PlanTag(name).value.bytes == BE(1, |name|) + NameBytes(name) && BE(1, |name|) == [] + [|name|];
    assert inp[0] == |name| && inp[1..1 + |name|] == NameBytes(name) && inp[1 + |name|..] == body;
    NameRoundTrip(name);
  }

  lemma DecodePlanned(reg: Registry, v: Val, rest: seq<byte>)
    requires Ready(reg) && ConformsTop(reg, v) && PlanTag(ObjectType(v)).Some?
    requires PlanObj(v).Some? && |PlanObj(v).value.bytes| <= MAX_BYTES
    ensures var r := Decode(reg, PlanTag(ObjectType(v)).value.bytes + (PlanObj(v).value.bytes + rest));
            Reads(r, CanonObj(v), rest, RState(PlanObj(v).value.bytes + rest, FRESH, 0), NeedObj(reg, v), |PlanObj(v).value.bytes|)
  {
    var body := PlanObj(v).value.bytes;
    DecodeTag(reg, ObjectType(v), body + rest);
    ObjReads(reg, ObjectType(v), v, rest, RState(body + rest, FRESH, 0));
  }

  /**
   * Decoding what Encode wrote: it succeeds exactly when the decoder's own frames and bytes
   * fit a fresh ledger, gives back the value in canonical form, and leaves what follows.
   */
  lemma DecodeOfEncode(reg: Registry, v: Val, rest: seq<byte>)
    requires Ready(reg) && ConformsTop(reg, v)
    requires Encode(v, WState([], FRESH)).err == None
    ensures PlanObj(v).Some? && Fits(FRESH, PlanObj(v).value)
    ensures var r := Decode(reg, Encode(v, WState([], FRESH)).st.out + rest);
            && (r.Got? <==> FitsR(FRESH, NeedObj(reg, v), |PlanObj(v).value.bytes|))
            && (r.Got? ==> r.value == CanonObj(v) && r.st.inp == rest)
  {
    EncodedAs(v, rest);
    DecodePlanned(reg, v, rest);
  }

  /** Two plans that fit together fit one by one. */
  lemma ThenParts(p: Option<Plan>, q: Option<Plan>)
    ensures Then(p, q).Some? <==> p.Some? && q.Some?
    ensures Then(p, q).Some? && Fits(FRESH, Then(p, q).value) ==> Fits(FRESH, q.value)
    ensures Then(p, q).Some? ==> [] + Then(p, q).value.bytes == p.value.bytes + q.value.bytes
  {
  }

  lemma EncodedAs(v: Val, rest: seq<byte>)
    requires Encode(v, WState([], FRESH)).err == None
    ensures PlanTag(ObjectType(v)).Some? && PlanObj(v).Some? && Fits(FRESH, PlanObj(v).value)
    ensures Encode(v, WState([], FRESH)).st.out + rest == PlanTag(ObjectType(v)).value.bytes + (PlanObj(v).value.bytes + rest)
  {
    EncodeExact(v, WState([], FRESH));
    ThenParts(PlanTag(ObjectType(v)), PlanObj(v));
    ConcatAssoc(PlanTag(ObjectType(v)).value.bytes, PlanObj(v).value.bytes, rest);
  }

  // ---------------------------------------------------------------- agreement on limits

  /** No map anywhere, inside compile-time structs neither. */
  predicate MapFree(v: Val)
    decreases v, 0
  {
    match v
    case Struct(_, fields) => AllMapFree(fields)
    case SliceV(_, items) => AllMapFree(items)
    case ArrayV(_, items) => AllMapFree(items)
    case MapV(_, _, _) => false
    case Leaf(_, k, p) => Frugal(k, p)
    case Alias(_, k, p) => Frugal(k, p)
    case _ => true
  }

  /** A compile-time codec that reads with no more frames than it writes with, as one without maps does. */
  predicate Frugal(k: Kind, p: Payload) {
    LeafReopens(k, p).peak <= LeafOpens(k, p).peak && LeafReopens(k, p).frames <= LeafOpens(k, p).frames
  }

  predicate AllMapFree(vs: seq<Val>)
    decreases vs, 0
  {
    vs == [] || (MapFree(vs[0]) && AllMapFree(vs[1..]))
  }

  predicate NoMore(n: Need, p: Plan) { n.peak <= p.peak && n.frames <= p.frames }

  /** Every read path opens no more frames, and no deeper ones, than the matching write path. */
  lemma {:induction false} ObjNeedsNoMore(reg: Registry, v: Val)
    requires MapFree(v) && PlanObj(v).Some?
    ensures NoMore(NeedObj(reg, v), PlanObj(v).value)
    decreases v, 1
  {
    match v
    case Struct(bp, fields) => RowNeedsNoMore(reg, FieldRow(bp.fields), fields);
    case SliceV(t, items) => RowNeedsNoMore(reg, ElemRow(t), items);
    case ArrayV(t, items) => RowNeedsNoMore(reg, ElemRow(t), items);
    case _ =>
  }

  lemma {:induction false} SlotNeedsNoMore(reg: Registry, slot: Slot, v: Val)
    requires MapFree(v) && PlanSlot(slot, v).Some?
    ensures NoMore(NeedSlot(reg, slot, v), PlanSlot(slot, v).value)
    decreases v, 2
  {
    if PlanObj(v).Some? {
      ObjNeedsNoMore(reg, v);
    }
    match slot
    case ElemSlot(t) => ElemNeedsNoMore(reg, t, v);
    case FieldSlot(spec) =>
  }

  lemma ElemNeedsNoMore(reg: Registry, t: string, v: Val)
    requires PlanSlot(ElemSlot(t), v).Some? && (PlanObj(v).Some? ==> NoMore(NeedObj(reg, v), PlanObj(v).value))
    ensures NoMore(NeedSlot(reg, ElemSlot(t), v), PlanSlot(ElemSlot(t), v).value)
  {
  }

  lemma {:induction false} RowNeedsNoMore(reg: Registry, row: Row, vals: seq<Val>)
    requires RowFits(row, |vals|) && AllMapFree(vals) && PlanRow(row, vals).Some?
    ensures NoMore(NeedRow(reg, row, vals), PlanRow(row, vals).value)
    decreases vals, 0
  {
    if vals != [] {
      SlotNeedsNoMore(reg, HeadSlot(row), vals[0]);
      RowNeedsNoMore(reg, TailRow(row), vals[1..]);
    }
  }

  /** What Encode emits within its limits, Decode never refuses on a limit, if it holds no map. */
  lemma MapFreeAgreement(reg: Registry, v: Val, rest: seq<byte>)
    requires Ready(reg) && ConformsTop(reg, v) && MapFree(v)
    requires Encode(v, WState([], FRESH)).err == None
    ensures var r := Decode(reg, Encode(v, WState([], FRESH)).st.out + rest);
            r.Got? && r.value == CanonObj(v) && r.st.inp == rest
  {
    DecodeOfEncode(reg, v, rest);
    ObjNeedsNoMore(reg, v);
  }

  /**
   * The same at any depth of any two ledgers: a reader that has spent no more than the
   * writer had can read the slot, and has spent no more afterwards.
   */
  lemma SlotAgreement(reg: Registry, slot: Slot, v: Val, rest: seq<byte>, w: WState, led: Counters)
    requires Ready(reg) && Conforms(reg, slot, v) && MapFree(v) && Within(w.led)
    requires WriteSlot(slot, v, w).err == None
    requires led.depth <= w.led.depth && led.frames <= w.led.frames && led.bytes <= w.led.bytes
    ensures PlanSlot(slot, v).Some? && WriteSlot(slot, v, w).st.out == w.out + PlanSlot(slot, v).value.bytes
    ensures var r := ReadSlot(reg, slot, RState(PlanSlot(slot, v).value.bytes + rest, led, 0));
            && r.Got? && r.value == CanonSlot(slot, v) && r.st.inp == rest
            && r.st.led.frames <= WriteSlot(slot, v, w).st.led.frames
            && r.st.led.bytes <= WriteSlot(slot, v, w).st.led.bytes
  {
    WriteExact(slot, v, w);
    SlotNeedsNoMore(reg, slot, v);
    SlotReads(reg, slot, v, rest, RState(PlanSlot(slot, v).value.bytes + rest, led, 0));
  }

  // ---------------------------------------------------------------- maps break the agreement

  /** A Blueprint whose one field maps uint8 keys to objects of any type. */
  const NEST := Blueprint("m", [Field("next", Map("uint8", ""))], "")
  const NEST_REG := Registry(map["m" := Runtime(NEST)], None)

  function Storey(es: seq<Entry>): Val { Struct(NEST, [MapV(1, "", es)]) }

  /** `n` of them, each the value of the one map entry of the next. */
  function Tower(n: nat): Val { Storey(if n == 0 then [] else [Entry(UintKey(0), Tower(n - 1))]) }

  lemma NestReady()
    ensures Ready(NEST_REG) && Resolve(NEST_REG, "m") == Some(StructShape(NEST))
  {
    assert NEST_REG.entries["m"] == Runtime(NEST);
    assert ValidSpec(NEST.fields[0].spec);
    assert ValidBlueprint(NEST);
    assert !IsPrimitive("m") && NEST_REG.entries.Keys == {"m"};
    assert Lookup(NEST_REG, "m") == Some(Found(NEST_REG, Runtime(NEST)));
    var fs := Construct.ZeroFields(NEST_REG, NEST.fields, 1, Construct.MAX_NODES - 1);
    assert NEST.fields[1..] == [];
    assert !fs.err by {
      assert !Construct.SpecZero(NEST_REG, NEST.fields[0].spec, 1, Construct.MAX_NODES - 1).err;
      assert !Construct.ZeroFields(NEST_REG, NEST.fields[1..], 1, Construct.MAX_NODES - 1).err;
    }
  }

  lemma {:induction false} TowerConforms(n: nat)
    requires Ready(NEST_REG) && Resolve(NEST_REG, "m") == Some(StructShape(NEST))
    ensures ConformsObj(NEST_REG, "m", Tower(n)) && ConformsAny(NEST_REG, Tower(n))
  {
    var fields := Tower(n).fields;
    var entries := fields[0].entries;
    if n > 0 {
      TowerConforms(n - 1);
      assert ConformsEntry(NEST_REG, 1, "", entries[0]);
    }
    assert ConformsEntries(NEST_REG, 1, "", entries);
    assert IsMapKey("uint8") && Construct.KeyWidth("uint8") == 1;
    assert Conforms(NEST_REG, FieldSlot(NEST.fields[0].spec), fields[0]);
    assert ConformsRow(NEST_REG, FieldRow(NEST.fields), fields);
  }

  lemma StoreyPlan(es: seq<Entry>)
    ensures PlanObj(Storey(es)) == Framed(Then(PlanObj(MapV(1, "", es)), Lit([])))
  {
    var row, fields := FieldRow(NEST.fields), Storey(es).fields;
    assert fields[1..] == [] && PlanRow(TailRow(row), []) == Lit([]);
    assert PlanRow(row, fields) == Then(PlanObj(fields[0]), Lit([]));
  }

  /** One entry with an object under it: the staged value starts a fresh ledger. */
  lemma EntryPlan(c: Val)
    requires ObjectType(c) == "m" && !IsAbsent(c) && PlanObj(c).Some? && PlanObj(c).value.peak == 2 && PlanObj(c).value.frames == 2
    requires |PlanObj(c).value.bytes| <= 10000
    ensures var p := PlanObj(MapV(1, "", [Entry(UintKey(0), c)]));
            p.Some? && p.value.peak == 1 && p.value.frames == 1 && |p.value.bytes| == 7 + |PlanObj(c).value.bytes|
  {
    var e := Entry(UintKey(0), c);
    var q := PlanSlot(ElemSlot(""), c);
    assert PlanTag("m").Some? && |PlanTag("m").value.bytes| == 2;
    assert q == Framed(Then(PlanTag("m"), Framed(PlanObj(c))));
    assert KeyWire(1, e.key).Some? && Fits(FRESH, q.value);
    var pair := PlanPair(1, "", e).value;
    assert [e][1..] == [] && PlanStage(1, "", []) == Some([]);
    assert PlanStage(1, "", [e]) == Some([pair] + []);
    assert [pair][1..] == [] && Sort([pair]) == [pair];
    assert |PairsWire([pair])| == 1 + |q.value.bytes|;
  }

  /** Staging each map value on a fresh ledger keeps the tower flat for the encoder. */
  lemma {:induction false} TowerPlan(n: nat)
    requires n <= 1000
    ensures var p := PlanObj(Tower(n));
            p.Some? && p.value.peak == 2 && p.value.frames == 2 && |p.value.bytes| == 4 + 7 * n
  {
    if n == 0 {
      assert PlanStage(1, "", []) == Some([]);
      StoreyPlan([]);
    } else {
      var c := Tower(n - 1);
      TowerPlan(n - 1);
      EntryPlan(c);
      StoreyPlan([Entry(UintKey(0), c)]);
    }
  }

  lemma StoreyNeed(es: seq<Entry>)
    ensures NeedObj(NEST_REG, Storey(es)) == Deeper(Both(Deeper(NeedEntries(NEST_REG, "", es)), FREE))
  {
    var fields := Storey(es).fields;
    assert fields[1..] == [] && !IsRuntime(NEST_REG, "");
    assert NeedObj(NEST_REG, fields[0]) == Deeper(NeedEntries(NEST_REG, "", es));
    assert NeedRow(NEST_REG, FieldRow(NEST.fields), fields) == Both(NeedObj(NEST_REG, fields[0]), FREE);
  }

  lemma EntryNeed(c: Val)
    requires !IsAbsent(c)
    ensures NeedEntries(NEST_REG, "", [Entry(UintKey(0), c)]) == Both(Deeper(NeedObj(NEST_REG, c)), FREE)
  {
    var e := Entry(UintKey(0), c);
    assert [e][1..] == [];
    assert NeedEntry(NEST_REG, "", e) == Deeper(NeedObj(NEST_REG, c));
  }

  lemma StoreyOn(es: seq<Entry>, inner: Need, t: Val, p: nat)
    requires t == Storey(es) && NeedEntries(NEST_REG, "", es) == inner && inner.peak + 2 == inner.frames + 2 == p
    ensures NeedObj(NEST_REG, t) == Need(p, p)
  {
    StoreyNeed(es);
  }

  /** The decoder nests three frames per storey. */
  lemma {:induction false} TowerNeed(n: nat, t: Val, p: nat)
    requires t == Tower(n) && p == 2 + 3 * n
    ensures NeedObj(NEST_REG, t) == Need(p, p)
    decreases n
  {
    if n == 0 {
      StoreyOn([], FREE, t, p);
    } else {
      var c, q := Tower(n - 1), p - 3;
      TowerNeed(n - 1, c, q);
      EntryNeed(c);
      StoreyOn([Entry(UintKey(0), c)], Need(q + 1, q + 1), t, p);
    }
  }

  /**
   * Without "map-free" the agreement is false: every one of these conforming values is
   * accepted by Encode, and Decode refuses the result from the 21st storey on. The exact
   * condition for any value is that of `DecodeOfEncode`.
   */
  lemma MapsBreakAgreement(n: nat)
    requires n <= 1000
    ensures Ready(NEST_REG) && ConformsAny(NEST_REG, Tower(n))
    ensures var r := Encode(Tower(n), WState([], FRESH)); r.err == None && (Decode(NEST_REG, r.st.out).Got? <==> n <= 20)
  {
    NestReady();
    TowerConforms(n);
    TowerPlan(n);
    var v, p := Tower(n), 2 + 3 * n;
    TowerNeed(n, v, p);
    SmallEncodes(v);
    SmallDecodes(NEST_REG, v, p);
  }

  lemma SmallEncodes(v: Val)
    requires ObjectType(v) == "m" && PlanObj(v).Some?
    requires PlanObj(v).value.peak == 2 && PlanObj(v).value.frames == 2 && |PlanObj(v).value.bytes| <= 10000
    ensures Encode(v, WState([], FRESH)).err == None
  {
    EncodeExact(v, WState([], FRESH));
    assert |PlanTag("m").value.bytes| == 2;
  }

  lemma SmallDecodes(reg: Registry, v: Val, p: nat)
    requires Ready(reg) && ConformsTop(reg, v) && Encode(v, WState([], FRESH)).err == None
    requires NeedObj(reg, v) == Need(p, p) && p <= 10000 && PlanObj(v).Some? && |PlanObj(v).value.bytes| <= 10000
    ensures Decode(reg, Encode(v, WState([], FRESH)).st.out).Got? <==> p <= MAX_DEPTH
  {
    var out := Encode(v, WState([], FRESH)).st.out;
    assert out + [] == out;
    DecodeOfEncode(reg, v, []);
  }
}
