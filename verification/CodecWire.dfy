/**
 * What goes over the wire, said of the bytes themselves: lengths and flags, what the encoder
 * accepts, and which of a repeated map key's values stays.
 */
module CodecWire {
  import opened Wrappers
  import opened Bytes
  import opened Schema
  import opened Ledger
  import opened Codec
  import opened CodecPlan
  import opened CodecRoundTrip
  import opened CodecTheorems
  import Construct

  // ---------------------------------------------------------------- leaves

  /** The bytes that a run put after what was there. */
  function Added(st: WState, r: WRes): seq<byte>
    requires |st.out| <= |r.st.out|
  {
    r.st.out[|st.out|..]
  }

  ghost predicate Appends(st: WState, r: WRes) { st.out <= r.st.out }

  /**
   * A length-prefixed leaf is refused as too large exactly when its length does not fit the
   * prefix; what goes out is that length in `w` bytes, and the payload.
   */
  lemma BlobOnWire(w: nat, s: seq<byte>, st: WState)
    requires Within(st.led)
    ensures var r := WriteLeaf(Blob(w), Data(s), st);
            && (r.err == Some(TooLarge) <==> |s| >= Pow256(w))
            && (r.err == None <==> |s| < Pow256(w) && st.led.bytes + w + |s| <= MAX_BYTES)
            && (r.err == None ==> Appends(st, r) && |Added(st, r)| == w + |s| &&
                                  FromBE(Added(st, r)[..w]) == |s| && Added(st, r)[w..] == s)
  {
    var r := WriteLeaf(Blob(w), Data(s), st);
    LeafWrites(Blob(w), Data(s), st);
    if r.err == None {
      var prefix := BE(w, |s|);
      FromBEOfBE(w, |s|);
      assert r.st.out == st.out + (prefix + s);
      assert Added(st, r) == prefix + s;
    }
  }

  /** The other leaves: an unsigned number in its width, a boolean as 0 or 1, raw bytes as they are. */
  lemma FixedOnWire(k: Kind, p: Payload, st: WState)
    requires Within(st.led) && (k.Uint? || k.Bool? || k.Raw? || k.Empty?) && ValidPayload(k, p)
    ensures var r := WriteLeaf(k, p, st);
            r.err == None ==>
              && Appends(st, r)
              && match k
                 case Uint(w) => |Added(st, r)| == w && FromBE(Added(st, r)) == p.n
                 case Bool => Added(st, r) == [p.n]
                 case Raw(n) => Added(st, r) == p.s && |p.s| == n
                 case _ => Added(st, r) == []
  {
    var r := WriteLeaf(k, p, st);
    LeafWrites(k, p, st);
    if k.Uint? {
      FromBEOfBE(k.width, p.n);
    }
    if r.err == None {
      assert r.st.out == st.out + ([] + LeafBody(k, p));
      assert Added(st, r) == LeafBody(k, p);
    }
  }

  // ---------------------------------------------------------------- what the encoder accepts

  /** Every payload inside fits its prefix, every slot that needs a value has one, every tag can be written. */
  ghost predicate Sized(v: Val)
    decreases v, 1
  {
    match v
    case NilIface => false
    case NilPtr => false
    case Leaf(_, k, p) => SizedLeaf(k, p)
    case Alias(_, k, p) => SizedLeaf(k, p)
    case Struct(bp, fields) => |fields| == |bp.fields| && SizedRow(FieldRow(bp.fields), fields)
    case SliceV(t, items) => SizedRow(ElemRow(t), items)
    case ArrayV(t, items) => SizedRow(ElemRow(t), items)
    case MapV(w, t, entries) => SizedEntries(w, t, entries)
  }

  predicate SizedLeaf(k: Kind, p: Payload) {
    && (k.Blob? && p.Data? ==> |p.s| < Pow256(k.lenWidth))
    && (k.Opaque? && p.Num? ==> k.codec.valid(p.n))
  }

  predicate SizedTag(name: string) { 0 < |name| < 0x100 }

  ghost predicate SizedSlot(slot: Slot, v: Val)
    decreases v, 2
  {
    match slot
    case FieldSlot(Ptr(_)) => IsAbsent(v) || Sized(v)
    case FieldSlot(AnyObject) => v.NilPtr? || (v.Leaf? && v.name == "nil") || (SizedTag(ObjectType(v)) && Sized(v))
    case FieldSlot(_) => Sized(v)
    case ElemSlot(t) =>
      if t == "" then IsAbsent(v) || (SizedTag(ObjectType(v)) && Sized(v)) else v.NilIface? || v.NilPtr? || Sized(v)
  }

  ghost predicate SizedRow(row: Row, vals: seq<Val>)
    requires RowFits(row, |vals|)
    decreases vals, 0
  {
    vals == [] || (SizedSlot(HeadSlot(row), vals[0]) && SizedRow(TailRow(row), vals[1..]))
  }

  ghost predicate SizedEntries(w: nat, t: string, es: seq<Entry>)
    decreases es, 0
  {
    es == [] || (SizedEntry(w, t, es[0]) && SizedEntries(w, t, es[1..]))
  }

  /** A map value is staged on a ledger of its own. */
  ghost predicate SizedEntry(w: nat, t: string, e: Entry)
    decreases e, 0
  {
    && (if w == 0 then e.key.StrKey? && |e.key.s| < 0x1_0000 else e.key.UintKey?)
    && SizedSlot(ElemSlot(t), e.val) && WriteSlot(ElemSlot(t), e.val, WState([], FRESH)).err == None
  }

  lemma TagSized(name: string)
    ensures PlanTag(name).Some? <==> |name| < 0x100
  {
    Pow256Values();
  }

  lemma {:induction false} PlannedSlot(slot: Slot, v: Val)
    ensures PlanSlot(slot, v).Some? <==> SizedSlot(slot, v)
    decreases v, 2
  {
    PlannedObj(v);
    TagSized(ObjectType(v));
    TagSized("");
  }

  /** An object has a plan exactly when everything in it has the size it may have. */
  lemma {:induction false} PlannedObj(v: Val)
    ensures PlanObj(v).Some? <==> Sized(v)
    decreases v, 1
  {
    match v
    case Struct(bp, fields) => if |fields| == |bp.fields| { PlannedRow(FieldRow(bp.fields), fields); }
    case SliceV(t, items) => PlannedRow(ElemRow(t), items);
    case ArrayV(t, items) => PlannedRow(ElemRow(t), items);
    case MapV(w, t, entries) => PlannedEntries(w, t, entries);
    case _ =>
  }

  lemma {:induction false} PlannedRow(row: Row, vals: seq<Val>)
    requires RowFits(row, |vals|)
    ensures PlanRow(row, vals).Some? <==> SizedRow(row, vals)
    decreases vals, 0
  {
    if vals != [] {
      PlannedSlot(HeadSlot(row), vals[0]);
      PlannedRow(TailRow(row), vals[1..]);
    }
  }

  lemma {:induction false} PlannedEntries(w: nat, t: string, es: seq<Entry>)
    ensures PlanStage(w, t, es).Some? <==> SizedEntries(w, t, es)
    decreases es, 0
  {
    if es != [] {
      PlannedEntry(w, t, es[0]);
      PlannedEntries(w, t, es[1..]);
    }
  }

  lemma {:induction false} PlannedEntry(w: nat, t: string, e: Entry)
    ensures PlanPair(w, t, e).Some? <==> SizedEntry(w, t, e)
    decreases e, 0
  {
    PlannedSlot(ElemSlot(t), e.val);
    PairExact(w, t, e);
  }

  /**
   * Encode accepts exactly the typed values in which every leaf fits its length prefix, every
   * key and tag fits its own, no required value is nil, and whose plan fits the ledger.
   */
  lemma EncodeAccepts(v: Val, st: WState)
    requires Within(st.led)
    ensures Encode(v, st).err == None <==>
            && SizedTag(ObjectType(v)) && Sized(v)
            && (PlanTag(ObjectType(v)).Some? && PlanObj(v).Some? ==>
                  Fits(st.led, Then(PlanTag(ObjectType(v)), PlanObj(v)).value))
  {
    PlannedObj(v);
    TagSized(ObjectType(v));
    if ObjectType(v) != "" {
      TaggedExact(v, st);
    }
  }

  // ---------------------------------------------------------------- flags and tags

  /** Only 0 and 1 are presence flags. */
  lemma FlagExact(reg: Registry, t: string, absent: Val, st: RState)
    requires PrimitivesCompiled(reg) && st.led.bytes < MAX_BYTES && st.inp != []
    ensures st.inp[0] > 1 ==> ReadFlag(st).Lost? && ReadFlag(st).err == BadFlag
    ensures st.inp[0] > 1 ==> ReadFlagged(reg, t, absent, st) == Lost(BadFlag, Take(1, st))
    ensures st.inp[0] == 1 ==> ReadFlagged(reg, t, absent, st) == ReadObj(reg, t, Take(1, st))
    ensures st.inp[0] == 0 ==> ReadFlagged(reg, t, absent, st) == Got(absent, Take(1, st))
  {
  }

  /** A tag that names nothing, or "nil", stands for no value. */
  lemma NilTag(reg: Registry, absent: Val, rest: seq<byte>, st: RState)
    requires Ready(reg) && Within(st.led) && (st.inp == [0] + rest || st.inp == [3, 0x6E, 0x69, 0x6C] + rest)
    ensures Reads(ReadTagged(reg, absent, st), absent, rest, st, FREE, |st.inp| - |rest|)
  {
    var name := if st.inp[0] == 0 then "" else "nil";
    assert NameBytes("nil") == [0x6E, 0x69, 0x6C];
    assert BE(1, 3) == [] + [3] && BE(1, 0) == [] + [0];
    assert PlanTag(name).value.bytes == (if name == "" then [0] else [3, 0x6E, 0x69, 0x6C]);
    TagReads(name, rest, st);
  }

  /** A type that New cannot make is not found: nothing of the object is read. */
  lemma UnknownRefused(reg: Registry, name: string, body: seq<byte>)
    requires PrimitivesCompiled(reg) && ByteName(name) && |name| < 0x100 && Construct.New(reg, name) == NilIface
    ensures Decode(reg, [|name|] + NameBytes(name) + body) == Lost(NotFound, RState(body, FRESH, 0))
  {
    TagSized(name);
    assert BE(1, |name|) == [] + [|name|];
    DecodeTag(reg, name, body);
  }

  // ---------------------------------------------------------------- containers

  /** A slice or map starts with the number of its elements in four bytes; an array has its elements alone. */
  lemma CountOnWire(v: Val)
    requires (v.SliceV? || v.MapV?) && PlanObj(v).Some? && |PlanObj(v).value.bytes| <= MAX_BYTES
    ensures var s := PlanObj(v).value.bytes;
            |s| >= 4 && FromBE(s[..4]) == if v.SliceV? then |v.items| else |v.entries|
    ensures v.SliceV? ==> PlanObj(ArrayV(v.elem, v.items)).Some? &&
                          PlanObj(v).value.bytes[4..] == PlanObj(ArrayV(v.elem, v.items)).value.bytes
  {
    Pow256Values();
    var s, n := PlanObj(v).value.bytes, if v.SliceV? then |v.items| else |v.entries|;
    if v.SliceV? {
      RowLength(v.elem, v.items);
    } else {
      StagedLength(v.keyWidth, v.elem, v.entries);
    }
    assert s[..4] == BE(4, n);
    FromBEOfBE(4, n);
  }

  // ---------------------------------------------------------------- map keys

  /** The codec of the primitive that a map key's type names. */
  function KeyKind(key: string): Kind {
    if key == "string16" then Blob(2)
    else if key == "uint8" then Uint(1)
    else if key == "uint16" then Uint(2)
    else if key == "uint32" then Uint(4)
    else Uint(8)
  }

  function KeyPayload(k: Key): Payload { if k.StrKey? then Data(k.s) else Num(k.n) }

  /** A map key travels as the primitive of its type would. */
  lemma KeyAsPrimitive(key: string, k: Key)
    requires IsMapKey(key) && ValidKey(Construct.KeyWidth(key), k)
    ensures var p := PlanLeaf(KeyKind(key), KeyPayload(k));
            KeyWire(Construct.KeyWidth(key), k) == if p.Some? then Some(p.value.bytes) else None
  {
    Pow256Values();
    if k.UintKey? {
      assert [] + BE(Construct.KeyWidth(key), k.n) == BE(Construct.KeyWidth(key), k.n);
    }
  }

  // ---------------------------------------------------------------- repeated keys

  lemma {:induction false} PutSets(es: seq<Entry>, k: Key, v: Val)
    requires DistinctKeys(es)
    ensures Entry(k, v) in Put(es, k, v) && DistinctKeys(Put(es, k, v))
    ensures forall e :: e in Put(es, k, v) <==> e == Entry(k, v) || (e in es && e.key != k)
    decreases |es|
  {
    if es != [] {
      assert es == [es[0]] + es[1..];
      PutSets(es[1..], k, v);
      if es[0].key != k {
        var r := Put(es[1..], k, v);
        forall i | 0 <= i < |r|
          ensures r[i].key != es[0].key
        {
          assert r[i] in r;
        }
      } else {
        forall e | e in es[1..]
          ensures e.key != k
        {
          var i :| 0 <= i < |es[1..]| && es[1..][i] == e;
          assert es[i + 1] == e;
        }
      }
    }
  }

  /** No later entry has the key of the i-th. */
  ghost predicate Last(es: seq<Entry>, i: nat)
    requires i < |es|
  {
    forall j :: i < j < |es| ==> es[j].key != es[i].key
  }

  lemma {:induction false} PutAllKeeps(acc: seq<Entry>, es: seq<Entry>, e: Entry)
    requires DistinctKeys(acc) && e in acc && forall j :: 0 <= j < |es| ==> es[j].key != e.key
    ensures e in PutAll(acc, es)
    decreases |es|
  {
    if es != [] {
      PutSets(acc, es[0].key, es[0].val);
      PutAllKeeps(Put(acc, es[0].key, es[0].val), es[1..], e);
    }
  }

  /** A key that comes more than once has the value of its last entry, and every key one value. */
  lemma {:induction false} LastWins(acc: seq<Entry>, es: seq<Entry>)
    requires DistinctKeys(acc)
    ensures DistinctKeys(PutAll(acc, es))
    ensures forall i :: 0 <= i < |es| && Last(es, i) ==> es[i] in PutAll(acc, es)
    ensures forall e :: e in PutAll(acc, es) ==> e in acc || e in es
    decreases |es|
  {
    if es != [] {
      var next := Put(acc, es[0].key, es[0].val);
      PutSets(acc, es[0].key, es[0].val);
      LastWins(next, es[1..]);
      forall i | 0 <= i < |es| && Last(es, i)
        ensures es[i] in PutAll(acc, es)
      {
        if i == 0 {
          PutAllKeeps(next, es[1..], es[0]);
        } else {
          assert es[1..][i - 1] == es[i];
          assert Last(es[1..], i - 1);
        }
      }
    }
  }
}
