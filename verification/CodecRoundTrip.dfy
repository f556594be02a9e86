/**
 * The decoder on what the encoder wrote. `Conforms` says which values a schema admits,
 * `Canon` what a value reads back as, `NeedSlot` which frames the decoder opens for it. A
 * conforming value's bytes read back, on any ledger, exactly when those frames and bytes fit.
 */
module CodecRoundTrip {
  import opened Wrappers
  import opened Bytes
  import opened Schema
  import opened Ledger
  import opened Codec
  import opened CodecPlan
  import Construct

  ghost predicate Ready(reg: Registry) { PrimitivesCompiled(reg) && ValidEntries(reg) }

  // ---------------------------------------------------------------- conforming values

  /** `v` is an object that `New(name)` could have become. */
  ghost predicate ConformsObj(reg: Registry, name: string, v: Val)
    requires Ready(reg)
    decreases v, 1
  {
    match Resolve(reg, name)
    case None => false
    case Some(LeafShape(k)) => v.Leaf? && v.name == name && v.kind == k && ValidPayload(k, v.payload)
    case Some(AliasShape(bp, k)) => v.Alias? && v.bp == bp && v.kind == k && ValidPayload(k, v.payload)
    case Some(StructShape(bp)) =>
      v.Struct? && v.bp == bp && |v.fields| == |bp.fields| && ConformsRow(reg, FieldRow(bp.fields), v.fields)
  }

  /** A present object of a polymorphic slot: its type name is one the tag can carry. */
  ghost predicate ConformsAny(reg: Registry, v: Val)
    requires Ready(reg)
    decreases v, 2
  {
    && ObjectType(v) != "" && ObjectType(v) != NIL_NAME && ByteName(ObjectType(v))
    && ConformsObj(reg, ObjectType(v), v)
  }

  /** An object that Encode names and Decode can look up; `*Nil` itself is one, outside a slot. */
  ghost predicate ConformsTop(reg: Registry, v: Val)
    requires Ready(reg)
  {
    ByteName(ObjectType(v)) && ConformsObj(reg, ObjectType(v), v)
  }

  ghost predicate Conforms(reg: Registry, slot: Slot, v: Val)
    requires Ready(reg)
    decreases v, 3
  {
    match slot
    case FieldSlot(Primitive(t)) => ConformsObj(reg, t, v)
    case FieldSlot(Ref(t)) => ConformsObj(reg, t, v)
    case FieldSlot(Ptr(t)) => IsAbsent(v) || ConformsObj(reg, t, v)
    case FieldSlot(AnyObject) => IsAbsent(v) || ConformsAny(reg, v)
    case FieldSlot(Slice(t)) =>
      v.SliceV? && v.elem == t && Construct.ElemResolves(reg, t) && ConformsRow(reg, ElemRow(t), v.items)
    case FieldSlot(Array(t, n)) =>
      v.ArrayV? && v.elem == t && |v.items| == n && Construct.ElemResolves(reg, t) && ConformsRow(reg, ElemRow(t), v.items)
    case FieldSlot(Map(k, t)) =>
      v.MapV? && v.elem == t && IsMapKey(k) && v.keyWidth == Construct.KeyWidth(k) && Construct.ElemResolves(reg, t) &&
      DistinctKeys(v.entries) && ConformsEntries(reg, v.keyWidth, t, v.entries)
    case ElemSlot(t) =>
      if t == "" then IsAbsent(v) || ConformsAny(reg, v) else v.NilPtr? || ConformsObj(reg, t, v)
  }

  ghost predicate ConformsRow(reg: Registry, row: Row, vals: seq<Val>)
    requires Ready(reg) && RowFits(row, |vals|)
    decreases vals, 0
  {
    vals == [] || (Conforms(reg, HeadSlot(row), vals[0]) && ConformsRow(reg, TailRow(row), vals[1..]))
  }

  ghost predicate ConformsEntries(reg: Registry, width: nat, t: string, entries: seq<Entry>)
    requires Ready(reg)
    decreases entries, 0
  {
    entries == [] || (ConformsEntry(reg, width, t, entries[0]) && ConformsEntries(reg, width, t, entries[1..]))
  }

  ghost predicate ConformsEntry(reg: Registry, width: nat, t: string, e: Entry)
    requires Ready(reg)
    decreases e, 0
  {
    ValidKey(width, e.key) && Conforms(reg, ElemSlot(t), e.val)
  }

  predicate ValidKey(width: nat, k: Key) {
    if width == 0 then k.StrKey? else k.UintKey? && k.n < Pow256(width)
  }

  ghost predicate DistinctKeys(es: seq<Entry>) {
    forall i, j :: 0 <= i < j < |es| ==> es[i].key != es[j].key
  }

  // ---------------------------------------------------------------- canonical values

  /** Absent forms collapse to the one the slot reads, and map entries are in key order. */
  function CanonSlot(slot: Slot, v: Val): Val
    decreases v, 3
  {
    match slot
    case FieldSlot(Ptr(_)) => if IsAbsent(v) then NIL_MARKER else CanonObj(v)
    case FieldSlot(AnyObject) => if IsAbsent(v) then NIL_MARKER else CanonObj(v)
    case FieldSlot(_) => CanonObj(v)
    case ElemSlot(t) =>
      if t == "" then (if IsAbsent(v) then NilIface else CanonObj(v))
      else if v.NilIface? || v.NilPtr? then NilPtr else CanonObj(v)
  }

  function CanonObj(v: Val): Val
    decreases v, 1
  {
    match v
    case Struct(bp, fields) =>
      if |fields| == |bp.fields| then Struct(bp, CanonRow(FieldRow(bp.fields), fields)) else v
    case SliceV(t, items) => SliceV(t, CanonRow(ElemRow(t), items))
    case ArrayV(t, items) => ArrayV(t, CanonRow(ElemRow(t), items))
    case MapV(w, t, es) => MapV(w, t, SortEntries(w, CanonEntries(t, es)))
    case _ => v
  }

  function CanonRow(row: Row, vals: seq<Val>): seq<Val>
    requires RowFits(row, |vals|)
    decreases vals, 0
  {
    if vals == [] then [] else [CanonSlot(HeadSlot(row), vals[0])] + CanonRow(TailRow(row), vals[1..])
  }

  function CanonEntries(t: string, es: seq<Entry>): (r: seq<Entry>)
    ensures |r| == |es| && forall i :: 0 <= i < |es| ==> r[i].key == es[i].key
    decreases es, 0
  {
    if es == [] then [] else [CanonEntry(t, es[0])] + CanonEntries(t, es[1..])
  }

  function CanonEntry(t: string, e: Entry): (r: Entry)
    ensures r.key == e.key
    decreases e, 0
  {
    Entry(e.key, CanonSlot(ElemSlot(t), e.val))
  }

  function Wire(w: nat, k: Key): seq<byte> {
    match KeyWire(w, k)
    case Some(s) => s
    case None => []
  }

  function InsertEntry(w: nat, e: Entry, es: seq<Entry>): seq<Entry> {
    if es == [] || !Less(Wire(w, es[0].key), Wire(w, e.key)) then [e] + es
    else [es[0]] + InsertEntry(w, e, es[1..])
  }

  function SortEntries(w: nat, es: seq<Entry>): seq<Entry> {
    if es == [] then [] else InsertEntry(w, es[0], SortEntries(w, es[1..]))
  }

  // ---------------------------------------------------------------- what reading costs

  function Both(a: Need, b: Need): Need { Need(Max(a.peak, b.peak), a.frames + b.frames) }

  function Deeper(a: Need): Need { Need(a.peak + 1, a.frames + 1) }

  function NeedSlot(reg: Registry, slot: Slot, v: Val): Need
    decreases v, 3
  {
    match slot
    case FieldSlot(Ptr(_)) => if IsAbsent(v) then FREE else NeedObj(reg, v)
    case FieldSlot(AnyObject) => if IsAbsent(v) then FREE else NeedObj(reg, v)
    case FieldSlot(_) => NeedObj(reg, v)
    case ElemSlot(t) =>
      if t == "" then Deeper(if IsAbsent(v) then FREE else NeedObj(reg, v))
      else
        var n := if v.NilIface? || v.NilPtr? then FREE else NeedObj(reg, v);
        if IsRuntime(reg, t) then n else Deeper(n)
  }

  function NeedObj(reg: Registry, v: Val): Need
    decreases v, 1
  {
    match v
    case Struct(bp, fields) =>
      if |fields| == |bp.fields| then Deeper(NeedRow(reg, FieldRow(bp.fields), fields)) else FREE
    case SliceV(t, _) => if IsRuntime(reg, t) then NeedInside(reg, v) else Deeper(NeedInside(reg, v))
    case ArrayV(t, _) => if IsRuntime(reg, t) then NeedInside(reg, v) else Deeper(NeedInside(reg, v))
    case MapV(_, t, _) => if IsRuntime(reg, t) then NeedInside(reg, v) else Deeper(NeedInside(reg, v))
    case Leaf(_, k, p) => LeafReopens(k, p)
    case Alias(_, k, p) => LeafReopens(k, p)
    case _ => FREE
  }

  /** The inside of a container. */
  function NeedInside(reg: Registry, v: Val): Need
    decreases v, 0
  {
    match v
    case SliceV(t, items) => NeedRow(reg, ElemRow(t), items)
    case ArrayV(t, items) => NeedRow(reg, ElemRow(t), items)
    case MapV(_, t, es) => NeedEntries(reg, t, es)
    case _ => FREE
  }

  function NeedRow(reg: Registry, row: Row, vals: seq<Val>): Need
    requires RowFits(row, |vals|)
    decreases vals, 0
  {
    if vals == [] then FREE
    else Both(NeedSlot(reg, HeadSlot(row), vals[0]), NeedRow(reg, TailRow(row), vals[1..]))
  }

  function NeedEntries(reg: Registry, t: string, es: seq<Entry>): Need
    decreases es, 0
  {
    if es == [] then FREE else Both(NeedEntry(reg, t, es[0]), NeedEntries(reg, t, es[1..]))
  }

  function NeedEntry(reg: Registry, t: string, e: Entry): Need
    decreases e, 0
  {
    NeedSlot(reg, ElemSlot(t), e.val)
  }

  predicate FitsR(led: Counters, need: Need, n: nat) {
    && led.depth + need.peak <= MAX_DEPTH
    && led.frames + need.frames <= MAX_FRAMES
    && led.bytes + n <= MAX_BYTES
  }

  function AfterR(led: Counters, need: Need, n: nat): Counters {
    Counters(led.depth, led.frames + need.frames, led.bytes + n)
  }

  // ---------------------------------------------------------------- runs of the decoder

  /** `r`, read from `st`, succeeds exactly when it fits, and then gives `want` and leaves `rest`. */
  ghost predicate Reads<T>(r: Got<T>, want: T, rest: seq<byte>, st: RState, need: Need, n: nat) {
    && (r.Got? <==> FitsR(st.led, need, n))
    && (r.Got? ==> r.value == want && r.st.inp == rest && r.st.led == AfterR(st.led, need, n))
  }

  lemma FullReads(bs: seq<byte>, rest: seq<byte>, st: RState)
    requires Within(st.led) && st.inp == bs + rest
    ensures Reads(ReadFull(|bs|, st), bs, rest, st, FREE, |bs|)
  {
    assert (bs + rest)[..|bs|] == bs && (bs + rest)[|bs|..] == rest;
  }

  lemma FrameReads<T>(st: RState, r: Got<T>, want: T, rest: seq<byte>, need: Need, n: nat)
    requires Within(st.led) && r.st.led.depth == st.led.depth + 1
    requires Entered(st.led) ==> Reads(r, want, rest, EnterR(st), need, n)
    ensures Reads(if !Entered(st.led) then RefusedR(st) else ExitR(r), want, rest, st, Deeper(need), n)
  {
  }

  /** One read after another: `c` is `s` after `r`, or `r`'s failure. */
  lemma ThenReads<A, B>(st: RState, r: Got<A>, a: A, mid: seq<byte>, need1: Need, n1: nat,
                        s: Got<B>, b: B, rest: seq<byte>, need2: Need, n2: nat, c: Got<B>)
    requires Within(st.led) && Reads(r, a, mid, st, need1, n1)
    requires r.Got? ==> Reads(s, b, rest, r.st, need2, n2) && c == s
    requires r.Lost? ==> c.Lost?
    ensures Reads(c, b, rest, st, Both(need1, need2), n1 + n2)
  {
  }

  /** The same when the first read opens no frame. */
  lemma AfterReads<A, B>(st: RState, r: Got<A>, a: A, mid: seq<byte>, n1: nat,
                         s: Got<B>, b: B, rest: seq<byte>, need: Need, n2: nat, c: Got<B>, n: nat)
    requires Within(st.led) && Reads(r, a, mid, st, FREE, n1) && n == n1 + n2
    requires r.Got? ==> Reads(s, b, rest, r.st, need, n2) && c == s
    requires r.Lost? ==> c.Lost?
    ensures Reads(c, b, rest, st, need, n)
  {
  }

  lemma BlobReads(w: nat, s: seq<byte>, rest: seq<byte>, st: RState)
    requires Within(st.led) && |s| < Pow256(w) && st.inp == BE(w, |s|) + s + rest
    ensures Reads(ReadLeaf(Blob(w), st), Data(s), rest, st, FREE, w + |s|)
  {
    var prefix := BE(w, |s|);
    FromBEOfBE(w, |s|);
    ConcatAssoc(prefix, s, rest);
    PrefixedReads(w, prefix, s, rest, st);
  }

  lemma ConcatAssoc<T>(a: seq<T>, b: seq<T>, c: seq<T>)
    ensures a + b + c == a + (b + c)
  {
  }

  lemma PrefixedReads(w: nat, prefix: seq<byte>, s: seq<byte>, rest: seq<byte>, st: RState)
    requires Within(st.led) && |prefix| == w && FromBE(prefix) == |s| && st.inp == prefix + (s + rest)
    ensures Reads(ReadLeaf(Blob(w), st), Data(s), rest, st, FREE, w + |s|)
  {
    FullReads(prefix, s + rest, st);
    var r := ReadFull(w, st);
    if r.Got? {
      FullReads(s, rest, r.st);
      BlobFollows(w, st);
      var b := ReadFull(|s|, r.st);
      AfterReads(st, r, prefix, s + rest, w, b, s, rest, FREE, |s|, b, w + |s|);
    }
  }

  /** After its prefix a length-prefixed leaf is one full read. */
  lemma BlobFollows(w: nat, st: RState)
    requires st.led.bytes <= MAX_BYTES && ReadFull(w, st).Got?
    ensures var r := ReadFull(w, st);
            ReadLeaf(Blob(w), st) == match ReadFull(FromBE(r.value), r.st)
                                     case Lost(e, s) => Lost(e, s)
                                     case Got(body, s) => Got(Data(body), s)
  {
  }

  lemma OpaqueReads(c: StructCodec, v: nat, rest: seq<byte>, st: RState)
    requires Within(st.led) && RoundTrips(c) && c.valid(v) && st.inp == c.enc(v) + rest
    ensures Reads(ReadStruct(c, st), Num(v), rest, st, c.reopens(v), |c.enc(v)|)
  {
    var bs := c.enc(v);
    var m := Min(|st.inp|, MAX_BYTES - st.led.bytes);
    var window := st.inp[..m];
    if |bs| <= m {
      assert window == bs + rest[..m - |bs|];
      assert st.inp[|bs|..] == rest;
    } else {
      assert window == bs[..m];
    }
  }

  lemma LeafReads(k: Kind, p: Payload, rest: seq<byte>, st: RState)
    requires Within(st.led) && ValidKind(k) && ValidPayload(k, p)
    requires st.inp == LeafPrefix(k, p) + LeafBody(k, p) + rest
    ensures Reads(ReadLeaf(k, st), p, rest, st, LeafReopens(k, p), |LeafPrefix(k, p) + LeafBody(k, p)|)
  {
    match k
    case Blob(w) => BlobReads(w, p.s, rest, st);
    case Opaque(c) =>
      assert st.inp == c.enc(p.n) + rest;
      OpaqueReads(c, p.n, rest, st);
    case Empty =>
      assert st.inp == rest;
    case Uint(w) =>
      assert st.inp == LeafBody(k, p) + rest;
      FullReads(LeafBody(k, p), rest, st);
      FromBEOfBE(w, p.n);
    case _ =>
      assert st.inp == LeafBody(k, p) + rest;
      FullReads(LeafBody(k, p), rest, st);
  }

  lemma TagReads(name: string, rest: seq<byte>, st: RState)
    requires Within(st.led) && ByteName(name) && PlanTag(name).Some?
    requires st.inp == PlanTag(name).value.bytes + rest
    ensures Reads(ReadTag(st), name, rest, st, FREE, |PlanTag(name).value.bytes|)
  {
    BlobReads(1, NameBytes(name), rest, st);
    NameRoundTrip(name);
  }

  lemma FlagReads(flag: bool, rest: seq<byte>, st: RState)
    requires Within(st.led) && st.inp == [if flag then 1 else 0] + rest
    ensures Reads(ReadFlag(st), flag, rest, st, FREE, 1)
  {
    FullReads([if flag then 1 else 0], rest, st);
  }

  lemma KeyReads(w: nat, k: Key, rest: seq<byte>, st: RState)
    requires Within(st.led) && ValidKey(w, k) && KeyWire(w, k).Some?
    requires st.inp == KeyWire(w, k).value + rest
    ensures Reads(ReadKey(w, st), k, rest, st, FREE, |KeyWire(w, k).value|)
  {
    match k
    case StrKey(s) =>
      Pow256Values();
      BlobReads(2, s, rest, st);
    case UintKey(n) =>
      FullReads(BE(w, n), rest, st);
      FromBEOfBE(w, n);
  }

  /** What New finds has a sound codec, and a struct Blueprint filed under its own name. */
  lemma ResolveValid(reg: Registry, name: string)
    requires Ready(reg)
    ensures match Resolve(reg, name)
            case Some(LeafShape(k)) => ValidKind(k)
            case Some(AliasShape(bp, k)) => ValidKind(k) && bp.typ == name
            case Some(StructShape(bp)) => bp.typ == name
            case None => true
  {
    if Lookup(reg, name).Some? {
      LookupValid(reg, name);
      LookupPrimitive(reg, name);
      var Found(owner, e) := Lookup(reg, name).value;
      if e.Runtime? && e.bp.IsAlias() && Lookup(owner, e.bp.underlying).Some? {
        LookupValid(owner, e.bp.underlying);
      }
    }
  }

  // ---------------------------------------------------------------- the main induction

  lemma {:induction false} ObjReads(reg: Registry, name: string, v: Val, rest: seq<byte>, st: RState)
    requires Ready(reg) && Within(st.led) && ConformsObj(reg, name, v)
    requires PlanObj(v).Some? && |PlanObj(v).value.bytes| <= MAX_BYTES
    requires st.inp == PlanObj(v).value.bytes + rest
    ensures Reads(ReadObj(reg, name, st), CanonObj(v), rest, st, NeedObj(reg, v), |PlanObj(v).value.bytes|)
    decreases v, 1
  {
    ResolveValid(reg, name);
    match Resolve(reg, name)
    case Some(LeafShape(k)) => LeafReads(k, v.payload, rest, st);
    case Some(AliasShape(bp, k)) => LeafReads(k, v.payload, rest, st);
    case Some(StructShape(bp)) =>
      var row := FieldRow(bp.fields);
      var r := ReadRow(reg, row, |bp.fields|, EnterR(st));
      if Entered(st.led) {
        RowReads(reg, row, v.fields, rest, EnterR(st));
      }
      FrameReads(st, r, CanonRow(row, v.fields), rest, NeedRow(reg, row, v.fields), |PlanObj(v).value.bytes|);
  }

  lemma AbsentReads(reg: Registry, absent: Val, rest: seq<byte>, st: RState)
    requires Ready(reg) && Within(st.led) && st.inp == [0] + rest
    ensures Reads(ReadTagged(reg, absent, st), absent, rest, st, FREE, 1)
  {
    assert PlanTag("").value.bytes == [0];
    TagReads("", rest, st);
  }

  /** A tag and the object it names. */
  lemma {:induction false} TaggedReads(reg: Registry, v: Val, absent: Val, rest: seq<byte>, st: RState)
    requires Ready(reg) && Within(st.led) && ConformsAny(reg, v)
    requires PlanTag(ObjectType(v)).Some? && PlanObj(v).Some?
    requires |PlanObj(v).value.bytes| <= MAX_BYTES
    requires st.inp == PlanTag(ObjectType(v)).value.bytes + PlanObj(v).value.bytes + rest
    ensures Reads(ReadTagged(reg, absent, st), CanonObj(v), rest, st, NeedObj(reg, v),
                  |PlanTag(ObjectType(v)).value.bytes| + |PlanObj(v).value.bytes|)
    decreases v, 2
  {
    var name := ObjectType(v);
    var tail := PlanObj(v).value.bytes + rest;
    ConcatAssoc(PlanTag(name).value.bytes, PlanObj(v).value.bytes, rest);
    TagReads(name, tail, st);
    var r := ReadTag(st);
    if r.Got? {
      ObjReads(reg, name, v, rest, r.st);
      AfterTag(reg, name, absent, st);
      AfterReads(st, r, name, tail, |PlanTag(name).value.bytes|, ReadObj(reg, name, r.st), CanonObj(v), rest, NeedObj(reg, v),
                 |PlanObj(v).value.bytes|, ReadTagged(reg, absent, st), |PlanTag(name).value.bytes| + |PlanObj(v).value.bytes|);
    }
  }

  lemma AfterTag(reg: Registry, name: string, absent: Val, st: RState)
    requires PrimitivesCompiled(reg) && st.led.bytes <= MAX_BYTES
    requires ReadTag(st).Got? && ReadTag(st).value == name && name != "" && name != NIL_NAME
    ensures ReadTagged(reg, absent, st) == ReadObj(reg, name, ReadTag(st).st)
  {
  }

  lemma {:induction false} FlaggedReads(reg: Registry, t: string, v: Val, here: bool, absent: Val, rest: seq<byte>, st: RState)
    requires Ready(reg) && Within(st.led) && (here ==> ConformsObj(reg, t, v))
    requires !here ==> st.inp == [0] + rest
    requires here ==> PlanObj(v).Some? && 1 + |PlanObj(v).value.bytes| <= MAX_BYTES &&
                      st.inp == [1] + PlanObj(v).value.bytes + rest
    ensures if here then Reads(ReadFlagged(reg, t, absent, st), CanonObj(v), rest, st, NeedObj(reg, v),
                               1 + |PlanObj(v).value.bytes|)
            else Reads(ReadFlagged(reg, t, absent, st), absent, rest, st, FREE, 1)
    decreases v, 2
  {
    if !here {
      FlagReads(false, rest, st);
    } else {
      var tail := PlanObj(v).value.bytes + rest;
      assert st.inp == [1] + tail;
      FlagReads(true, tail, st);
      var r := ReadFlag(st);
      if r.Got? {
        ObjReads(reg, t, v, rest, r.st);
        AfterReads(st, r, true, tail, 1, ReadObj(reg, t, r.st), CanonObj(v), rest, NeedObj(reg, v), |PlanObj(v).value.bytes|,
                   ReadFlagged(reg, t, absent, st), 1 + |PlanObj(v).value.bytes|);
      }
    }
  }

  lemma {:induction false} IfaceReads(reg: Registry, v: Val, rest: seq<byte>, st: RState)
    requires Ready(reg) && Within(st.led) && Conforms(reg, ElemSlot(""), v)
    requires PlanSlot(ElemSlot(""), v).Some? && |PlanSlot(ElemSlot(""), v).value.bytes| <= MAX_BYTES
    requires st.inp == PlanSlot(ElemSlot(""), v).value.bytes + rest
    ensures Reads(ReadElem(reg, "", st), CanonSlot(ElemSlot(""), v), rest, st, NeedSlot(reg, ElemSlot(""), v),
                  |PlanSlot(ElemSlot(""), v).value.bytes|)
    decreases v, 3, 0
  {
    var need := if IsAbsent(v) then FREE else NeedObj(reg, v);
    if Entered(st.led) {
      if IsAbsent(v) {
        AbsentReads(reg, NilIface, rest, EnterR(st));
      } else {
        TaggedReads(reg, v, NilIface, rest, EnterR(st));
      }
    }
    FrameReads(st, ReadTagged(reg, NilIface, EnterR(st)), CanonSlot(ElemSlot(""), v), rest, need,
               |PlanSlot(ElemSlot(""), v).value.bytes|);
  }

  /** The element codecs, fast and slow, undo the one write path. */
  lemma {:induction false} ElemReads(reg: Registry, t: string, v: Val, rest: seq<byte>, st: RState)
    requires Ready(reg) && Within(st.led) && Conforms(reg, ElemSlot(t), v)
    requires PlanSlot(ElemSlot(t), v).Some? && |PlanSlot(ElemSlot(t), v).value.bytes| <= MAX_BYTES
    requires st.inp == PlanSlot(ElemSlot(t), v).value.bytes + rest
    ensures Reads(ReadElem(reg, t, st), CanonSlot(ElemSlot(t), v), rest, st, NeedSlot(reg, ElemSlot(t), v),
                  |PlanSlot(ElemSlot(t), v).value.bytes|)
    decreases v, 3, 1
  {
    var n := |PlanSlot(ElemSlot(t), v).value.bytes|;
    if t == "" {
      IfaceReads(reg, v, rest, st);
    } else {
      var here := !v.NilPtr? && !v.NilIface?;
      var need := if here then NeedObj(reg, v) else FREE;
      if IsRuntime(reg, t) {
        FlaggedReads(reg, t, v, here, NilPtr, rest, st);
      } else {
        if Entered(st.led) {
          FlaggedReads(reg, t, v, here, NilPtr, rest, EnterR(st));
        }
        FrameReads(st, ReadFlagged(reg, t, NilPtr, EnterR(st)), CanonSlot(ElemSlot(t), v), rest, need, n);
      }
    }
  }

  lemma {:induction false} RowReads(reg: Registry, row: Row, vals: seq<Val>, rest: seq<byte>, st: RState)
    requires Ready(reg) && Within(st.led) && RowFits(row, |vals|) && ConformsRow(reg, row, vals)
    requires PlanRow(row, vals).Some? && |PlanRow(row, vals).value.bytes| <= MAX_BYTES
    requires st.inp == PlanRow(row, vals).value.bytes + rest
    ensures Reads(ReadRow(reg, row, |vals|, st), CanonRow(row, vals), rest, st, NeedRow(reg, row, vals),
                  |PlanRow(row, vals).value.bytes|)
    decreases vals, 0
  {
    if vals == [] {
      assert st.inp == rest;
    } else {
      var slot, m := HeadSlot(row), |vals[1..]|;
      var head := PlanSlot(slot, vals[0]).value;
      var tail := PlanRow(TailRow(row), vals[1..]).value;
      ConcatAssoc(head.bytes, tail.bytes, rest);
      SlotReads(reg, slot, vals[0], tail.bytes + rest, st);
      var r := ReadSlot(reg, slot, st);
      if r.Got? {
        RowReads(reg, TailRow(row), vals[1..], rest, Made(slot, r.st));
      }
      RowStep(reg, row, |vals|, m, st, CanonSlot(slot, vals[0]), tail.bytes + rest, NeedSlot(reg, slot, vals[0]), |head.bytes|,
              CanonRow(TailRow(row), vals[1..]), rest, NeedRow(reg, TailRow(row), vals[1..]), |tail.bytes|,
              NeedRow(reg, row, vals), |head.bytes| + |tail.bytes|);
    }
  }

  /** One slot and then the others, on results already known to read as they should. */
  lemma RowStep(reg: Registry, row: Row, n: nat, m: nat, st: RState, v: Val, mid: seq<byte>, need1: Need, n1: nat,
                vs: seq<Val>, rest: seq<byte>, need2: Need, n2: nat, need: Need, total: nat)
    requires Ready(reg) && Within(st.led) && n == m + 1 && RowFits(row, n)
    requires Reads(ReadSlot(reg, HeadSlot(row), st), v, mid, st, need1, n1)
    requires var r := ReadSlot(reg, HeadSlot(row), st);
             r.Got? ==> Reads(ReadRow(reg, TailRow(row), m, Made(HeadSlot(row), r.st)), vs, rest, Made(HeadSlot(row), r.st), need2, n2)
    requires need == Both(need1, need2) && total == n1 + n2
    ensures Reads(ReadRow(reg, row, n, st), [v] + vs, rest, st, need, total)
  {
    RowUnfolds(reg, row, m, st);
  }

  lemma RowUnfolds(reg: Registry, row: Row, m: nat, st: RState)
    requires PrimitivesCompiled(reg) && st.led.bytes <= MAX_BYTES && RowFits(row, m + 1)
    ensures var r := ReadSlot(reg, HeadSlot(row), st);
            && (r.Lost? ==> ReadRow(reg, row, m + 1, st) == Lost(r.err, r.st))
            && (r.Got? ==> var q := ReadRow(reg, TailRow(row), m, Made(HeadSlot(row), r.st));
                           ReadRow(reg, row, m + 1, st) == if q.Got? then Got([r.value] + q.value, q.st) else Lost(q.err, q.st))
  {
  }

  /** Any slot of any schema: the value reads back as its canonical form and leaves the rest. */
  lemma {:induction false} SlotReads(reg: Registry, slot: Slot, v: Val, rest: seq<byte>, st: RState)
    requires Ready(reg) && Within(st.led) && Conforms(reg, slot, v)
    requires PlanSlot(slot, v).Some? && |PlanSlot(slot, v).value.bytes| <= MAX_BYTES
    requires st.inp == PlanSlot(slot, v).value.bytes + rest
    ensures Reads(ReadSlot(reg, slot, st), CanonSlot(slot, v), rest, st, NeedSlot(reg, slot, v),
                  |PlanSlot(slot, v).value.bytes|)
    decreases v, 4
  {
    match slot
    case ElemSlot(t) => ElemReads(reg, t, v, rest, st);
    case FieldSlot(Primitive(t)) => ObjReads(reg, t, v, rest, st);
    case FieldSlot(Ref(t)) => ObjReads(reg, t, v, rest, st);
    case FieldSlot(Ptr(t)) => FlaggedReads(reg, t, v, !IsAbsent(v), NIL_MARKER, rest, st);
    case FieldSlot(AnyObject) => AnyReads(reg, v, rest, st);
    case FieldSlot(Slice(_)) => ContainerReads(reg, slot.spec, v, rest, st);
    case FieldSlot(Array(_, _)) => ContainerReads(reg, slot.spec, v, rest, st);
    case FieldSlot(Map(_, _)) => ContainerReads(reg, slot.spec, v, rest, st);
  }

  lemma {:induction false} AnyReads(reg: Registry, v: Val, rest: seq<byte>, st: RState)
    requires Ready(reg) && Within(st.led) && Conforms(reg, FieldSlot(AnyObject), v)
    requires PlanSlot(FieldSlot(AnyObject), v).Some? && |PlanSlot(FieldSlot(AnyObject), v).value.bytes| <= MAX_BYTES
    requires st.inp == PlanSlot(FieldSlot(AnyObject), v).value.bytes + rest
    ensures Reads(ReadTagged(reg, NIL_MARKER, st), CanonSlot(FieldSlot(AnyObject), v), rest, st,
                  NeedSlot(reg, FieldSlot(AnyObject), v), |PlanSlot(FieldSlot(AnyObject), v).value.bytes|)
    decreases v, 3
  {
    if IsAbsent(v) {
      assert PlanSlot(FieldSlot(AnyObject), v).value.bytes == [0];
      AbsentReads(reg, NIL_MARKER, rest, st);
    } else {
      TaggedReads(reg, v, NIL_MARKER, rest, st);
    }
  }

  /** A container with or without a frame of its own: the slow path opens none. */
  lemma {:induction false} ContainerReads(reg: Registry, spec: Spec, v: Val, rest: seq<byte>, st: RState)
    requires Ready(reg) && Within(st.led) && (spec.Slice? || spec.Array? || spec.Map?)
    requires Conforms(reg, FieldSlot(spec), v)
    requires PlanObj(v).Some? && |PlanObj(v).value.bytes| <= MAX_BYTES
    requires st.inp == PlanObj(v).value.bytes + rest
    ensures Reads(ReadContainer(reg, spec, st), CanonObj(v), rest, st, NeedObj(reg, v), |PlanObj(v).value.bytes|)
    decreases v, 3
  {
    if IsRuntime(reg, spec.elem) {
      CarrierReads(reg, spec, v, rest, st);
    } else {
      if Entered(st.led) {
        CarrierReads(reg, spec, v, rest, EnterR(st));
      }
      FrameReads(st, ReadCarrier(reg, spec, EnterR(st)), CanonObj(v), rest, NeedInside(reg, v), |PlanObj(v).value.bytes|);
    }
  }

  lemma {:induction false} CarrierReads(reg: Registry, spec: Spec, v: Val, rest: seq<byte>, st: RState)
    requires Ready(reg) && Within(st.led) && (spec.Slice? || spec.Array? || spec.Map?)
    requires Conforms(reg, FieldSlot(spec), v)
    requires PlanObj(v).Some? && |PlanObj(v).value.bytes| <= MAX_BYTES
    requires st.inp == PlanObj(v).value.bytes + rest
    ensures Reads(ReadCarrier(reg, spec, st), CanonObj(v), rest, st, NeedInside(reg, v), |PlanObj(v).value.bytes|)
    decreases v, 2
  {
    if spec.Array? {
      RowReads(reg, ElemRow(spec.elem), v.items, rest, st);
    } else if spec.Slice? {
      SliceReads(reg, spec, v, rest, st);
    } else {
      MapReads(reg, v, rest, st);
      CanonMap(reg, v.keyWidth, v.elem, v.entries);
    }
  }

  lemma {:induction false} SliceReads(reg: Registry, spec: Spec, v: Val, rest: seq<byte>, st: RState)
    requires Ready(reg) && Within(st.led) && spec.Slice? && Conforms(reg, FieldSlot(spec), v)
    requires PlanObj(v).Some? && |PlanObj(v).value.bytes| <= MAX_BYTES
    requires st.inp == PlanObj(v).value.bytes + rest
    ensures Reads(ReadCarrier(reg, spec, st), CanonObj(v), rest, st, NeedInside(reg, v), |PlanObj(v).value.bytes|)
    decreases v, 1
  {
    var row := PlanRow(ElemRow(spec.elem), v.items).value.bytes;
    RowLength(spec.elem, v.items);
    ConcatAssoc(BE(4, |v.items|), row, rest);
    CountReads(|v.items|, row + rest, st);
    var r := ReadCount(st);
    if r.Got? {
      RowReads(reg, ElemRow(spec.elem), v.items, rest, r.st);
      var vals := ReadRow(reg, ElemRow(spec.elem), |v.items|, r.st);
      AfterReads(st, r, |v.items|, row + rest, 4, vals, CanonRow(ElemRow(spec.elem), v.items), rest, NeedInside(reg, v), |row|,
                 vals, |PlanObj(v).value.bytes|);
    }
  }

  lemma CountReads(n: nat, rest: seq<byte>, st: RState)
    requires Within(st.led) && n <= MAX_BYTES && st.inp == BE(4, n) + rest
    ensures Reads(ReadCount(st), n, rest, st, FREE, 4)
  {
    Pow256Values();
    FullReads(BE(4, n), rest, st);
    FromBEOfBE(4, n);
  }

  /** An element takes at least one byte, so the 32-bit count never wraps. */
  lemma {:induction false} RowLength(t: string, vals: seq<Val>)
    requires PlanRow(ElemRow(t), vals).Some?
    ensures |vals| <= |PlanRow(ElemRow(t), vals).value.bytes|
    decreases |vals|
  {
    if vals != [] {
      RowLength(t, vals[1..]);
    }
  }

  // ---------------------------------------------------------------- maps

  lemma {:induction false} PairsLength(pairs: seq<Pair>)
    requires forall p :: p in pairs ==> |p.val| >= 1
    ensures |pairs| <= |PairsWire(pairs)|
    decreases |pairs|
  {
    if pairs != [] {
      PairsLength(pairs[1..]);
    }
  }

  lemma {:induction false} StagedValues(w: nat, t: string, es: seq<Entry>)
    requires PlanStage(w, t, es).Some?
    ensures forall p :: p in PlanStage(w, t, es).value ==> |p.val| >= 1
    decreases |es|
  {
    if es != [] {
      StagedValues(w, t, es[1..]);
      var ps := PlanStage(w, t, es).value;
      assert ps == [PlanPair(w, t, es[0]).value] + PlanStage(w, t, es[1..]).value;
      assert |PlanPair(w, t, es[0]).value.val| >= 1;
    }
  }

  lemma {:induction false} MapReads(reg: Registry, v: Val, rest: seq<byte>, st: RState)
    requires Ready(reg) && Within(st.led) && v.MapV?
    requires DistinctKeys(v.entries) && ConformsEntries(reg, v.keyWidth, v.elem, v.entries)
    requires PlanObj(v).Some? && |PlanObj(v).value.bytes| <= MAX_BYTES
    requires st.inp == PlanObj(v).value.bytes + rest
    ensures Reads(ReadCounted(reg, v.keyWidth, v.elem, st), CanonEntries(v.elem, SortEntries(v.keyWidth, v.entries)), rest, st,
                  NeedEntries(reg, v.elem, v.entries), |PlanObj(v).value.bytes|)
    decreases v, 1
  {
    var w, t, es := v.keyWidth, v.elem, v.entries;
    var sorted := SortEntries(w, es);
    SortedParts(reg, w, t, es, sorted);
    var body := PairsWire(PlanStage(w, t, sorted).value);
    MapBytes(v, body, rest);
    CountReads(|es|, body + rest, st);
    var r := ReadCount(st);
    if r.Got? {
      EntriesRead(reg, v, sorted, rest, r.st);
      AfterReads(st, r, |es|, body + rest, 4, ReadEntries(reg, w, t, |es|, r.st), CanonEntries(t, sorted), rest,
                 NeedEntries(reg, t, es), |body|, ReadCounted(reg, w, t, st), |PlanObj(v).value.bytes|);
    }
  }

  ghost function ReadCounted(reg: Registry, w: nat, t: string, st: RState): Got<seq<Entry>>
    requires PrimitivesCompiled(reg) && st.led.bytes <= MAX_BYTES
  {
    match ReadCount(st)
    case Lost(e, s) => Lost(e, s)
    case Got(n, s) => ReadEntries(reg, w, t, n, s)
  }

  lemma SortedParts(reg: Registry, w: nat, t: string, es: seq<Entry>, sorted: seq<Entry>)
    requires Ready(reg) && ConformsEntries(reg, w, t, es) && PlanStage(w, t, es).Some? && sorted == SortEntries(w, es)
    ensures PlanStage(w, t, sorted) == Some(Sort(PlanStage(w, t, es).value)) && |sorted| == |es|
    ensures ConformsEntries(reg, w, t, sorted) && forall e :: e in sorted ==> e in es
    ensures NeedEntries(reg, t, sorted) == NeedEntries(reg, t, es)
    ensures |es| <= |PairsWire(PlanStage(w, t, sorted).value)|
  {
    StageSorted(w, t, es);
    SortedSame(w, es);
    SortedCommutes(reg, w, t, es);
    SortedConforms(reg, w, t, es);
    StagedLength(w, t, es);
  }

  lemma MapBytes(v: Val, body: seq<byte>, rest: seq<byte>)
    requires v.MapV? && PlanObj(v).Some? && body == PairsWire(Sort(PlanStage(v.keyWidth, v.elem, v.entries).value))
    ensures PlanObj(v).value.bytes + rest == BE(4, |v.entries|) + (body + rest)
    ensures |PlanObj(v).value.bytes| == 4 + |body|
  {
  }

  lemma StagedLength(w: nat, t: string, es: seq<Entry>)
    requires PlanStage(w, t, es).Some?
    ensures |es| <= |PairsWire(Sort(PlanStage(w, t, es).value))|
  {
    StageSorted(w, t, es);
    StagedValues(w, t, SortEntries(w, es));
    PairsLength(Sort(PlanStage(w, t, es).value));
  }

  /** Reading entries one by one, in the order in which they were written. */
  lemma {:induction false} EntriesRead(reg: Registry, m: Val, es: seq<Entry>, rest: seq<byte>, st: RState)
    requires Ready(reg) && Within(st.led) && m.MapV?
    requires ConformsEntries(reg, m.keyWidth, m.elem, es) && forall e :: e in es ==> e in m.entries
    requires PlanStage(m.keyWidth, m.elem, es).Some?
    requires |PairsWire(PlanStage(m.keyWidth, m.elem, es).value)| <= MAX_BYTES
    requires st.inp == PairsWire(PlanStage(m.keyWidth, m.elem, es).value) + rest
    ensures Reads(ReadEntries(reg, m.keyWidth, m.elem, |es|, st), CanonEntries(m.elem, es), rest, st,
                  NeedEntries(reg, m.elem, es), |PairsWire(PlanStage(m.keyWidth, m.elem, es).value)|)
    decreases m, 0, |es|
  {
    var w, t := m.keyWidth, m.elem;
    if es == [] {
      assert st.inp == rest;
    } else {
      var pairs := PlanStage(w, t, es).value;
      assert es[0] in es;
      var i :| 0 <= i < |m.entries| && m.entries[i] == es[0];
      var tail := PairsWire(pairs[1..]) + rest;
      assert pairs[0] == PlanPair(w, t, es[0]).value && pairs[1..] == PlanStage(w, t, es[1..]).value;
      ConcatAssoc(pairs[0].key + pairs[0].val, PairsWire(pairs[1..]), rest);
      EntryReads(reg, m, i, tail, st);
      var r := ReadEntry(reg, w, t, st);
      if r.Got? {
        EntriesRead(reg, m, es[1..], rest, r.st);
      }
      EntriesStep(reg, w, t, |es|, |es[1..]|, st, CanonEntry(t, es[0]), tail, NeedEntry(reg, t, es[0]),
                  |pairs[0].key| + |pairs[0].val|, CanonEntries(t, es[1..]), rest, NeedEntries(reg, t, es[1..]),
                  |PairsWire(pairs[1..])|, NeedEntries(reg, t, es), |PairsWire(pairs)|);
    }
  }

  lemma EntriesStep(reg: Registry, w: nat, t: string, n: nat, m: nat, st: RState, e: Entry, mid: seq<byte>, need1: Need, n1: nat,
                    es: seq<Entry>, rest: seq<byte>, need2: Need, n2: nat, need: Need, total: nat)
    requires Ready(reg) && Within(st.led) && n == m + 1
    requires Reads(ReadEntry(reg, w, t, st), e, mid, st, need1, n1)
    requires var r := ReadEntry(reg, w, t, st); r.Got? ==> Reads(ReadEntries(reg, w, t, m, r.st), es, rest, r.st, need2, n2)
    requires need == Both(need1, need2) && total == n1 + n2
    ensures Reads(ReadEntries(reg, w, t, n, st), [e] + es, rest, st, need, total)
  {
    EntriesUnfold(reg, w, t, m, st);
  }

  lemma EntriesUnfold(reg: Registry, w: nat, t: string, m: nat, st: RState)
    requires PrimitivesCompiled(reg) && st.led.bytes <= MAX_BYTES
    ensures var r := ReadEntry(reg, w, t, st);
            && (r.Lost? ==> ReadEntries(reg, w, t, m + 1, st) == Lost(r.err, r.st))
            && (r.Got? ==> var q := ReadEntries(reg, w, t, m, r.st);
                           ReadEntries(reg, w, t, m + 1, st) == if q.Got? then Got([r.value] + q.value, q.st) else Lost(q.err, q.st))
  {
  }

  /** One entry: its key, then its value through the element codec. */
  lemma {:induction false} EntryReads(reg: Registry, m: Val, i: nat, rest: seq<byte>, st: RState)
    requires Ready(reg) && Within(st.led) && m.MapV? && i < |m.entries|
    requires ConformsEntry(reg, m.keyWidth, m.elem, m.entries[i])
    requires PlanPair(m.keyWidth, m.elem, m.entries[i]).Some?
    requires var p := PlanPair(m.keyWidth, m.elem, m.entries[i]).value;
             |p.val| <= MAX_BYTES && st.inp == p.key + p.val + rest
    ensures var p := PlanPair(m.keyWidth, m.elem, m.entries[i]).value;
            Reads(ReadEntry(reg, m.keyWidth, m.elem, st), CanonEntry(m.elem, m.entries[i]), rest, st,
                  NeedEntry(reg, m.elem, m.entries[i]), |p.key| + |p.val|)
    decreases m, 0, 0
  {
    var w, t, e := m.keyWidth, m.elem, m.entries[i];
    var p := PlanPair(w, t, e).value;
    assert st.inp == p.key + (p.val + rest);
    KeyReads(w, e.key, p.val + rest, st);
    var k := ReadKey(w, st);
    if k.Got? {
      ElemReads(reg, t, e.val, rest, k.st);
    }
  }

  /** Setting distinct keys in order lists them in that order. */
  lemma {:induction false} PutAllDistinct(acc: seq<Entry>, es: seq<Entry>)
    requires DistinctKeys(acc + es)
    ensures PutAll(acc, es) == acc + es
    decreases |es|
  {
    if es != [] {
      PutFresh(acc, es[0].key, es[0].val, es);
      assert acc + [es[0]] + es[1..] == acc + es;
      PutAllDistinct(acc + [es[0]], es[1..]);
    }
  }

  lemma {:induction false} PutFresh(acc: seq<Entry>, k: Key, v: Val, es: seq<Entry>)
    requires es != [] && es[0].key == k && DistinctKeys(acc + es)
    ensures Put(acc, k, v) == acc + [Entry(k, v)]
    decreases |acc|
  {
    if acc != [] {
      assert (acc + es)[|acc|] == es[0] && (acc + es)[0] == acc[0];
      assert acc[1..] + es == (acc + es)[1..];
      PutFresh(acc[1..], k, v, es);
    }
  }

  /** What the decoder lists is the canonical map. */
  lemma CanonMap(reg: Registry, w: nat, t: string, es: seq<Entry>)
    requires DistinctKeys(es)
    ensures PutAll([], CanonEntries(t, SortEntries(w, es))) == SortEntries(w, CanonEntries(t, es))
  {
    SortedDistinct(w, es);
    SortedCommutes(reg, w, t, es);
    var r := CanonEntries(t, SortEntries(w, es));
    assert [] + r == r;
    PutAllDistinct([], r);
  }

  // sorting commutes with everything computed entry by entry

  lemma {:induction false} InsertSame(w: nat, e: Entry, es: seq<Entry>)
    ensures multiset(InsertEntry(w, e, es)) == multiset(es) + multiset{e}
    decreases |es|
  {
    if es == [] || !Less(Wire(w, es[0].key), Wire(w, e.key)) {
    } else {
      InsertSame(w, e, es[1..]);
      assert es == [es[0]] + es[1..];
    }
  }

  lemma {:induction false} SortedSame(w: nat, es: seq<Entry>)
    ensures multiset(SortEntries(w, es)) == multiset(es)
    ensures forall e :: e in SortEntries(w, es) <==> e in es
    decreases |es|
  {
    if es != [] {
      SortedSame(w, es[1..]);
      InsertSame(w, es[0], SortEntries(w, es[1..]));
      assert es == [es[0]] + es[1..];
    }
    SameElements(SortEntries(w, es), es);
  }

  lemma SameElements(a: seq<Entry>, b: seq<Entry>)
    requires multiset(a) == multiset(b)
    ensures forall e :: e in a <==> e in b
  {
    forall e
      ensures e in a <==> e in b
    {
      assert e in a <==> e in multiset(a);
    }
  }

  lemma {:induction false} InsertDistinct(w: nat, e: Entry, es: seq<Entry>)
    requires DistinctKeys(es) && forall x :: x in es ==> x.key != e.key
    ensures DistinctKeys(InsertEntry(w, e, es))
    decreases |es|
  {
    if es == [] || !Less(Wire(w, es[0].key), Wire(w, e.key)) {
    } else {
      InsertDistinct(w, e, es[1..]);
      InsertSame(w, e, es[1..]);
      var r := InsertEntry(w, e, es[1..]);
      forall x | x in r
        ensures x.key != es[0].key
      {
        assert x in multiset(r);
      }
    }
  }

  lemma {:induction false} SortedDistinct(w: nat, es: seq<Entry>)
    requires DistinctKeys(es)
    ensures DistinctKeys(SortEntries(w, es))
    decreases |es|
  {
    if es != [] {
      SortedDistinct(w, es[1..]);
      SortedSame(w, es[1..]);
      InsertDistinct(w, es[0], SortEntries(w, es[1..]));
    }
  }

  lemma {:induction false} InsertConforms(reg: Registry, w: nat, t: string, e: Entry, es: seq<Entry>)
    requires Ready(reg) && ConformsEntry(reg, w, t, e) && ConformsEntries(reg, w, t, es)
    ensures ConformsEntries(reg, w, t, InsertEntry(w, e, es))
    decreases |es|
  {
    if es == [] || !Less(Wire(w, es[0].key), Wire(w, e.key)) {
      assert ([e] + es)[1..] == es;
    } else {
      InsertConforms(reg, w, t, e, es[1..]);
      assert InsertEntry(w, e, es)[1..] == InsertEntry(w, e, es[1..]);
    }
  }

  lemma {:induction false} SortedConforms(reg: Registry, w: nat, t: string, es: seq<Entry>)
    requires Ready(reg) && ConformsEntries(reg, w, t, es)
    ensures ConformsEntries(reg, w, t, SortEntries(w, es))
    decreases |es|
  {
    if es != [] {
      SortedConforms(reg, w, t, es[1..]);
      InsertConforms(reg, w, t, es[0], SortEntries(w, es[1..]));
    }
  }

  lemma {:induction false} StageInsert(w: nat, t: string, e: Entry, es: seq<Entry>)
    requires PlanPair(w, t, e).Some? && PlanStage(w, t, es).Some?
    ensures PlanStage(w, t, InsertEntry(w, e, es)) == Some(Insert(PlanPair(w, t, e).value, PlanStage(w, t, es).value))
    decreases |es|
  {
    if es != [] {
      var p, ps := PlanPair(w, t, e).value, PlanStage(w, t, es).value;
      assert ps[0].key == Wire(w, es[0].key) && p.key == Wire(w, e.key) && ps[1..] == PlanStage(w, t, es[1..]).value;
      if Less(ps[0].key, p.key) {
        StageInsert(w, t, e, es[1..]);
        assert InsertEntry(w, e, es)[1..] == InsertEntry(w, e, es[1..]);
      } else {
        assert ([e] + es)[1..] == es;
      }
    } else {
      assert ([e] + es)[1..] == es;
    }
  }

  /** Sorting staged pairs is staging sorted entries. */
  lemma {:induction false} StageSorted(w: nat, t: string, es: seq<Entry>)
    requires PlanStage(w, t, es).Some?
    ensures PlanStage(w, t, SortEntries(w, es)) == Some(Sort(PlanStage(w, t, es).value))
    decreases |es|
  {
    if es != [] {
      StageSorted(w, t, es[1..]);
      StageInsert(w, t, es[0], SortEntries(w, es[1..]));
      assert PlanStage(w, t, es).value[1..] == PlanStage(w, t, es[1..]).value;
    }
  }

  lemma {:induction false} InsertCommutes(reg: Registry, w: nat, t: string, e: Entry, es: seq<Entry>)
    ensures NeedEntries(reg, t, InsertEntry(w, e, es)) == Both(NeedEntry(reg, t, e), NeedEntries(reg, t, es))
    ensures CanonEntries(t, InsertEntry(w, e, es)) == InsertEntry(w, CanonEntry(t, e), CanonEntries(t, es))
    decreases |es|
  {
    if es == [] || !Less(Wire(w, es[0].key), Wire(w, e.key)) {
      assert ([e] + es)[1..] == es;
    } else {
      InsertCommutes(reg, w, t, e, es[1..]);
      assert InsertEntry(w, e, es)[1..] == InsertEntry(w, e, es[1..]);
      assert CanonEntries(t, es)[1..] == CanonEntries(t, es[1..]);
    }
  }

  lemma {:induction false} SortedCommutes(reg: Registry, w: nat, t: string, es: seq<Entry>)
    ensures NeedEntries(reg, t, SortEntries(w, es)) == NeedEntries(reg, t, es)
    ensures CanonEntries(t, SortEntries(w, es)) == SortEntries(w, CanonEntries(t, es))
    decreases |es|
  {
    if es != [] {
      SortedCommutes(reg, w, t, es[1..]);
      InsertCommutes(reg, w, t, es[0], SortEntries(w, es[1..]));
      assert CanonEntries(t, es)[1..] == CanonEntries(t, es[1..]);
    }
  }
}
