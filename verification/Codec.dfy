/**
 * What the writers and readers of the schema-driven codec do to a stream and its ledger.
 * `WriteObj`, `WriteSlot`, `WriteRow` are one pass of the encoder; `ReadObj`, `ReadSlot`,
 * `ReadRow`, `ReadEntries` one pass of the decoder on any input.
 */
module Codec {
  import opened Wrappers
  import opened Bytes
  import opened Schema
  import opened Ledger
  import Construct

  /** A field of a Blueprint, or an element of a container (element type "" is an interface). */
  datatype Slot = FieldSlot(spec: Spec) | ElemSlot(t: string)

  /** The slots of a struct in order, or the like slots of a container. */
  datatype Row = FieldRow(fields: seq<Field>) | ElemRow(t: string)

  predicate RowFits(row: Row, n: nat) { row.FieldRow? ==> |row.fields| == n }

  function HeadSlot(row: Row): Slot
    requires !RowFits(row, 0) || row.ElemRow?
  {
    match row
    case FieldRow(fields) => FieldSlot(fields[0].spec)
    case ElemRow(t) => ElemSlot(t)
  }

  function TailRow(row: Row): Row
    requires !RowFits(row, 0) || row.ElemRow?
  {
    match row
    case FieldRow(fields) => FieldRow(fields[1..])
    case ElemRow(t) => row
  }

  /** The slots of a row from the i-th on. */
  ghost function RowFrom(row: Row, i: nat): Row
    requires row.FieldRow? ==> i <= |row.fields|
  {
    if row.FieldRow? then FieldRow(row.fields[i..]) else row
  }

  // ---------------------------------------------------------------- leaves and keys

  /** The length prefix of a leaf, and the bytes after it. */
  function LeafPrefix(k: Kind, p: Payload): seq<byte> {
    match k
    case Blob(w) => if p.Data? then BE(w, |p.s|) else []
    case _ => []
  }

  function LeafBody(k: Kind, p: Payload): seq<byte> {
    match k
    case Uint(w) => if p.Num? then BE(w, p.n) else []
    case Bool => if p.Num? then [if p.n == 0 then 0 else 1] else []
    case Empty => []
    case Opaque(c) => if p.Num? then c.enc(p.n) else []
    case _ => if p.Data? then p.s else []
  }

  /** A payload longer than its prefix can say, or a struct its codec cannot write, is refused. */
  function LeafErr(k: Kind, p: Payload): Option<Err> {
    match k
    case Blob(w) => if p.Data? && |p.s| >= Pow256(w) then Some(TooLarge) else None
    case Opaque(c) => if p.Num? && !c.valid(p.n) then Some(Malformed) else None
    case _ => None
  }

  /** The frames that writing a leaf opens, and those that reading it back does. */
  function LeafOpens(k: Kind, p: Payload): Need { if k.Opaque? && p.Num? then k.codec.opens(p.n) else FREE }

  function LeafReopens(k: Kind, p: Payload): Need { if k.Opaque? && p.Num? then k.codec.reopens(p.n) else FREE }

  /** `writeMapKey`: String16 for width 0, else the low `width` bytes, big-endian. */
  function KeyWire(width: nat, key: Key): Option<seq<byte>> {
    match key
    case StrKey(s) => if width != 0 || |s| >= 0x1_0000 then None else Some(BE(2, |s|) + s)
    case UintKey(n) => if width == 0 then None else Some(BE(width, n))
  }

  // ---------------------------------------------------------------- the encoder

  datatype WState = WState(out: seq<byte>, led: Counters)
  datatype WRes = WRes(st: WState, err: Option<Err>)

  /** `objectWriter.Write`: the bytes go out first and are charged after. */
  function Emit(bs: seq<byte>, st: WState): WRes {
    var bytes := st.led.bytes + |bs|;
    WRes(WState(st.out + bs, st.led.(bytes := bytes)),
         if |bs| > 0 && bytes > MAX_BYTES then Some(Limit) else None)
  }

  function WriteLeaf(k: Kind, p: Payload, st: WState): (r: WRes)
    ensures r.st.led.depth == st.led.depth
  {
    if LeafErr(k, p).Some? then WRes(st, LeafErr(k, p))
    else if k.Opaque? && !Nests(st.led, LeafOpens(k, p)) then WRes(st, Some(Limit))
    else
      var r := Emit(LeafPrefix(k, p), st.(led := Nested(st.led, LeafOpens(k, p))));
      if r.err.Some? then r else Emit(LeafBody(k, p), r.st)
  }

  function WriteTag(name: string, st: WState): (r: WRes)
    ensures r.st.led.depth == st.led.depth
  {
    WriteLeaf(Blob(1), Data(NameBytes(name)), st)
  }

  /** A frame that was refused still unwinds its depth. */
  function RefusedW(st: WState): WRes {
    WRes(st.(led := Exit(Enter(st.led))), Some(Limit))
  }

  function EnterW(st: WState): WState { st.(led := Enter(st.led)) }

  function ExitW(r: WRes): WRes
    requires r.st.led.depth > 0
  {
    WRes(r.st.(led := Exit(r.st.led)), r.err)
  }

  /** `writeField`, and the pointer and interface codecs of container elements. */
  function WriteSlot(slot: Slot, v: Val, st: WState): (r: WRes)
    ensures r.st.led.depth == st.led.depth
    decreases v, 3
  {
    match slot
    case FieldSlot(Ptr(_)) =>
      var r := Emit([if IsAbsent(v) then 0 else 1], st);
      if r.err.Some? || IsAbsent(v) then r else WriteObj(v, r.st)
    case FieldSlot(AnyObject) =>
      if v.NilIface? then WRes(st, Some(NilValue))
      else if IsAbsent(v) then WriteTag("", st)
      else if ObjectType(v) == "" then WRes(st, Some(Untyped))
      else
        var r := WriteTag(ObjectType(v), st);
        if r.err.Some? then r else WriteObj(v, r.st)
    case FieldSlot(_) => WriteObj(v, st)
    case ElemSlot(t) =>
      if !Entered(st.led) then RefusedW(st)
      else if t == "" then ExitW(WriteIface(v, EnterW(st)))
      else
        var absent := v.NilIface? || v.NilPtr?;
        var r := Emit([if absent then 0 else 1], EnterW(st));
        ExitW(if r.err.Some? || absent then r else WriteObj(v, r.st))
  }

  /** The inside of `interfaceValue.WriteTo`: a tag, then the object in a pointer frame. */
  function WriteIface(v: Val, st: WState): (r: WRes)
    ensures r.st.led.depth == st.led.depth
    decreases v, 2
  {
    if IsAbsent(v) then Emit([0], st)
    else if ObjectType(v) == "" then WRes(st, Some(Untyped))
    else
      var r := WriteTag(ObjectType(v), st);
      if r.err.Some? then r
      else if !Entered(r.st.led) then RefusedW(r.st)
      else ExitW(WriteObj(v, EnterW(r.st)))
  }

  function WriteRow(row: Row, vals: seq<Val>, st: WState): (r: WRes)
    requires RowFits(row, |vals|)
    ensures r.st.led.depth == st.led.depth
    decreases vals, 0
  {
    if vals == [] then WRes(st, None)
    else
      var r := WriteSlot(HeadSlot(row), vals[0], st);
      if r.err.Some? then r else WriteRow(TailRow(row), vals[1..], r.st)
  }

  /** `WriteTo` of an object or a container carrier. */
  function WriteObj(v: Val, st: WState): (r: WRes)
    ensures r.st.led.depth == st.led.depth
    decreases v, 1
  {
    match v
    case NilIface => WRes(st, Some(NilValue))
    case NilPtr => WRes(st, Some(NilValue))
    case Leaf(_, k, p) => WriteLeaf(k, p, st)
    case Alias(_, k, p) => WriteLeaf(k, p, st)
    case Struct(bp, fields) =>
      if |fields| != |bp.fields| then WRes(st, Some(NilValue))
      else if !Entered(st.led) then RefusedW(st)
      else ExitW(WriteRow(FieldRow(bp.fields), fields, EnterW(st)))
    case SliceV(t, items) =>
      if !Entered(st.led) then RefusedW(st)
      else
        var r := Emit(BE(4, |items|), EnterW(st));
        ExitW(if r.err.Some? then r else WriteRow(ElemRow(t), items, r.st))
    case ArrayV(t, items) =>
      if !Entered(st.led) then RefusedW(st)
      else ExitW(WriteRow(ElemRow(t), items, EnterW(st)))
    case MapV(width, t, entries) =>
      if !Entered(st.led) then RefusedW(st)
      else
        var r := Emit(BE(4, |entries|), EnterW(st));
        ExitW(if r.err.Some? then r else
              match Stage(width, t, entries)
              case StageErr(e) => WRes(r.st, Some(e))
              case Staged(pairs) => EmitPairs(Sort(pairs), r.st))
  }

  datatype Pair = Pair(key: seq<byte>, val: seq<byte>)
  datatype Staging = Staged(pairs: seq<Pair>) | StageErr(err: Err)

  /**
   * Every entry is encoded into plain buffers before any goes out, in enumeration order. A
   * value's buffer carries no ledger, so the value starts a fresh one.
   */
  function Stage(width: nat, t: string, entries: seq<Entry>): (r: Staging)
    ensures r.Staged? ==> |r.pairs| == |entries|
    decreases entries, 0
  {
    if entries == [] then Staged([])
    else
      var e := entries[0];
      match KeyWire(width, e.key)
      case None => StageErr(TooLarge)
      case Some(key) =>
        var r := WriteStaged(t, e);
        if r.err.Some? then StageErr(r.err.value)
        else
          match Stage(width, t, entries[1..])
          case StageErr(x) => StageErr(x)
          case Staged(pairs) => Staged([Pair(key, r.st.out)] + pairs)
  }

  function WriteStaged(t: string, e: Entry): WRes
    decreases e, 0
  {
    WriteSlot(ElemSlot(t), e.val, WState([], FRESH))
  }

  function EmitPairs(pairs: seq<Pair>, st: WState): (r: WRes)
    ensures r.st.led.depth == st.led.depth
  {
    if pairs == [] then WRes(st, None)
    else
      var k := Emit(pairs[0].key, st);
      if k.err.Some? then k
      else
        var r := Emit(pairs[0].val, k.st);
        if r.err.Some? then r else EmitPairs(pairs[1..], r.st)
  }

  function Insert(p: Pair, ps: seq<Pair>): (r: seq<Pair>)
    ensures |r| == |ps| + 1
  {
    if ps == [] || !Less(ps[0].key, p.key) then [p] + ps else [ps[0]] + Insert(p, ps[1..])
  }

  /** `sort.Slice` by `bytes.Compare` on the encoded keys. */
  function Sort(ps: seq<Pair>): (r: seq<Pair>)
    ensures |r| == |ps|
  {
    if ps == [] then [] else Insert(ps[0], Sort(ps[1..]))
  }

  /** `Encode` with the short type encoder, on a writer with ledger `st.led`. */
  function Encode(v: Val, st: WState): WRes {
    if ObjectType(v) == "" then WRes(st, Some(Untyped))
    else
      var r := WriteTag(ObjectType(v), st);
      if r.err.Some? then r else WriteObj(v, r.st)
  }

  // ---------------------------------------------------------------- the decoder

  /** What is left of the input, the ledger, and the container elements completed so far. */
  datatype RState = RState(inp: seq<byte>, led: Counters, made: nat)

  datatype Got<+T> = Got(value: T, st: RState) | Lost(err: Err, st: RState)

  /** Every read restores the depth and stays within the byte budget. */
  predicate Keeps(s: RState, t: RState) { t.led.depth == s.led.depth && t.led.bytes <= MAX_BYTES }

  function Take(n: nat, st: RState): RState
    requires n <= |st.inp|
  {
    st.(inp := st.inp[n..], led := st.led.(bytes := st.led.bytes + n))
  }

  /** `io.ReadFull` through the budgeted reader. */
  function ReadFull(n: nat, st: RState): (r: Got<seq<byte>>)
    requires st.led.bytes <= MAX_BYTES
    ensures Keeps(st, r.st)
    ensures r.Got? ==> |r.value| == n
  {
    var room := MAX_BYTES - st.led.bytes;
    if n <= |st.inp| && n <= room then Got(st.inp[..n], Take(n, st))
    else if |st.inp| >= room then Lost(Limit, Take(room, st))
    else Lost(ShortRead, Take(|st.inp|, st))
  }

  function ReadLeaf(k: Kind, st: RState): (r: Got<Payload>)
    requires st.led.bytes <= MAX_BYTES
    ensures Keeps(st, r.st)
    ensures r.Got? && k.Blob? ==> r.value.Data?
  {
    match k
    case Uint(w) =>
      (match ReadFull(w, st)
       case Lost(e, s) => Lost(e, s)
       case Got(b, s) => Got(Num(FromBE(b)), s))
    case Blob(w) =>
      (match ReadFull(w, st)
       case Lost(e, s) => Lost(e, s)
       case Got(b, s) =>
         match ReadFull(FromBE(b), s)
         case Lost(e, s') => Lost(e, s')
         case Got(body, s') => Got(Data(body), s'))
    case Bool =>
      (match ReadFull(1, st)
       case Lost(e, s) => Lost(e, s)
       case Got(b, s) => Got(Num(if b[0] == 0 then 0 else 1), s))
    case Raw(n) =>
      (match ReadFull(n, st)
       case Lost(e, s) => Lost(e, s)
       case Got(b, s) => Got(Data(b), s))
    case Empty => Got(Num(0), st)
    case Opaque(c) => ReadStruct(c, st)
  }

  /** A struct codec sees what the budget lets through; what it took before refusing is gone. */
  function ReadStruct(c: StructCodec, st: RState): (r: Got<Payload>)
    requires st.led.bytes <= MAX_BYTES
    ensures Keeps(st, r.st)
  {
    var room := Min(|st.inp|, MAX_BYTES - st.led.bytes);
    match c.dec(st.inp[..room])
    case Refused(n) => Lost(Malformed, Take(Min(n, room), st))
    case Took(v, n) =>
      if n > room then Lost(Malformed, Take(room, st))
      else if !Nests(st.led, c.reopens(v)) then Lost(Limit, st)
      else Got(Num(v), Take(n, st.(led := Nested(st.led, c.reopens(v)))))
  }

  function ReadTag(st: RState): (r: Got<string>)
    requires st.led.bytes <= MAX_BYTES
    ensures Keeps(st, r.st)
  {
    match ReadLeaf(Blob(1), st)
    case Lost(e, s) => Lost(e, s)
    case Got(p, s) => Got(NameOf(p.s), s)
  }

  /** The strict presence flag: 0 or 1. */
  function ReadFlag(st: RState): (r: Got<bool>)
    requires st.led.bytes <= MAX_BYTES
    ensures Keeps(st, r.st)
  {
    match ReadFull(1, st)
    case Lost(e, s) => Lost(e, s)
    case Got(b, s) => if b[0] > 1 then Lost(BadFlag, s) else Got(b[0] == 1, s)
  }

  function ReadCount(st: RState): (r: Got<nat>)
    requires st.led.bytes <= MAX_BYTES
    ensures Keeps(st, r.st)
  {
    match ReadFull(4, st)
    case Lost(e, s) => Lost(e, s)
    case Got(b, s) => Got(FromBE(b), s)
  }

  function ReadKey(width: nat, st: RState): (r: Got<Key>)
    requires st.led.bytes <= MAX_BYTES
    ensures Keeps(st, r.st)
  {
    if width == 0 then
      match ReadLeaf(Blob(2), st)
      case Lost(e, s) => Lost(e, s)
      case Got(p, s) => Got(StrKey(p.s), s)
    else
      match ReadFull(width, st)
      case Lost(e, s) => Lost(e, s)
      case Got(b, s) => Got(UintKey(FromBE(b)), s)
  }

  /** What a fresh `New(name)` is able to read, None when New gives nil. */
  datatype Shape = LeafShape(kind: Kind) | AliasShape(bp: Blueprint, kind: Kind) | StructShape(bp: Blueprint)

  ghost function Resolve(reg: Registry, name: string): Option<Shape>
    requires PrimitivesCompiled(reg)
  {
    match Construct.New(reg, name)
    case Leaf(_, k, _) => Some(LeafShape(k))
    case Alias(bp, k, _) => Some(AliasShape(bp, k))
    case Struct(bp, _) => Some(StructShape(bp))
    case _ => None
  }

  function EnterR(st: RState): RState { st.(led := Enter(st.led)) }

  function RefusedR<T>(st: RState): (r: Got<T>)
    ensures st.led.bytes <= MAX_BYTES ==> Keeps(st, r.st)
  {
    Lost(Limit, st.(led := Exit(Enter(st.led))))
  }

  function ExitR<T>(r: Got<T>): Got<T>
    requires r.st.led.depth > 0
  {
    match r
    case Got(v, s) => Got(v, s.(led := Exit(s.led)))
    case Lost(e, s) => Lost(e, s.(led := Exit(s.led)))
  }

  function Room(led: Counters): nat { if led.depth <= MAX_DEPTH then MAX_DEPTH - led.depth else 0 }

  /** `New(name)` and its `ReadFrom`. */
  ghost function ReadObj(reg: Registry, name: string, st: RState): (r: Got<Val>)
    requires PrimitivesCompiled(reg) && st.led.bytes <= MAX_BYTES
    ensures Keeps(st, r.st)
    decreases Room(st.led), 0, 0
  {
    match Resolve(reg, name)
    case None => Lost(NotFound, st)
    case Some(LeafShape(k)) =>
      (match ReadLeaf(k, st)
       case Lost(e, s) => Lost(e, s)
       case Got(p, s) => Got(Leaf(name, k, p), s))
    case Some(AliasShape(bp, k)) =>
      (match ReadLeaf(k, st)
       case Lost(e, s) => Lost(e, s)
       case Got(p, s) => Got(Alias(bp, k, p), s))
    case Some(StructShape(bp)) =>
      if !Entered(st.led) then RefusedR(st)
      else
        match ExitR(ReadRow(reg, FieldRow(bp.fields), |bp.fields|, EnterR(st)))
        case Lost(e, s) => Lost(e, s)
        case Got(vals, s) => Got(Struct(bp, vals), s)
  }

  /** A tag and the object it names; the empty tag and "nil" are `absent`. */
  ghost function ReadTagged(reg: Registry, absent: Val, st: RState): (r: Got<Val>)
    requires PrimitivesCompiled(reg) && st.led.bytes <= MAX_BYTES
    ensures Keeps(st, r.st)
    decreases Room(st.led), 1, 0
  {
    match ReadTag(st)
    case Lost(e, s) => Lost(e, s)
    case Got(name, s) => if name == "" || name == NIL_NAME then Got(absent, s) else ReadObj(reg, name, s)
  }

  /** A flag and, when it is set, an object of type `t`. */
  ghost function ReadFlagged(reg: Registry, t: string, absent: Val, st: RState): (r: Got<Val>)
    requires PrimitivesCompiled(reg) && st.led.bytes <= MAX_BYTES
    ensures Keeps(st, r.st)
    decreases Room(st.led), 1, 0
  {
    match ReadFlag(st)
    case Lost(e, s) => Lost(e, s)
    case Got(present, s) => if present then ReadObj(reg, t, s) else Got(absent, s)
  }

  /** An element: the interface codec, the slow path of runtime types, or the pointer codec. */
  ghost function ReadElem(reg: Registry, t: string, st: RState): (r: Got<Val>)
    requires PrimitivesCompiled(reg) && st.led.bytes <= MAX_BYTES
    ensures Keeps(st, r.st)
    decreases Room(st.led), 2, 0
  {
    if IsRuntime(reg, t) then ReadFlagged(reg, t, NilPtr, st)
    else if !Entered(st.led) then RefusedR(st)
    else if t == "" then ExitR(ReadTagged(reg, NilIface, EnterR(st)))
    else ExitR(ReadFlagged(reg, t, NilPtr, EnterR(st)))
  }

  predicate KeyAllowed(spec: Spec) { spec.Map? ==> IsMapKey(spec.key) }

  /** `readField`. A container of a runtime type opens no frame of its own. */
  ghost function ReadField(reg: Registry, spec: Spec, st: RState): (r: Got<Val>)
    requires PrimitivesCompiled(reg) && st.led.bytes <= MAX_BYTES
    ensures Keeps(st, r.st)
    decreases Room(st.led), 5, 0
  {
    match spec
    case Primitive(t) => ReadObj(reg, t, st)
    case Ref(t) => ReadObj(reg, t, st)
    case Ptr(t) => ReadFlagged(reg, t, NIL_MARKER, st)
    case AnyObject => ReadTagged(reg, NIL_MARKER, st)
    case Slice(_) => ReadContainer(reg, spec, st)
    case Array(_, _) => ReadContainer(reg, spec, st)
    case Map(_, _) => ReadContainer(reg, spec, st)
  }

  /** A container resolves its element type first; the slow path of runtime types opens no frame. */
  ghost function ReadContainer(reg: Registry, spec: Spec, st: RState): (r: Got<Val>)
    requires spec.Slice? || spec.Array? || spec.Map?
    requires PrimitivesCompiled(reg) && st.led.bytes <= MAX_BYTES
    ensures Keeps(st, r.st)
    decreases Room(st.led), 4, 1
  {
    if !Construct.ElemResolves(reg, spec.elem) then Lost(NotFound, st)
    else if !KeyAllowed(spec) then Lost(Invalid, st)
    else if IsRuntime(reg, spec.elem) then ReadCarrier(reg, spec, st)
    else if !Entered(st.led) then RefusedR(st)
    else ExitR(ReadCarrier(reg, spec, EnterR(st)))
  }

  /** The inside of a container: the count, unless the schema fixes it, and the elements. */
  ghost function ReadCarrier(reg: Registry, spec: Spec, st: RState): (r: Got<Val>)
    requires spec.Slice? || spec.Array? || spec.Map?
    requires PrimitivesCompiled(reg) && st.led.bytes <= MAX_BYTES
    ensures Keeps(st, r.st)
    decreases Room(st.led), 4, 0
  {
    if spec.Array? then
      match ReadRow(reg, ElemRow(spec.elem), spec.length, st)
      case Lost(e, s) => Lost(e, s)
      case Got(vals, s) => Got(ArrayV(spec.elem, vals), s)
    else
      match ReadCount(st)
      case Lost(e, s) => Lost(e, s)
      case Got(n, s) =>
        if spec.Slice? then
          match ReadRow(reg, ElemRow(spec.elem), n, s)
          case Lost(e, s') => Lost(e, s')
          case Got(vals, s') => Got(SliceV(spec.elem, vals), s')
        else
          var width := Construct.KeyWidth(spec.key);
          match ReadEntries(reg, width, spec.elem, n, s)
          case Lost(e, s') => Lost(e, s')
          case Got(es, s') => Got(MapV(width, spec.elem, PutAll([], es)), s')
  }

  ghost function ReadSlot(reg: Registry, slot: Slot, st: RState): (r: Got<Val>)
    requires PrimitivesCompiled(reg) && st.led.bytes <= MAX_BYTES
    ensures Keeps(st, r.st)
    decreases Room(st.led), if slot.FieldSlot? then 6 else 3, 0
  {
    match slot
    case FieldSlot(spec) => ReadField(reg, spec, st)
    case ElemSlot(t) => ReadElem(reg, t, st)
  }

  /** One completed container element. */
  function Made(slot: Slot, st: RState): RState {
    if slot.ElemSlot? then st.(made := st.made + 1) else st
  }

  ghost function ReadRow(reg: Registry, row: Row, n: nat, st: RState): (r: Got<seq<Val>>)
    requires PrimitivesCompiled(reg) && st.led.bytes <= MAX_BYTES
    requires RowFits(row, n)
    ensures Keeps(st, r.st)
    ensures r.Got? ==> |r.value| == n
    decreases Room(st.led), if row.FieldRow? then 7 else 3, n
  {
    if n == 0 then Got([], st)
    else
      match ReadSlot(reg, HeadSlot(row), st)
      case Lost(e, s) => Lost(e, s)
      case Got(v, s) =>
        match ReadRow(reg, TailRow(row), n - 1, Made(HeadSlot(row), s))
        case Lost(e, s') => Lost(e, s')
        case Got(vs, s') => Got([v] + vs, s')
  }

  /** Setting a key that is present replaces its value in place. */
  function Put(es: seq<Entry>, k: Key, v: Val): seq<Entry> {
    if es == [] then [Entry(k, v)]
    else if es[0].key == k then [Entry(k, v)] + es[1..]
    else [es[0]] + Put(es[1..], k, v)
  }

  /** The map after the entries have been set in order. */
  function PutAll(acc: seq<Entry>, es: seq<Entry>): seq<Entry>
    decreases |es|
  {
    if es == [] then acc else PutAll(Put(acc, es[0].key, es[0].val), es[1..])
  }

  ghost function ReadEntry(reg: Registry, width: nat, t: string, st: RState): (r: Got<Entry>)
    requires PrimitivesCompiled(reg) && st.led.bytes <= MAX_BYTES
    ensures Keeps(st, r.st)
    decreases Room(st.led), 3, 0
  {
    match ReadKey(width, st)
    case Lost(e, s) => Lost(e, s)
    case Got(k, s) =>
      match ReadElem(reg, t, s)
      case Lost(e, s') => Lost(e, s')
      case Got(v, s') => Got(Entry(k, v), s'.(made := s'.made + 1))
  }

  ghost function ReadEntries(reg: Registry, width: nat, t: string, n: nat, st: RState): (r: Got<seq<Entry>>)
    requires PrimitivesCompiled(reg) && st.led.bytes <= MAX_BYTES
    ensures Keeps(st, r.st)
    decreases Room(st.led), 3, n + 1
  {
    if n == 0 then Got([], st)
    else
      match ReadEntry(reg, width, t, st)
      case Lost(e, s) => Lost(e, s)
      case Got(e, s) =>
        match ReadEntries(reg, width, t, n - 1, s)
        case Lost(x, s') => Lost(x, s')
        case Got(es, s') => Got([e] + es, s')
  }

  /**
   * `Decode`: the type tag is read before the ledger is attached, so it is charged to
   * nothing when the reader is a plain one; the object is read on a fresh ledger.
   */
  ghost function Decode(reg: Registry, inp: seq<byte>): (r: Got<Val>)
    requires PrimitivesCompiled(reg)
  {
    var n := if |inp| == 0 then 0 else inp[0] as int;
    if |inp| < 1 + n then Lost(ShortRead, RState([], FRESH, 0))
    else ReadObj(reg, NameOf(inp[1..1 + n]), RState(inp[1 + n..], FRESH, 0))
  }
}
