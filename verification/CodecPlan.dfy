/**
 * The encoder in closed form. `PlanObj` gives, without a ledger, the bytes of an object, the
 * greatest depth its frames reach and their number; `WriteExact` says that a run of the
 * encoder succeeds exactly when there is a plan and it fits the ledger.
 */
module CodecPlan {
  import opened Wrappers
  import opened Bytes
  import opened Schema
  import opened Ledger
  import opened Codec

  datatype Plan = Plan(bytes: seq<byte>, peak: nat, frames: nat)

  function Lit(bs: seq<byte>): Option<Plan> { Some(Plan(bs, 0, 0)) }

  function Max(a: nat, b: nat): nat { if a >= b then a else b }

  function Then(p: Option<Plan>, q: Option<Plan>): Option<Plan> {
    if p.None? || q.None? then None
    else Some(Plan(p.value.bytes + q.value.bytes, Max(p.value.peak, q.value.peak), p.value.frames + q.value.frames))
  }

  function Framed(p: Option<Plan>): Option<Plan> {
    if p.None? then None else Some(Plan(p.value.bytes, p.value.peak + 1, p.value.frames + 1))
  }

  predicate Fits(led: Counters, p: Plan) {
    && led.depth + p.peak <= MAX_DEPTH
    && led.frames + p.frames <= MAX_FRAMES
    && led.bytes + |p.bytes| <= MAX_BYTES
  }

  function After(led: Counters, p: Plan): Counters {
    Counters(led.depth, led.frames + p.frames, led.bytes + |p.bytes|)
  }

  function PlanLeaf(k: Kind, p: Payload): Option<Plan> {
    if LeafErr(k, p).Some? then None
    else Some(Plan(LeafPrefix(k, p) + LeafBody(k, p), LeafOpens(k, p).peak, LeafOpens(k, p).frames))
  }

  function PlanTag(name: string): (p: Option<Plan>)
    ensures p.Some? ==> p == Lit(BE(1, |name|) + NameBytes(name))
  {
    PlanLeaf(Blob(1), Data(NameBytes(name)))
  }

  function PlanSlot(slot: Slot, v: Val): Option<Plan>
    decreases v, 3
  {
    match slot
    case FieldSlot(Ptr(_)) => if IsAbsent(v) then Lit([0]) else Then(Lit([1]), PlanObj(v))
    case FieldSlot(AnyObject) =>
      if v.NilIface? then None
      else if IsAbsent(v) then PlanTag("")
      else if ObjectType(v) == "" then None
      else Then(PlanTag(ObjectType(v)), PlanObj(v))
    case FieldSlot(_) => PlanObj(v)
    case ElemSlot(t) =>
      if t == "" then
        if IsAbsent(v) then Framed(Lit([0]))
        else if ObjectType(v) == "" then None
        else Framed(Then(PlanTag(ObjectType(v)), Framed(PlanObj(v))))
      else if v.NilIface? || v.NilPtr? then Framed(Lit([0]))
      else Framed(Then(Lit([1]), PlanObj(v)))
  }

  function PlanRow(row: Row, vals: seq<Val>): Option<Plan>
    requires RowFits(row, |vals|)
    decreases vals, 0
  {
    if vals == [] then Lit([]) else Then(PlanSlot(HeadSlot(row), vals[0]), PlanRow(TailRow(row), vals[1..]))
  }

  function PlanObj(v: Val): Option<Plan>
    decreases v, 1
  {
    match v
    case NilIface => None
    case NilPtr => None
    case Leaf(_, k, p) => PlanLeaf(k, p)
    case Alias(_, k, p) => PlanLeaf(k, p)
    case Struct(bp, fields) =>
      if |fields| != |bp.fields| then None else Framed(PlanRow(FieldRow(bp.fields), fields))
    case SliceV(t, items) => Framed(Then(Lit(BE(4, |items|)), PlanRow(ElemRow(t), items)))
    case ArrayV(t, items) => Framed(PlanRow(ElemRow(t), items))
    case MapV(width, t, entries) =>
      match PlanStage(width, t, entries)
      case None => None
      case Some(pairs) => Framed(Then(Lit(BE(4, |entries|)), Lit(PairsWire(Sort(pairs)))))
  }

  /** The staged pairs: each value must fit a ledger of its own. */
  function PlanStage(width: nat, t: string, entries: seq<Entry>): (r: Option<seq<Pair>>)
    ensures r.Some? ==> |r.value| == |entries|
    decreases entries, 0
  {
    if entries == [] then Some([])
    else
      match (PlanPair(width, t, entries[0]), PlanStage(width, t, entries[1..]))
      case (Some(p), Some(ps)) => Some([p] + ps)
      case _ => None
  }

  function PlanPair(width: nat, t: string, e: Entry): Option<Pair>
    decreases e, 0
  {
    match (KeyWire(width, e.key), PlanSlot(ElemSlot(t), e.val))
    case (Some(key), Some(p)) => if Fits(FRESH, p) then Some(Pair(key, p.bytes)) else None
    case _ => None
  }

  function PairsWire(pairs: seq<Pair>): seq<byte> {
    if pairs == [] then [] else pairs[0].key + pairs[0].val + PairsWire(pairs[1..])
  }

  // ---------------------------------------------------------------- runs of the encoder

  /** A run `r` from `st` succeeds exactly when `p` exists and fits, and then does what it says. */
  ghost predicate Writes(r: WRes, st: WState, p: Option<Plan>) {
    && (r.err.None? <==> p.Some? && Fits(st.led, p.value))
    && (r.err.None? ==> r.st == WState(st.out + p.value.bytes, After(st.led, p.value)))
  }

  lemma EmitWrites(bs: seq<byte>, st: WState)
    requires Within(st.led)
    ensures Writes(Emit(bs, st), st, Lit(bs))
  {
  }

  lemma ThenWrites(r: WRes, st: WState, p: Option<Plan>, s: WRes, q: Option<Plan>)
    requires Within(st.led) && Writes(r, st, p)
    requires r.err.None? ==> Writes(s, r.st, q)
    ensures Writes(if r.err.Some? then r else s, st, Then(p, q))
  {
    if r.err.None? && s.err.None? {
      assert st.out + p.value.bytes + q.value.bytes == st.out + (p.value.bytes + q.value.bytes);
    }
  }

  lemma FrameWrites(st: WState, r: WRes, p: Option<Plan>)
    requires Within(st.led) && r.st.led.depth == st.led.depth + 1
    requires Entered(st.led) ==> Writes(r, EnterW(st), p)
    ensures Writes(if !Entered(st.led) then RefusedW(st) else ExitW(r), st, Framed(p))
  {
  }

  lemma LeafWrites(k: Kind, p: Payload, st: WState)
    requires Within(st.led)
    ensures Writes(WriteLeaf(k, p, st), st, PlanLeaf(k, p))
  {
    if LeafErr(k, p).None? && Nests(st.led, LeafOpens(k, p)) {
      var s := st.(led := Nested(st.led, LeafOpens(k, p)));
      var r := Emit(LeafPrefix(k, p), s);
      ThenWrites(r, s, Lit(LeafPrefix(k, p)), Emit(LeafBody(k, p), r.st), Lit(LeafBody(k, p)));
    }
  }

  lemma {:induction false} PairsWrites(pairs: seq<Pair>, st: WState)
    requires Within(st.led)
    ensures Writes(EmitPairs(pairs, st), st, Lit(PairsWire(pairs)))
    decreases |pairs|
  {
    if pairs == [] {
      assert st.out + [] == st.out;
    } else {
      var k := Emit(pairs[0].key, st);
      if k.err.None? {
        var r := Emit(pairs[0].val, k.st);
        if r.err.None? {
          PairsWrites(pairs[1..], r.st);
          assert st.out + pairs[0].key + pairs[0].val + PairsWire(pairs[1..]) == st.out + PairsWire(pairs);
        }
      }
    }
  }

  /** The encoder of a slot does exactly what its plan says. */
  lemma {:induction false} WriteExact(slot: Slot, v: Val, st: WState)
    requires Within(st.led)
    ensures Writes(WriteSlot(slot, v, st), st, PlanSlot(slot, v))
    decreases v, 3
  {
    match slot
    case FieldSlot(Ptr(_)) =>
      var flag := [if IsAbsent(v) then 0 else 1];
      EmitWrites(flag, st);
      var r := Emit(flag, st);
      if !IsAbsent(v) {
        if r.err.None? { WriteObjExact(v, r.st); }
        ThenWrites(r, st, Lit(flag), WriteObj(v, r.st), PlanObj(v));
      }
    case FieldSlot(AnyObject) =>
      if IsAbsent(v) {
        LeafWrites(Blob(1), Data(NameBytes("")), st);
      } else if ObjectType(v) != "" {
        TaggedExact(v, st);
      }
    case FieldSlot(_) => WriteObjExact(v, st);
    case ElemSlot(t) =>
      if t == "" {
        IfaceExact(v, st);
      } else {
        PointerExact(v, st);
      }
  }

  /** A tag and the object behind it, as `Encode` writes them. */
  lemma {:induction false} TaggedExact(v: Val, st: WState)
    requires Within(st.led)
    ensures var r := WriteTag(ObjectType(v), st);
            Writes(if r.err.Some? then r else WriteObj(v, r.st), st, Then(PlanTag(ObjectType(v)), PlanObj(v)))
    decreases v, 2
  {
    LeafWrites(Blob(1), Data(NameBytes(ObjectType(v))), st);
    var r := WriteTag(ObjectType(v), st);
    if r.err.None? { WriteObjExact(v, r.st); }
    ThenWrites(r, st, PlanTag(ObjectType(v)), WriteObj(v, r.st), PlanObj(v));
  }

  lemma {:induction false} PointerExact(v: Val, st: WState)
    requires Within(st.led)
    ensures forall t :: t != "" ==> Writes(WriteSlot(ElemSlot(t), v, st), st, PlanSlot(ElemSlot(t), v))
    decreases v, 2
  {
    var absent := v.NilIface? || v.NilPtr?;
    var flag := [if absent then 0 else 1];
    var inner := EnterW(st);
    var r := Emit(flag, inner);
    var whole := if r.err.Some? || absent then r else WriteObj(v, r.st);
    if Entered(st.led) {
      EmitWrites(flag, inner);
      if !absent {
        if r.err.None? { WriteObjExact(v, r.st); }
        ThenWrites(r, inner, Lit(flag), WriteObj(v, r.st), PlanObj(v));
      }
    }
    FrameWrites(st, whole, if absent then Lit(flag) else Then(Lit(flag), PlanObj(v)));
  }

  lemma {:induction false} IfaceExact(v: Val, st: WState)
    requires Within(st.led)
    ensures Writes(WriteSlot(ElemSlot(""), v, st), st, PlanSlot(ElemSlot(""), v))
    decreases v, 2
  {
    var inner := EnterW(st);
    if IsAbsent(v) {
      if Entered(st.led) { EmitWrites([0], inner); }
      FrameWrites(st, WriteIface(v, inner), Lit([0]));
    } else if ObjectType(v) != "" {
      var name := ObjectType(v);
      var r := WriteTag(name, inner);
      if Entered(st.led) {
        LeafWrites(Blob(1), Data(NameBytes(name)), inner);
        var obj := WriteObj(v, EnterW(r.st));
        if r.err.None? {
          if Entered(r.st.led) { WriteObjExact(v, EnterW(r.st)); }
          FrameWrites(r.st, obj, PlanObj(v));
        }
        ThenWrites(r, inner, PlanTag(name), if !Entered(r.st.led) then RefusedW(r.st) else ExitW(obj), Framed(PlanObj(v)));
      }
      FrameWrites(st, WriteIface(v, inner), Then(PlanTag(name), Framed(PlanObj(v))));
    }
  }

  lemma {:induction false} WriteRowExact(row: Row, vals: seq<Val>, st: WState)
    requires Within(st.led) && RowFits(row, |vals|)
    ensures Writes(WriteRow(row, vals, st), st, PlanRow(row, vals))
    decreases vals, 0
  {
    if vals == [] {
      assert st.out + [] == st.out;
    } else {
      WriteExact(HeadSlot(row), vals[0], st);
      var r := WriteSlot(HeadSlot(row), vals[0], st);
      if r.err.None? { WriteRowExact(TailRow(row), vals[1..], r.st); }
      ThenWrites(r, st, PlanSlot(HeadSlot(row), vals[0]), WriteRow(TailRow(row), vals[1..], r.st), PlanRow(TailRow(row), vals[1..]));
    }
  }

  /** The encoder of an object does exactly what its plan says. */
  lemma {:induction false} WriteObjExact(v: Val, st: WState)
    requires Within(st.led)
    ensures Writes(WriteObj(v, st), st, PlanObj(v))
    decreases v, 1
  {
    match v
    case NilIface =>
    case NilPtr =>
    case Leaf(_, k, p) => LeafWrites(k, p, st);
    case Alias(_, k, p) => LeafWrites(k, p, st);
    case Struct(bp, fields) =>
      if |fields| == |bp.fields| {
        if Entered(st.led) { WriteRowExact(FieldRow(bp.fields), fields, EnterW(st)); }
        FrameWrites(st, WriteRow(FieldRow(bp.fields), fields, EnterW(st)), PlanRow(FieldRow(bp.fields), fields));
      }
    case SliceV(t, items) =>
      var count := BE(4, |items|);
      var r := Emit(count, EnterW(st));
      if Entered(st.led) {
        EmitWrites(count, EnterW(st));
        if r.err.None? { WriteRowExact(ElemRow(t), items, r.st); }
        ThenWrites(r, EnterW(st), Lit(count), WriteRow(ElemRow(t), items, r.st), PlanRow(ElemRow(t), items));
      }
      FrameWrites(st, if r.err.Some? then r else WriteRow(ElemRow(t), items, r.st),
                  Then(Lit(count), PlanRow(ElemRow(t), items)));
    case ArrayV(t, items) =>
      if Entered(st.led) { WriteRowExact(ElemRow(t), items, EnterW(st)); }
      FrameWrites(st, WriteRow(ElemRow(t), items, EnterW(st)), PlanRow(ElemRow(t), items));
    case MapV(width, t, entries) =>
      StageExact(width, t, entries);
      MapExact(v, st);
  }

  /** Staging succeeds exactly when every pair has a plan, and yields those pairs. */
  lemma {:induction false} StageExact(width: nat, t: string, entries: seq<Entry>)
    ensures match PlanStage(width, t, entries)
            case Some(pairs) => Stage(width, t, entries) == Staged(pairs)
            case None => Stage(width, t, entries).StageErr?
    decreases entries, 0
  {
    if entries != [] {
      PairExact(width, t, entries[0]);
      StageExact(width, t, entries[1..]);
      if PlanPair(width, t, entries[0]).None? {
        assert KeyWire(width, entries[0].key).None? || WriteStaged(t, entries[0]).err.Some?;
      } else if PlanStage(width, t, entries[1..]).None? {
        assert Stage(width, t, entries[1..]).StageErr?;
      }
    }
  }

  lemma {:induction false} PairExact(width: nat, t: string, e: Entry)
    ensures match PlanSlot(ElemSlot(t), e.val)
            case Some(p) =>
              && (WriteStaged(t, e).err.None? <==> Fits(FRESH, p))
              && (Fits(FRESH, p) ==> WriteStaged(t, e).st.out == p.bytes)
            case None => WriteStaged(t, e).err.Some?
    decreases e, 0
  {
    WriteExact(ElemSlot(t), e.val, WState([], FRESH));
    if PlanSlot(ElemSlot(t), e.val).Some? {
      assert [] + PlanSlot(ElemSlot(t), e.val).value.bytes == PlanSlot(ElemSlot(t), e.val).value.bytes;
    }
  }

  lemma MapExact(v: Val, st: WState)
    requires Within(st.led) && v.MapV?
    requires match PlanStage(v.keyWidth, v.elem, v.entries)
             case Some(pairs) => Stage(v.keyWidth, v.elem, v.entries) == Staged(pairs)
             case None => Stage(v.keyWidth, v.elem, v.entries).StageErr?
    ensures Writes(WriteObj(v, st), st, PlanObj(v))
  {
    var count := BE(4, |v.entries|);
    var r := Emit(count, EnterW(st));
    match PlanStage(v.keyWidth, v.elem, v.entries)
    case Some(pairs) =>
      if Entered(st.led) {
        EmitWrites(count, EnterW(st));
        if r.err.None? { PairsWrites(Sort(pairs), r.st); }
        ThenWrites(r, EnterW(st), Lit(count), EmitPairs(Sort(pairs), r.st), Lit(PairsWire(Sort(pairs))));
      }
      FrameWrites(st, if r.err.Some? then r else EmitPairs(Sort(pairs), r.st),
                  Then(Lit(count), Lit(PairsWire(Sort(pairs)))));
    case None =>
  }
}
