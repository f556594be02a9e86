/**
 * Bundles: an ordered list of objects, unique by Object ID, with an index from ID to
 * position. Members travel as length-prefixed blocks that share the caller's ledger.
 */
module Bundles {
  import opened Wrappers
  import opened Bytes
  import opened Schema
  import opened Ledger
  import opened Codec
  import opened CodecPlan
  import opened CodecRoundTrip
  import opened CodecTheorems
  import opened CodecCanon
  import opened CodecEnum

  const STAMP := 0x41444330

  // ---------------------------------------------------------------- Object IDs

  /** A primitive is written to a plain writer, so nothing limits it; a struct brings a ledger. */
  function LeafPayload(k: Kind, p: Payload): Option<seq<byte>> {
    if LeafErr(k, p).Some? || (k.Opaque? && WriteLeaf(k, p, WState([], FRESH)).err.Some?) then None
    else Some(LeafPrefix(k, p) + LeafBody(k, p))
  }

  /** The bytes an Object ID covers: stamp, type and payload, or the payload alone when untyped. */
  function Canonical(v: Val): Option<seq<byte>> {
    var payload := match v
      case Leaf(_, k, p) => LeafPayload(k, p)
      case Alias(_, k, p) => LeafPayload(k, p)
      case _ =>
        var r := WriteObj(v, WState([], FRESH));
        if r.err.Some? then None else Some(r.st.out);
    var name := ObjectType(v);
    if payload.None? || |name| > 255 then None
    else if name == "" then payload
    else Some(BE(4, STAMP) + BE(1, |name|) + NameBytes(name) + payload.value)
  }

  /** The digest that names objects, any function of their canonical bytes. */
  datatype Hasher = Hasher(sum: seq<byte> -> string)

  function IdOf(hash: Hasher, v: Val): Option<string> {
    match Canonical(v)
    case None => None
    case Some(s) => Some(hash.sum(s))
  }

  /** Reading an object back does not change its ID. */
  lemma CanonId(hash: Hasher, v: Val)
    requires PlanObj(v).Some?
    ensures IdOf(hash, CanonObj(v)) == IdOf(hash, v)
  {
    CanonObjSame(v);
    WriteObjExact(v, WState([], FRESH));
    WriteObjExact(CanonObj(v), WState([], FRESH));
  }

  /** However the maps inside an object are enumerated, it has one ID. */
  lemma AlikeId(hash: Hasher, u: Val, v: Val)
    requires Alike(u, v)
    ensures IdOf(hash, u) == IdOf(hash, v)
  {
    FaceAlike(u, v);
    AlikeWrites(u, v, WState([], FRESH));
  }

  // ---------------------------------------------------------------- the list and its index

  /** The index maps each member's ID to its position and nothing else, so no ID repeats. */
  ghost predicate Indexed(hash: Hasher, objects: seq<Val>, index: map<string, nat>) {
    && (forall i :: 0 <= i < |objects| ==>
          IdOf(hash, objects[i]).Some? && IdOf(hash, objects[i]).value in index && index[IdOf(hash, objects[i]).value] == i)
    && (forall id :: id in index ==> index[id] < |objects| && IdOf(hash, objects[index[id]]) == Some(id))
  }

  lemma IdsDistinct(hash: Hasher, objects: seq<Val>, index: map<string, nat>, i: nat, j: nat)
    requires Indexed(hash, objects, index) && i < j < |objects|
    ensures IdOf(hash, objects[i]) != IdOf(hash, objects[j])
  {
    assert index[IdOf(hash, objects[i]).value] == i;
  }

  lemma IndexedSnoc(hash: Hasher, objects: seq<Val>, index: map<string, nat>, v: Val)
    requires Indexed(hash, objects, index) && IdOf(hash, v).Some? && IdOf(hash, v).value !in index
    ensures Indexed(hash, objects + [v], index[IdOf(hash, v).value := |objects|])
  {
    var id := IdOf(hash, v).value;
    var all := objects + [v];
    forall i | 0 <= i < |objects|
      ensures IdOf(hash, all[i]).Some? && IdOf(hash, all[i]).value in index && IdOf(hash, all[i]).value != id
    {
      assert all[i] == objects[i];
    }
  }

  ghost predicate HasId(hash: Hasher, objects: seq<Val>, id: Option<string>) {
    exists i :: 0 <= i < |objects| && IdOf(hash, objects[i]) == id
  }

  ghost predicate IsNew(hash: Hasher, done: seq<Val>, v: Val) {
    IdOf(hash, v).Some? && !HasId(hash, done, IdOf(hash, v))
  }

  // ---------------------------------------------------------------- the wire

  /** A member block: type and payload in a staging buffer on the same ledger, then its length and bytes. */
  function WriteMember(v: Val, st: WState): (r: WRes)
    ensures r.st.led.depth == st.led.depth
  {
    var tag := WriteTag(ObjectType(v), WState([], st.led));
    var raw := if tag.err.Some? then tag else WriteObj(v, tag.st);
    if raw.err.Some? then WRes(WState(st.out, raw.st.led), raw.err)
    else WriteLeaf(Blob(4), Data(raw.st.out), WState(st.out, raw.st.led))
  }

  function WriteMembers(vs: seq<Val>, st: WState): (r: WRes)
    ensures r.st.led.depth == st.led.depth
    decreases |vs|
  {
    if vs == [] then WRes(st, None)
    else
      var r := WriteMember(vs[0], st);
      if r.err.Some? then r else WriteMembers(vs[1..], r.st)
  }

  function WriteBundle(vs: seq<Val>, st: WState): WRes {
    if !Entered(st.led) then RefusedW(st) else ExitW(WriteBody(vs, EnterW(st)))
  }

  function WriteBody(vs: seq<Val>, st: WState): (r: WRes)
    ensures r.st.led.depth == st.led.depth
  {
    var r := Emit(BE(4, |vs|), st);
    if r.err.Some? then r else WriteMembers(vs, r.st)
  }

  /** A block, and `Decode` of its bytes on the same ledger; bytes left in the block are ignored. */
  ghost function ReadMember(reg: Registry, st: RState): (r: Got<Val>)
    requires PrimitivesCompiled(reg) && st.led.bytes <= MAX_BYTES
    ensures Keeps(st, r.st)
  {
    match ReadLeaf(Blob(4), st)
    case Lost(e, s) => Lost(e, s)
    case Got(p, s) =>
      match ReadNamed(reg, s.(inp := p.s))
      case Lost(e, x) => Lost(e, x.(inp := s.inp))
      case Got(v, x) => Got(v, x.(inp := s.inp))
  }

  ghost function ReadNamed(reg: Registry, st: RState): (r: Got<Val>)
    requires PrimitivesCompiled(reg) && st.led.bytes <= MAX_BYTES
    ensures Keeps(st, r.st)
  {
    match ReadTag(st)
    case Lost(e, s) => Lost(e, s)
    case Got(name, s) => ReadObj(reg, name, s)
  }

  /** The next member after `done`; one without an ID, or with the ID of an earlier one, ends the read. */
  ghost function ReadNext(reg: Registry, hash: Hasher, done: seq<Val>, st: RState): (r: Got<seq<Val>>)
    requires PrimitivesCompiled(reg) && st.led.bytes <= MAX_BYTES
    ensures Keeps(st, r.st)
  {
    match ReadMember(reg, st)
    case Lost(e, s) => Lost(e, s)
    case Got(v, s) =>
      if IsNew(hash, done, v) then Got(done + [v], s)
      else Lost(if IdOf(hash, v).None? then Unaddressable else Duplicate, s)
  }

  ghost function ReadMembers(reg: Registry, hash: Hasher, n: nat, done: seq<Val>, st: RState): (r: Got<seq<Val>>)
    requires PrimitivesCompiled(reg) && st.led.bytes <= MAX_BYTES
    ensures Keeps(st, r.st)
    decreases n
  {
    if n == 0 then Got(done, st)
    else
      match ReadNext(reg, hash, done, st)
      case Lost(e, s) => Lost(e, s)
      case Got(all, s) => ReadMembers(reg, hash, n - 1, all, s)
  }

  ghost function ReadBundle(reg: Registry, hash: Hasher, st: RState): (r: Got<seq<Val>>)
    requires PrimitivesCompiled(reg) && st.led.bytes <= MAX_BYTES
    ensures Keeps(st, r.st)
  {
    if !Entered(st.led) then RefusedR(st)
    else ExitR(ReadBody(reg, hash, EnterR(st)))
  }

  ghost function ReadBody(reg: Registry, hash: Hasher, st: RState): (r: Got<seq<Val>>)
    requires PrimitivesCompiled(reg) && st.led.bytes <= MAX_BYTES
    ensures Keeps(st, r.st)
  {
    match ReadCount(st)
    case Lost(e, s) => Lost(e, s)
    case Got(n, s) => ReadMembers(reg, hash, n, [], s)
  }

  // ---------------------------------------------------------------- the encoder in closed form

  /** The bytes of a member, before its length prefix. */
  function Raw(v: Val): Option<Plan> { Then(PlanTag(ObjectType(v)), PlanObj(v)) }

  function Block(v: Val): seq<byte> {
    if Raw(v).None? then [] else BE(4, |Raw(v).value.bytes|) + Raw(v).value.bytes
  }

  function Blocks(vs: seq<Val>): seq<byte> {
    if vs == [] then [] else Block(vs[0]) + Blocks(vs[1..])
  }

  predicate AllPlanned(vs: seq<Val>) { vs == [] || (Raw(vs[0]).Some? && AllPlanned(vs[1..])) }

  lemma {:induction false} PlannedAt(vs: seq<Val>, i: nat)
    requires AllPlanned(vs) && i < |vs|
    ensures Raw(vs[i]).Some? && PlanObj(vs[i]).Some?
    decreases |vs|
  {
    if i > 0 {
      PlannedAt(vs[1..], i - 1);
    }
  }

  function FramesOf(v: Val): Need { if Raw(v).None? then FREE else Need(Raw(v).value.peak, Raw(v).value.frames) }

  /** A block's bytes are charged twice: in the staging buffer and on the stream. */
  function ChargeOf(v: Val): nat { 4 + if Raw(v).None? then 0 else 2 * |Raw(v).value.bytes| }

  function WriteNeed(vs: seq<Val>): Need {
    if vs == [] then FREE else Both(FramesOf(vs[0]), WriteNeed(vs[1..]))
  }

  function ReadNeed(reg: Registry, vs: seq<Val>): Need {
    if vs == [] then FREE else Both(NeedObj(reg, vs[0]), ReadNeed(reg, vs[1..]))
  }

  function Charge(vs: seq<Val>): nat {
    if vs == [] then 0 else ChargeOf(vs[0]) + Charge(vs[1..])
  }

  ghost predicate WritesB(r: WRes, st: WState, ok: bool, bytes: seq<byte>, need: Need, n: nat) {
    && (r.err.None? <==> ok && FitsR(st.led, need, n))
    && (r.err.None? ==> r.st == WState(st.out + bytes, AfterR(st.led, need, n)))
  }

  lemma MemberWrites(v: Val, st: WState)
    requires Within(st.led)
    ensures WritesB(WriteMember(v, st), st, Raw(v).Some?, Block(v), FramesOf(v), ChargeOf(v))
  {
    var start := WState([], st.led);
    TaggedExact(v, start);
    if Raw(v).Some? && Fits(st.led, Raw(v).value) {
      assert [] + Raw(v).value.bytes == Raw(v).value.bytes;
      BlockWrites(v, st);
    }
  }

  /** A staged member goes out behind its length, and its bytes are charged again. */
  lemma BlockWrites(v: Val, st: WState)
    requires Within(st.led) && Raw(v).Some? && Fits(st.led, Raw(v).value)
    ensures WritesB(WriteLeaf(Blob(4), Data(Raw(v).value.bytes), WState(st.out, After(st.led, Raw(v).value))), st, true,
                    Block(v), FramesOf(v), ChargeOf(v))
  {
    Pow256Values();
    LeafWrites(Blob(4), Data(Raw(v).value.bytes), WState(st.out, After(st.led, Raw(v).value)));
  }

  lemma ThenWritesB(st: WState, r: WRes, ok1: bool, bytes1: seq<byte>, need1: Need, n1: nat,
                    s: WRes, ok2: bool, bytes2: seq<byte>, need2: Need, n2: nat)
    requires Within(st.led) && WritesB(r, st, ok1, bytes1, need1, n1)
    requires r.err.None? ==> WritesB(s, r.st, ok2, bytes2, need2, n2)
    ensures WritesB(if r.err.Some? then r else s, st, ok1 && ok2, bytes1 + bytes2, Both(need1, need2), n1 + n2)
  {
    assert st.out + bytes1 + bytes2 == st.out + (bytes1 + bytes2);
  }

  lemma {:induction false} MembersWrite(vs: seq<Val>, st: WState)
    requires Within(st.led)
    ensures WritesB(WriteMembers(vs, st), st, AllPlanned(vs), Blocks(vs), WriteNeed(vs), Charge(vs))
    decreases |vs|
  {
    if vs == [] {
      assert st.out + [] == st.out;
    } else {
      MemberWrites(vs[0], st);
      var r := WriteMember(vs[0], st);
      if r.err.None? { MembersWrite(vs[1..], r.st); }
      ThenWritesB(st, r, Raw(vs[0]).Some?, Block(vs[0]), FramesOf(vs[0]), ChargeOf(vs[0]),
                  WriteMembers(vs[1..], r.st), AllPlanned(vs[1..]), Blocks(vs[1..]), WriteNeed(vs[1..]), Charge(vs[1..]));
    }
  }

  lemma FrameWritesB(st: WState, r: WRes, ok: bool, bytes: seq<byte>, need: Need, n: nat)
    requires Within(st.led) && r.st.led.depth == st.led.depth + 1
    requires Entered(st.led) ==> WritesB(r, EnterW(st), ok, bytes, need, n)
    ensures WritesB(if !Entered(st.led) then RefusedW(st) else ExitW(r), st, ok, bytes, Deeper(need), n)
  {
  }

  lemma BodyWrites(vs: seq<Val>, st: WState)
    requires Within(st.led)
    ensures WritesB(WriteBody(vs, st), st, AllPlanned(vs), BE(4, |vs|) + Blocks(vs), WriteNeed(vs), 4 + Charge(vs))
  {
    var count := BE(4, |vs|);
    var r := Emit(count, st);
    if r.err.None? {
      MembersWrite(vs, r.st);
    }
    AfterEmit(st, count, WriteMembers(vs, r.st), AllPlanned(vs), Blocks(vs), WriteNeed(vs), Charge(vs), 4 + Charge(vs));
  }

  /** The same when the first write is a plain one. */
  lemma AfterEmit(st: WState, bs: seq<byte>, s: WRes, ok: bool, bytes: seq<byte>, need: Need, n: nat, total: nat)
    requires Within(st.led) && total == |bs| + n
    requires var r := Emit(bs, st); r.err.None? ==> WritesB(s, r.st, ok, bytes, need, n)
    ensures WritesB(if Emit(bs, st).err.Some? then Emit(bs, st) else s, st, ok, bs + bytes, need, total)
  {
    assert st.out + bs + bytes == st.out + (bs + bytes);
  }

  /** A bundle is written exactly when every member has a plan and everything fits. */
  lemma BundleWrites(vs: seq<Val>, st: WState)
    requires Within(st.led)
    ensures WritesB(WriteBundle(vs, st), st, AllPlanned(vs), BE(4, |vs|) + Blocks(vs), Deeper(WriteNeed(vs)), 4 + Charge(vs))
  {
    if Entered(st.led) {
      BodyWrites(vs, EnterW(st));
    }
    FrameWritesB(st, WriteBody(vs, EnterW(st)), AllPlanned(vs), BE(4, |vs|) + Blocks(vs), WriteNeed(vs), 4 + Charge(vs));
  }

  /** However the maps inside its members are enumerated, a bundle is written in one way and indexed by one index. */
  lemma AlikeBundle(hash: Hasher, us: seq<Val>, vs: seq<Val>, index: map<string, nat>, st: WState)
    requires AlikeAll(us, vs) && Within(st.led)
    ensures SameRun(WriteBundle(us, st), WriteBundle(vs, st))
    ensures Indexed(hash, us, index) ==> Indexed(hash, vs, index)
  {
    BlocksAlike(us, vs);
    BundleWrites(us, st);
    BundleWrites(vs, st);
    AlikeIndexed(hash, us, vs, index);
  }

  lemma AlikeIndexed(hash: Hasher, us: seq<Val>, vs: seq<Val>, index: map<string, nat>)
    requires AlikeAll(us, vs)
    ensures Indexed(hash, us, index) ==> Indexed(hash, vs, index)
  {
    forall i | 0 <= i < |us|
      ensures IdOf(hash, us[i]) == IdOf(hash, vs[i])
    {
      AlikeAt(us, vs, i);
      AlikeId(hash, us[i], vs[i]);
    }
  }

  lemma {:induction false} AlikeAt(us: seq<Val>, vs: seq<Val>, i: nat)
    requires AlikeAll(us, vs) && i < |us|
    ensures |us| == |vs| && Alike(us[i], vs[i])
    decreases |us|
  {
    if i > 0 {
      AlikeAt(us[1..], vs[1..], i - 1);
    }
  }

  lemma {:induction false} BlocksAlike(us: seq<Val>, vs: seq<Val>)
    requires AlikeAll(us, vs)
    ensures |us| == |vs| && AllPlanned(us) == AllPlanned(vs) && Blocks(us) == Blocks(vs)
    ensures WriteNeed(us) == WriteNeed(vs) && Charge(us) == Charge(vs)
    decreases |us|
  {
    if us != [] {
      FaceAlike(us[0], vs[0]);
      AlikePlan(us[0], vs[0]);
      BlocksAlike(us[1..], vs[1..]);
    }
  }

  // ---------------------------------------------------------------- reading it back

  ghost predicate MemberOk(reg: Registry, v: Val)
    requires Ready(reg)
  {
    ObjectType(v) != "" && ByteName(ObjectType(v)) && ConformsObj(reg, ObjectType(v), v)
  }

  lemma MemberReads(reg: Registry, v: Val, rest: seq<byte>, st: RState)
    requires Ready(reg) && Within(st.led) && MemberOk(reg, v)
    requires Raw(v).Some? && |Raw(v).value.bytes| <= MAX_BYTES && st.inp == Block(v) + rest
    ensures Reads(ReadMember(reg, st), CanonObj(v), rest, st, NeedObj(reg, v), ChargeOf(v))
  {
    var raw := Raw(v).value.bytes;
    var tag, body := PlanTag(ObjectType(v)).value.bytes, PlanObj(v).value.bytes;
    Pow256Values();
    BlobReads(4, raw, rest, st);
    var b := ReadLeaf(Blob(4), st);
    if b.Got? {
      var sub := b.st.(inp := raw);
      NamedReads(reg, v, sub);
    }
  }

  lemma NamedReads(reg: Registry, v: Val, st: RState)
    requires Ready(reg) && Within(st.led) && MemberOk(reg, v)
    requires Raw(v).Some? && |Raw(v).value.bytes| <= MAX_BYTES && st.inp == Raw(v).value.bytes
    ensures Reads(ReadNamed(reg, st), CanonObj(v), [], st, NeedObj(reg, v), |Raw(v).value.bytes|)
  {
    var name := ObjectType(v);
    var tag, body := PlanTag(name).value.bytes, PlanObj(v).value.bytes;
    assert st.inp == tag + body && body == body + [];
    TagReads(name, body, st);
    var r := ReadTag(st);
    if r.Got? {
      ObjReads(reg, name, v, [], r.st);
      AfterReads(st, r, name, body, |tag|, ReadObj(reg, name, r.st), CanonObj(v), [], NeedObj(reg, v), |body|,
                 ReadNamed(reg, st), |st.inp|);
    }
  }

  function CanonAll(vs: seq<Val>): (r: seq<Val>)
    ensures |r| == |vs| && forall i :: 0 <= i < |vs| ==> r[i] == CanonObj(vs[i])
  {
    if vs == [] then [] else [CanonObj(vs[0])] + CanonAll(vs[1..])
  }

  ghost predicate Unique(hash: Hasher, vs: seq<Val>) {
    && (forall i :: 0 <= i < |vs| ==> IdOf(hash, vs[i]).Some?)
    && (forall i, j :: 0 <= i < j < |vs| ==> IdOf(hash, vs[i]) != IdOf(hash, vs[j]))
  }

  /** Each of `vs` in turn conforms, has a plan and an ID, and the ID is new. */
  ghost predicate Loadable(reg: Registry, hash: Hasher, done: seq<Val>, vs: seq<Val>)
    requires Ready(reg)
    decreases |vs|
  {
    vs == [] ||
    (MemberOk(reg, vs[0]) && Raw(vs[0]).Some? && IsNew(hash, done, CanonObj(vs[0])) &&
     Loadable(reg, hash, done + [CanonObj(vs[0])], vs[1..]))
  }

  lemma {:induction false} UniqueLoads(reg: Registry, hash: Hasher, done: seq<Val>, vs: seq<Val>)
    requires Ready(reg) && AllPlanned(vs) && Unique(hash, done + CanonAll(vs))
    requires forall i :: 0 <= i < |vs| ==> MemberOk(reg, vs[i])
    ensures Loadable(reg, hash, done, vs)
    decreases |vs|
  {
    if vs != [] {
      var v := CanonObj(vs[0]);
      CanonHead(done, vs);
      FreshId(hash, done, v, CanonAll(vs[1..]));
      UniqueLoads(reg, hash, done + [v], vs[1..]);
    }
  }

  lemma FreshId(hash: Hasher, done: seq<Val>, v: Val, more: seq<Val>)
    requires Unique(hash, done + [v] + more)
    ensures IsNew(hash, done, v)
  {
    var all := done + [v] + more;
    assert all[|done|] == v;
    forall i | 0 <= i < |done|
      ensures IdOf(hash, done[i]) != IdOf(hash, v)
    {
      assert all[i] == done[i];
    }
  }

  lemma NextReads(reg: Registry, hash: Hasher, done: seq<Val>, v: Val, mid: seq<byte>, st: RState, need: Need, n: nat)
    requires Ready(reg) && st.led.bytes <= MAX_BYTES && IsNew(hash, done, v) && Reads(ReadMember(reg, st), v, mid, st, need, n)
    ensures Reads(ReadNext(reg, hash, done, st), done + [v], mid, st, need, n)
  {
  }

  /** One member and then the others, on results already known to read as they should. */
  lemma MembersStep(reg: Registry, hash: Hasher, n: nat, done: seq<Val>, next: seq<Val>, st: RState, mid: seq<byte>,
                    need1: Need, n1: nat, all: seq<Val>, rest: seq<byte>, need2: Need, n2: nat, need: Need, charge: nat)
    requires Ready(reg) && Within(st.led) && n > 0
    requires Reads(ReadNext(reg, hash, done, st), next, mid, st, need1, n1)
    requires var r := ReadNext(reg, hash, done, st); r.Got? ==> Reads(ReadMembers(reg, hash, n - 1, next, r.st), all, rest, r.st, need2, n2)
    requires need == Both(need1, need2) && charge == n1 + n2
    ensures Reads(ReadMembers(reg, hash, n, done, st), all, rest, st, need, charge)
  {
    var r := ReadNext(reg, hash, done, st);
    ThenReads(st, r, next, mid, need1, n1, ReadMembers(reg, hash, n - 1, next, r.st), all, rest, need2, n2,
              ReadMembers(reg, hash, n, done, st));
  }

  lemma LoadableHead(reg: Registry, hash: Hasher, done: seq<Val>, vs: seq<Val>, rest: seq<byte>)
    requires Ready(reg) && vs != [] && Loadable(reg, hash, done, vs) && |Blocks(vs)| <= MAX_BYTES
    ensures Raw(vs[0]).Some? && |Raw(vs[0]).value.bytes| <= MAX_BYTES && |Blocks(vs[1..])| <= MAX_BYTES
    ensures Blocks(vs) + rest == Block(vs[0]) + (Blocks(vs[1..]) + rest)
  {
    ConcatAssoc(Block(vs[0]), Blocks(vs[1..]), rest);
  }

  lemma CanonHead(done: seq<Val>, vs: seq<Val>)
    requires vs != []
    ensures done + CanonAll(vs) == done + [CanonObj(vs[0])] + CanonAll(vs[1..])
  {
    ConcatAssoc(done, [CanonObj(vs[0])], CanonAll(vs[1..]));
  }

  lemma HeadReads(reg: Registry, hash: Hasher, done: seq<Val>, vs: seq<Val>, rest: seq<byte>, st: RState)
    requires Ready(reg) && Within(st.led) && vs != [] && Loadable(reg, hash, done, vs)
    requires |Blocks(vs)| <= MAX_BYTES && st.inp == Blocks(vs) + rest
    ensures Reads(ReadNext(reg, hash, done, st), done + [CanonObj(vs[0])], Blocks(vs[1..]) + rest, st, NeedObj(reg, vs[0]), ChargeOf(vs[0]))
  {
    LoadableHead(reg, hash, done, vs, rest);
    MemberReads(reg, vs[0], Blocks(vs[1..]) + rest, st);
    NextReads(reg, hash, done, CanonObj(vs[0]), Blocks(vs[1..]) + rest, st, NeedObj(reg, vs[0]), ChargeOf(vs[0]));
  }

  /** Members read back one by one; an ID survives the trip, so none turns into a duplicate. */
  lemma {:induction false} MembersRead(reg: Registry, hash: Hasher, n: nat, done: seq<Val>, vs: seq<Val>, all: seq<Val>,
                                       rest: seq<byte>, st: RState)
    requires Ready(reg) && Within(st.led) && Loadable(reg, hash, done, vs) && n == |vs| && all == done + CanonAll(vs)
    requires |Blocks(vs)| <= MAX_BYTES && st.inp == Blocks(vs) + rest
    ensures Reads(ReadMembers(reg, hash, n, done, st), all, rest, st, ReadNeed(reg, vs), Charge(vs))
    decreases n
  {
    if n == 0 {
      assert st.inp == rest && all == done;
    } else {
      var next, tail := done + [CanonObj(vs[0])], Blocks(vs[1..]) + rest;
      LoadableHead(reg, hash, done, vs, rest);
      HeadReads(reg, hash, done, vs, rest, st);
      CanonHead(done, vs);
      var r := ReadNext(reg, hash, done, st);
      if r.Got? {
        MembersRead(reg, hash, n - 1, next, vs[1..], all, rest, r.st);
      }
      MembersStep(reg, hash, n, done, next, st, tail, NeedObj(reg, vs[0]), ChargeOf(vs[0]),
                  all, rest, ReadNeed(reg, vs[1..]), Charge(vs[1..]), ReadNeed(reg, vs), Charge(vs));
    }
  }

  lemma {:induction false} BlocksCount(vs: seq<Val>)
    requires AllPlanned(vs)
    ensures |vs| <= |Blocks(vs)| <= Charge(vs)
    decreases |vs|
  {
    if vs != [] {
      BlocksCount(vs[1..]);
    }
  }

  lemma CanonUnique(hash: Hasher, vs: seq<Val>)
    requires Unique(hash, vs) && AllPlanned(vs)
    ensures Unique(hash, CanonAll(vs))
  {
    forall i | 0 <= i < |vs|
      ensures IdOf(hash, CanonAll(vs)[i]) == IdOf(hash, vs[i])
    {
      PlannedAt(vs, i);
      CanonId(hash, vs[i]);
    }
  }

  lemma SentIs(vs: seq<Val>, sent: seq<byte>, rest: seq<byte>, w: WState)
    requires Within(w.led) && var r := WriteBundle(vs, w); r.err == None && r.st.out == w.out + sent
    ensures AllPlanned(vs) && |vs| <= |Blocks(vs)| <= MAX_BYTES && sent + rest == BE(4, |vs|) + (Blocks(vs) + rest)
  {
    BundleWrites(vs, w);
    BlocksCount(vs);
    ConcatAssoc(BE(4, |vs|), Blocks(vs), rest);
    SameSuffix(w.out, sent, BE(4, |vs|) + Blocks(vs));
  }

  /**
   * What a bundle wrote, a bundle reads: the members in order, canonical, with their types and
   * IDs, and nothing more, exactly when the decoder's own frames fit. A member without a type
   * is written too, and makes the bundle unreadable.
   */
  lemma BundleRoundTrip(reg: Registry, hash: Hasher, vs: seq<Val>, sent: seq<byte>, rest: seq<byte>, w: WState, st: RState)
    requires Ready(reg) && Within(w.led) && Within(st.led) && Unique(hash, vs)
    requires forall i :: 0 <= i < |vs| ==> MemberOk(reg, vs[i]) || Untyped(vs[i])
    requires var r := WriteBundle(vs, w); r.err == None && r.st.out == w.out + sent && st.inp == sent + rest
    ensures AllTyped(vs) ==>
              Reads(ReadBundle(reg, hash, st), CanonAll(vs), rest, st, Deeper(ReadNeed(reg, vs)), 4 + Charge(vs))
    ensures !AllTyped(vs) ==> ReadBundle(reg, hash, st).Lost?
  {
    SentIs(vs, sent, rest, w);
    if AllTyped(vs) {
      forall i | 0 <= i < |vs|
        ensures MemberOk(reg, vs[i])
      {
        TypedAt(vs, i);
      }
      CanonUnique(hash, vs);
      assert [] + CanonAll(vs) == CanonAll(vs);
      UniqueLoads(reg, hash, [], vs);
      BundleReads(reg, hash, vs, rest, st);
    } else {
      UntypedBundle(reg, hash, vs, rest, st);
    }
  }

  predicate Untyped(v: Val) { ObjectType(v) == "" }

  predicate AllTyped(vs: seq<Val>) { vs == [] || (!Untyped(vs[0]) && AllTyped(vs[1..])) }

  lemma {:induction false} TypedAt(vs: seq<Val>, i: nat)
    requires AllTyped(vs) && i < |vs|
    ensures !Untyped(vs[i])
    decreases |vs|
  {
    if i > 0 {
      TypedAt(vs[1..], i - 1);
    }
  }

  lemma {:induction false} EmptyUnknown(reg: Registry)
    requires ValidEntries(reg)
    ensures Lookup(reg, "").None?
    decreases reg
  {
    if "" !in reg.entries && reg.parent.Some? {
      EmptyUnknown(reg.parent.value);
    }
  }

  lemma UntypedMember(reg: Registry, v: Val, rest: seq<byte>, st: RState)
    requires Ready(reg) && Within(st.led) && Untyped(v)
    requires Raw(v).Some? && |Raw(v).value.bytes| <= MAX_BYTES && st.inp == Block(v) + rest
    ensures ReadMember(reg, st).Lost?
  {
    var raw := Raw(v).value.bytes;
    Pow256Values();
    BlobReads(4, raw, rest, st);
    var b := ReadLeaf(Blob(4), st);
    if b.Got? {
      UntypedNamed(reg, v, b.st.(inp := raw));
    }
  }

  lemma UntypedNamed(reg: Registry, v: Val, st: RState)
    requires Ready(reg) && Within(st.led) && Untyped(v) && Raw(v).Some? && st.inp == Raw(v).value.bytes
    ensures ReadNamed(reg, st).Lost?
  {
    TagReads("", PlanObj(v).value.bytes, st);
    EmptyUnknown(reg);
  }

  ghost predicate Mixed(reg: Registry, vs: seq<Val>)
    requires Ready(reg)
  {
    vs == [] || ((MemberOk(reg, vs[0]) || Untyped(vs[0])) && Mixed(reg, vs[1..]))
  }

  lemma {:induction false} AllMixed(reg: Registry, vs: seq<Val>)
    requires Ready(reg) && forall i :: 0 <= i < |vs| ==> MemberOk(reg, vs[i]) || Untyped(vs[i])
    ensures Mixed(reg, vs)
    decreases |vs|
  {
    if vs != [] {
      AllMixed(reg, vs[1..]);
    }
  }

  /** A member with a type, if it is read at all, leaves the blocks after it. */
  lemma NextLeaves(reg: Registry, hash: Hasher, done: seq<Val>, v: Val, tail: seq<byte>, st: RState)
    requires Ready(reg) && Within(st.led) && MemberOk(reg, v)
    requires Raw(v).Some? && |Raw(v).value.bytes| <= MAX_BYTES && st.inp == Block(v) + tail
    ensures var r := ReadNext(reg, hash, done, st); r.Got? ==> r.st.inp == tail && Within(r.st.led)
  {
    MemberReads(reg, v, tail, st);
  }

  lemma MembersLost(reg: Registry, hash: Hasher, n: nat, m: nat, done: seq<Val>, st: RState)
    requires PrimitivesCompiled(reg) && st.led.bytes <= MAX_BYTES && n == m + 1
    requires var r := ReadNext(reg, hash, done, st); r.Got? ==> ReadMembers(reg, hash, m, r.value, r.st).Lost?
    ensures ReadMembers(reg, hash, n, done, st).Lost?
  {
  }

  /** Reading stops at the first member without a type, if not before. */
  lemma {:induction false} UntypedMembers(reg: Registry, hash: Hasher, n: nat, done: seq<Val>, vs: seq<Val>, rest: seq<byte>, st: RState)
    requires Ready(reg) && Within(st.led) && n == |vs| && AllPlanned(vs) && !AllTyped(vs) && Mixed(reg, vs)
    requires |Blocks(vs)| <= MAX_BYTES && st.inp == Blocks(vs) + rest
    ensures ReadMembers(reg, hash, n, done, st).Lost?
    decreases n
  {
    var tail, m := Blocks(vs[1..]) + rest, n - 1;
    BlocksHead(vs, rest);
    if Untyped(vs[0]) {
      UntypedMember(reg, vs[0], tail, st);
    } else {
      NextLeaves(reg, hash, done, vs[0], tail, st);
      var r := ReadNext(reg, hash, done, st);
      if r.Got? {
        UntypedMembers(reg, hash, m, r.value, vs[1..], rest, r.st);
      }
    }
    MembersLost(reg, hash, n, m, done, st);
  }

  lemma BlocksHead(vs: seq<Val>, rest: seq<byte>)
    requires vs != [] && AllPlanned(vs) && |Blocks(vs)| <= MAX_BYTES
    ensures Raw(vs[0]).Some? && |Raw(vs[0]).value.bytes| <= MAX_BYTES && |Blocks(vs[1..])| <= MAX_BYTES
    ensures Blocks(vs) + rest == Block(vs[0]) + (Blocks(vs[1..]) + rest)
  {
    ConcatAssoc(Block(vs[0]), Blocks(vs[1..]), rest);
  }

  lemma UntypedBundle(reg: Registry, hash: Hasher, vs: seq<Val>, rest: seq<byte>, st: RState)
    requires Ready(reg) && Within(st.led) && AllPlanned(vs) && !AllTyped(vs)
    requires forall i :: 0 <= i < |vs| ==> MemberOk(reg, vs[i]) || Untyped(vs[i])
    requires |vs| <= |Blocks(vs)| <= MAX_BYTES && st.inp == BE(4, |vs|) + (Blocks(vs) + rest)
    ensures ReadBundle(reg, hash, st).Lost?
  {
    if Entered(st.led) {
      CountReads(|vs|, Blocks(vs) + rest, EnterR(st));
      var c := ReadCount(EnterR(st));
      AllMixed(reg, vs);
      if c.Got? {
        UntypedMembers(reg, hash, |vs|, [], vs, rest, c.st);
      }
    }
  }

  lemma SameSuffix(a: seq<byte>, b: seq<byte>, c: seq<byte>)
    requires a + b == a + c
    ensures b == c
  {
    assert (a + b)[|a|..] == b && (a + c)[|a|..] == c;
  }

  lemma CountedReads(reg: Registry, hash: Hasher, n: nat, st: RState, mid: seq<byte>,
                     all: seq<Val>, rest: seq<byte>, need: Need, charge: nat, total: nat)
    requires Ready(reg) && Within(st.led)
    requires Reads(ReadCount(st), n, mid, st, FREE, 4) && total == 4 + charge
    requires var c := ReadCount(st); c.Got? ==> Reads(ReadMembers(reg, hash, n, [], c.st), all, rest, c.st, need, charge)
    ensures Reads(ReadBody(reg, hash, st), all, rest, st, need, total)
  {
  }

  lemma BodyReads(reg: Registry, hash: Hasher, vs: seq<Val>, rest: seq<byte>, st: RState)
    requires Ready(reg) && Within(st.led) && Loadable(reg, hash, [], vs)
    requires |vs| <= |Blocks(vs)| <= MAX_BYTES && st.inp == BE(4, |vs|) + (Blocks(vs) + rest)
    ensures Reads(ReadBody(reg, hash, st), CanonAll(vs), rest, st, ReadNeed(reg, vs), 4 + Charge(vs))
  {
    CountReads(|vs|, Blocks(vs) + rest, st);
    var c := ReadCount(st);
    if c.Got? {
      MembersRead(reg, hash, |vs|, [], vs, CanonAll(vs), rest, c.st);
    }
    CountedReads(reg, hash, |vs|, st, Blocks(vs) + rest, CanonAll(vs), rest, ReadNeed(reg, vs), Charge(vs), 4 + Charge(vs));
  }

  lemma BundleReads(reg: Registry, hash: Hasher, vs: seq<Val>, rest: seq<byte>, st: RState)
    requires Ready(reg) && Within(st.led) && Loadable(reg, hash, [], vs)
    requires |vs| <= |Blocks(vs)| <= MAX_BYTES && st.inp == BE(4, |vs|) + (Blocks(vs) + rest)
    ensures Reads(ReadBundle(reg, hash, st), CanonAll(vs), rest, st, Deeper(ReadNeed(reg, vs)), 4 + Charge(vs))
  {
    if Entered(st.led) {
      BodyReads(reg, hash, vs, rest, EnterR(st));
      FrameReads(st, ReadBody(reg, hash, EnterR(st)), CanonAll(vs), rest, ReadNeed(reg, vs), 4 + Charge(vs));
    }
  }

  /** Without maps the decoder's frames always fit where the encoder's did. */
  lemma {:induction false} BundleNeedsNoMore(reg: Registry, vs: seq<Val>)
    requires AllPlanned(vs) && forall i :: 0 <= i < |vs| ==> MapFree(vs[i])
    ensures ReadNeed(reg, vs).peak <= WriteNeed(vs).peak && ReadNeed(reg, vs).frames <= WriteNeed(vs).frames
    decreases |vs|
  {
    if vs != [] {
      ObjNeedsNoMore(reg, vs[0]);
      BundleNeedsNoMore(reg, vs[1..]);
    }
  }

  lemma {:induction false} OkTyped(reg: Registry, vs: seq<Val>)
    requires Ready(reg) && forall i :: 0 <= i < |vs| ==> MemberOk(reg, vs[i])
    ensures AllTyped(vs)
    decreases |vs|
  {
    if vs != [] {
      OkTyped(reg, vs[1..]);
    }
  }

  /** A map-free bundle that was written can be read back from the ledger it was written on. */
  lemma BundleAgreement(reg: Registry, hash: Hasher, vs: seq<Val>, sent: seq<byte>, rest: seq<byte>, w: WState)
    requires Ready(reg) && Within(w.led) && Unique(hash, vs)
    requires forall i :: 0 <= i < |vs| ==> MemberOk(reg, vs[i]) && MapFree(vs[i])
    requires var r := WriteBundle(vs, w); r.err == None && r.st.out == w.out + sent
    ensures var r := ReadBundle(reg, hash, RState(sent + rest, w.led, 0));
            r.Got? && r.value == CanonAll(vs) && r.st.inp == rest
  {
    BundleWrites(vs, w);
    BundleNeedsNoMore(reg, vs);
    OkTyped(reg, vs);
    BundleRoundTrip(reg, hash, vs, sent, rest, w, RState(sent + rest, w.led, 0));
  }
}
