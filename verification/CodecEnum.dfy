/**
 * Values up to enumeration. Go enumerates a map afresh each time it is written, and so every
 * map inside it; two values are alike when they differ in nothing else. Alike values have the
 * same plan, hence the same verdict, bytes, ledger and Object ID.
 */
module CodecEnum {
  import opened Wrappers
  import opened Schema
  import opened Ledger
  import opened Codec
  import opened CodecPlan
  import opened CodecRoundTrip
  import opened CodecTheorems
  import opened CodecCanon

  /** Equal, but for the order of the entries of the maps at any depth. */
  ghost predicate Alike(u: Val, v: Val)
    decreases u, 1
  {
    match u
    case Struct(bp, fields) => v.Struct? && v.bp == bp && AlikeAll(fields, v.fields)
    case SliceV(t, items) => v.SliceV? && v.elem == t && AlikeAll(items, v.items)
    case ArrayV(t, items) => v.ArrayV? && v.elem == t && AlikeAll(items, v.items)
    case MapV(w, t, entries) =>
      && v.MapV? && v.keyWidth == w && v.elem == t && |v.entries| == |entries|
      && GoodKeys(w, entries) && DistinctKeys(v.entries) && AlikeEntries(entries, v.entries)
    case _ => u == v
  }

  ghost predicate AlikeAll(us: seq<Val>, vs: seq<Val>)
    decreases us, 0
  {
    |us| == |vs| && (us == [] || (Alike(us[0], vs[0]) && AlikeAll(us[1..], vs[1..])))
  }

  /** Every entry has its like among `fs`. */
  ghost predicate AlikeEntries(es: seq<Entry>, fs: seq<Entry>)
    decreases es, 0
  {
    es == [] || (AlikeOne(es[0], fs) && AlikeEntries(es[1..], fs))
  }

  ghost predicate AlikeOne(e: Entry, fs: seq<Entry>)
    decreases e, 0
  {
    exists j :: 0 <= j < |fs| && fs[j].key == e.key && Alike(e.val, fs[j].val)
  }

  ghost predicate GoodKeys(w: nat, es: seq<Entry>) {
    DistinctKeys(es) && forall e :: e in es ==> ValidKey(w, e.key)
  }

  // ---------------------------------------------------------------- a map and its re-enumeration

  /** The entries of `fs` in the order of their likes. */
  ghost function Partners(es: seq<Entry>, fs: seq<Entry>): (r: seq<Entry>)
    requires AlikeEntries(es, fs)
    ensures |r| == |es|
    ensures forall i :: 0 <= i < |es| ==> r[i] in fs && r[i].key == es[i].key && Alike(es[i].val, r[i].val)
    decreases es, 0
  {
    if es == [] then []
    else
      [Partner(es[0], fs)] + Partners(es[1..], fs)
  }

  ghost function Partner(e: Entry, fs: seq<Entry>): (r: Entry)
    requires AlikeOne(e, fs)
    ensures r in fs && r.key == e.key && Alike(e.val, r.val)
  {
    var j :| 0 <= j < |fs| && fs[j].key == e.key && Alike(e.val, fs[j].val);
    fs[j]
  }

  lemma {:induction false} SamePeople(a: seq<Entry>, b: seq<Entry>)
    requires DistinctKeys(a) && |a| == |b| && forall e :: e in a ==> e in b
    ensures multiset(a) == multiset(b)
    decreases |a|
  {
    if a != [] {
      assert a[0] in a;
      var i :| 0 <= i < |b| && b[i] == a[0];
      var c := b[..i] + b[i + 1..];
      assert b == b[..i] + [b[i]] + b[i + 1..];
      forall e | e in a[1..]
        ensures e in c
      {
        var k :| 0 <= k < |a[1..]| && a[1..][k] == e;
        assert a[k + 1] == e && e.key != a[0].key && e in a;
      }
      SamePeople(a[1..], c);
      assert a == [a[0]] + a[1..];
    }
  }

  lemma {:induction false} StageAlike(w: nat, t: string, es: seq<Entry>, fs: seq<Entry>)
    requires |es| == |fs| && forall i :: 0 <= i < |es| ==> PlanPair(w, t, es[i]) == PlanPair(w, t, fs[i])
    ensures PlanStage(w, t, es) == PlanStage(w, t, fs)
    decreases |es|
  {
    if es != [] {
      forall i | 0 <= i < |es| - 1
        ensures PlanPair(w, t, es[1..][i]) == PlanPair(w, t, fs[1..][i])
      {
        assert es[1..][i] == es[i + 1] && fs[1..][i] == fs[i + 1];
      }
      StageAlike(w, t, es[1..], fs[1..]);
    }
  }

  // ---------------------------------------------------------------- alike values have one plan

  /** What a slot looks at besides the plan. */
  predicate SameFace(u: Val, v: Val) {
    ObjectType(u) == ObjectType(v) && IsAbsent(u) == IsAbsent(v) && u.NilIface? == v.NilIface? && u.NilPtr? == v.NilPtr?
  }

  lemma FaceAlike(u: Val, v: Val)
    requires Alike(u, v)
    ensures SameFace(u, v)
  {
  }

  lemma SlotFollows(slot: Slot, u: Val, v: Val)
    requires SameFace(u, v) && PlanObj(u) == PlanObj(v)
    ensures PlanSlot(slot, u) == PlanSlot(slot, v)
  {
  }

  lemma {:induction false} AlikePlan(u: Val, v: Val)
    requires Alike(u, v)
    ensures PlanObj(u) == PlanObj(v)
    decreases u, 1
  {
    match u
    case Struct(bp, fields) => if |fields| == |bp.fields| { AlikeRow(FieldRow(bp.fields), fields, v.fields); }
    case SliceV(t, items) => AlikeRow(ElemRow(t), items, v.items);
    case ArrayV(t, items) => AlikeRow(ElemRow(t), items, v.items);
    case MapV(w, t, entries) =>
      var ps := Partners(entries, v.entries);
      forall i | 0 <= i < |entries|
        ensures PlanPair(w, t, entries[i]) == PlanPair(w, t, ps[i])
      {
        AlikePlan(entries[i].val, ps[i].val);
        FaceAlike(entries[i].val, ps[i].val);
        SlotFollows(ElemSlot(t), entries[i].val, ps[i].val);
      }
      StageAlike(w, t, entries, ps);
      MapAlike(w, t, entries, ps, v.entries);
    case _ =>
  }

  lemma MapAlike(w: nat, t: string, es: seq<Entry>, ps: seq<Entry>, fs: seq<Entry>)
    requires GoodKeys(w, es) && DistinctKeys(fs) && |ps| == |es| == |fs|
    requires forall i :: 0 <= i < |es| ==> ps[i] in fs && ps[i].key == es[i].key
    requires PlanStage(w, t, es) == PlanStage(w, t, ps)
    ensures PlanObj(MapV(w, t, es)) == PlanObj(MapV(w, t, fs))
  {
    PartnersGood(w, es, ps, fs);
    SamePeople(ps, fs);
    EnumerationIrrelevant(w, t, ps, fs);
    SameStage(w, t, es, ps);
  }

  lemma PartnersGood(w: nat, es: seq<Entry>, ps: seq<Entry>, fs: seq<Entry>)
    requires GoodKeys(w, es) && |ps| == |es| && forall i :: 0 <= i < |es| ==> ps[i] in fs && ps[i].key == es[i].key
    ensures GoodKeys(w, ps) && forall e :: e in ps ==> e in fs
  {
    forall e | e in ps
      ensures e in fs && ValidKey(w, e.key)
    {
      var i :| 0 <= i < |ps| && ps[i] == e;
      assert es[i] in es;
    }
  }

  lemma SameStage(w: nat, t: string, es: seq<Entry>, ps: seq<Entry>)
    requires |es| == |ps| && PlanStage(w, t, es) == PlanStage(w, t, ps)
    ensures PlanObj(MapV(w, t, es)) == PlanObj(MapV(w, t, ps))
  {
  }

  lemma {:induction false} AlikeRow(row: Row, us: seq<Val>, vs: seq<Val>)
    requires AlikeAll(us, vs) && RowFits(row, |us|)
    ensures PlanRow(row, us) == PlanRow(row, vs)
    decreases us, 0
  {
    if us != [] {
      AlikePlan(us[0], vs[0]);
      FaceAlike(us[0], vs[0]);
      SlotFollows(HeadSlot(row), us[0], vs[0]);
      AlikeRow(TailRow(row), us[1..], vs[1..]);
    }
  }

  // ---------------------------------------------------------------- the main results

  /** Two runs with one outcome: both fail, or both succeed with the same bytes and ledger. */
  predicate SameRun(x: WRes, y: WRes) { (x.err.None? <==> y.err.None?) && (x.err.None? ==> x == y) }

  /** However every map at every depth is enumerated, writing an object has one outcome. */
  lemma AlikeWrites(u: Val, v: Val, st: WState)
    requires Alike(u, v) && Within(st.led)
    ensures SameRun(WriteObj(u, st), WriteObj(v, st))
  {
    AlikePlan(u, v);
    WriteObjExact(u, st);
    WriteObjExact(v, st);
  }

  /** The same in any slot of any schema. */
  lemma AlikeSlots(slot: Slot, u: Val, v: Val, st: WState)
    requires Alike(u, v) && Within(st.led)
    ensures SameRun(WriteSlot(slot, u, st), WriteSlot(slot, v, st))
  {
    AlikePlan(u, v);
    FaceAlike(u, v);
    SlotFollows(slot, u, v);
    WriteExact(slot, u, st);
    WriteExact(slot, v, st);
  }

  /** And for Encode. */
  lemma AlikeEncodes(u: Val, v: Val, st: WState)
    requires Alike(u, v) && Within(st.led)
    ensures SameRun(Encode(u, st), Encode(v, st))
  {
    FaceAlike(u, v);
    if ObjectType(u) != "" {
      AlikePlan(u, v);
      EncodeExact(u, st);
      EncodeExact(v, st);
    }
  }

  // ---------------------------------------------------------------- what is alike

  /** Every map at every depth has distinct keys of its width, as a Go map does. */
  ghost predicate Keyed(v: Val)
    decreases v, 1
  {
    match v
    case Struct(_, fields) => AllKeyed(fields)
    case SliceV(_, items) => AllKeyed(items)
    case ArrayV(_, items) => AllKeyed(items)
    case MapV(w, _, entries) => GoodKeys(w, entries) && EntriesKeyed(entries)
    case _ => true
  }

  ghost predicate AllKeyed(vs: seq<Val>)
    decreases vs, 0
  {
    vs == [] || (Keyed(vs[0]) && AllKeyed(vs[1..]))
  }

  ghost predicate EntriesKeyed(es: seq<Entry>)
    decreases es, 0
  {
    es == [] || (KeyedOne(es[0]) && EntriesKeyed(es[1..]))
  }

  ghost predicate KeyedOne(e: Entry)
    decreases e, 0
  {
    Keyed(e.val)
  }

  /** Every value whose maps are maps is like itself. */
  lemma {:induction false} KeyedAlike(v: Val)
    requires Keyed(v)
    ensures Alike(v, v)
    decreases v, 1
  {
    match v
    case Struct(_, fields) => AllKeyedAlike(fields);
    case SliceV(_, items) => AllKeyedAlike(items);
    case ArrayV(_, items) => AllKeyedAlike(items);
    case MapV(w, t, entries) => EntriesAlike(entries, entries);
    case _ =>
  }

  lemma {:induction false} AllKeyedAlike(vs: seq<Val>)
    requires AllKeyed(vs)
    ensures AlikeAll(vs, vs)
    decreases vs, 0
  {
    if vs != [] {
      KeyedAlike(vs[0]);
      AllKeyedAlike(vs[1..]);
    }
  }

  lemma {:induction false} EntriesAlike(es: seq<Entry>, fs: seq<Entry>)
    requires EntriesKeyed(es) && forall e :: e in es ==> e in fs
    ensures AlikeEntries(es, fs)
    decreases es, 0
  {
    if es != [] {
      OneAlike(es[0], fs);
      EntriesAlike(es[1..], fs);
    }
  }

  lemma {:induction false} OneAlike(e: Entry, fs: seq<Entry>)
    requires KeyedOne(e) && e in fs
    ensures AlikeOne(e, fs)
    decreases e, 0
  {
    KeyedAlike(e.val);
    var j :| 0 <= j < |fs| && fs[j] == e;
  }

  lemma PermutedAlike(w: nat, t: string, a: seq<Entry>, b: seq<Entry>)
    requires Keyed(MapV(w, t, a)) && multiset(a) == multiset(b) && DistinctKeys(b)
    ensures Alike(MapV(w, t, a), MapV(w, t, b))
  {
    assert |a| == |multiset(a)| == |multiset(b)| == |b|;
    forall e | e in a
      ensures e in b
    {
      assert e in multiset(a);
    }
    EntriesAlike(a, b);
  }

  // ---------------------------------------------------------------- conforming values are keyed

  /** Every value that conforms to a schema is keyed, so it is like all its re-enumerations. */
  lemma {:induction false} ConformingKeyed(reg: Registry, slot: Slot, v: Val)
    requires Ready(reg) && Conforms(reg, slot, v)
    ensures Keyed(v)
    decreases v, 3
  {
    match slot
    case FieldSlot(Slice(t)) => RowKeyed(reg, ElemRow(t), v.items);
    case FieldSlot(Array(t, _)) => RowKeyed(reg, ElemRow(t), v.items);
    case FieldSlot(Map(_, t)) => EntriesKeep(reg, v.keyWidth, t, v.entries);
    case FieldSlot(Primitive(t)) => ObjKeyed(reg, t, v);
    case FieldSlot(Ref(t)) => ObjKeyed(reg, t, v);
    case FieldSlot(Ptr(t)) => if !IsAbsent(v) { ObjKeyed(reg, t, v); }
    case FieldSlot(AnyObject) => if !IsAbsent(v) { ObjKeyed(reg, ObjectType(v), v); }
    case ElemSlot(t) => if !IsAbsent(v) { ObjKeyed(reg, if t == "" then ObjectType(v) else t, v); }
  }

  lemma {:induction false} ObjKeyed(reg: Registry, name: string, v: Val)
    requires Ready(reg) && ConformsObj(reg, name, v)
    ensures Keyed(v)
    decreases v, 1
  {
    if v.Struct? {
      RowKeyed(reg, FieldRow(v.bp.fields), v.fields);
    }
  }

  lemma {:induction false} RowKeyed(reg: Registry, row: Row, vals: seq<Val>)
    requires Ready(reg) && RowFits(row, |vals|) && ConformsRow(reg, row, vals)
    ensures AllKeyed(vals)
    decreases vals, 0
  {
    if vals != [] {
      ConformingKeyed(reg, HeadSlot(row), vals[0]);
      RowKeyed(reg, TailRow(row), vals[1..]);
    }
  }

  lemma {:induction false} EntriesKeep(reg: Registry, w: nat, t: string, es: seq<Entry>)
    requires Ready(reg) && ConformsEntries(reg, w, t, es)
    ensures EntriesKeyed(es) && forall e :: e in es ==> ValidKey(w, e.key)
    decreases es, 0
  {
    if es != [] {
      EntryKeeps(reg, w, t, es[0]);
      EntriesKeep(reg, w, t, es[1..]);
    }
  }

  lemma {:induction false} EntryKeeps(reg: Registry, w: nat, t: string, e: Entry)
    requires Ready(reg) && ConformsEntry(reg, w, t, e)
    ensures KeyedOne(e)
    decreases e, 0
  {
    ConformingKeyed(reg, ElemSlot(t), e.val);
  }
}
