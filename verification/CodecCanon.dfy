/** One value, one encoding: maps in any enumeration order, and values read back and rewritten. */
module CodecCanon {
  import opened Wrappers
  import opened Bytes
  import opened Schema
  import opened Ledger
  import opened Codec
  import opened CodecPlan
  import opened CodecRoundTrip
  import opened CodecTheorems

  // ---------------------------------------------------------------- keys

  /** Two keys of one kind with one encoding are one key. */
  lemma KeyWireInjective(w: nat, a: Key, b: Key)
    requires ValidKey(w, a) && ValidKey(w, b) && KeyWire(w, a).Some? && KeyWire(w, a) == KeyWire(w, b)
    ensures a == b
  {
    var s := KeyWire(w, a).value;
    if w == 0 {
      assert s[2..] == a.s && s[2..] == b.s;
    } else {
      BEOrder(w, a.n, b.n);
    }
  }

  ghost predicate Ordered(w: nat, es: seq<Entry>) {
    forall i, j :: 0 <= i < j < |es| ==> Less(Wire(w, es[i].key), Wire(w, es[j].key))
  }

  ghost predicate Encodable(w: nat, es: seq<Entry>) {
    forall e :: e in es ==> ValidKey(w, e.key) && KeyWire(w, e.key).Some?
  }

  lemma {:induction false} InsertOrdered(w: nat, e: Entry, es: seq<Entry>)
    requires Ordered(w, es) && Encodable(w, es) && Encodable(w, [e])
    requires forall x :: x in es ==> x.key != e.key
    ensures Ordered(w, InsertEntry(w, e, es))
    decreases |es|
  {
    if es != [] {
      assert e in [e] && es[0] in es;
      if Less(Wire(w, es[0].key), Wire(w, e.key)) {
        InsertOrdered(w, e, es[1..]);
        InsertSame(w, e, es[1..]);
        var r := InsertEntry(w, e, es[1..]);
        forall j | 0 <= j < |r|
          ensures Less(Wire(w, es[0].key), Wire(w, r[j].key))
        {
          assert r[j] in multiset(r);
          if r[j] != e {
            assert r[j] in es[1..];
          }
        }
      } else {
        if Wire(w, es[0].key) == Wire(w, e.key) {
          KeyWireInjective(w, es[0].key, e.key);
        }
        LessTotal(Wire(w, es[0].key), Wire(w, e.key));
        forall j | 0 < j < |es|
          ensures Less(Wire(w, e.key), Wire(w, es[j].key))
        {
          LessTransitive(Wire(w, e.key), Wire(w, es[0].key), Wire(w, es[j].key));
        }
      }
    }
  }

  /** Distinct keys come out strictly increasing in the order of their encodings. */
  lemma {:induction false} SortOrders(w: nat, es: seq<Entry>)
    requires DistinctKeys(es) && Encodable(w, es)
    ensures Ordered(w, SortEntries(w, es))
    decreases |es|
  {
    if es != [] {
      SortOrders(w, es[1..]);
      SortedSame(w, es[1..]);
      InsertOrdered(w, es[0], SortEntries(w, es[1..]));
    }
  }

  /** For unsigned keys that is numeric order. */
  lemma SortNumeric(w: nat, es: seq<Entry>)
    requires w > 0 && DistinctKeys(es) && Encodable(w, es)
    ensures forall i, j :: 0 <= i < j < |es| ==>
              |SortEntries(w, es)| == |es| &&
              SortEntries(w, es)[i].key.UintKey? && SortEntries(w, es)[j].key.UintKey? &&
              SortEntries(w, es)[i].key.n < SortEntries(w, es)[j].key.n
  {
    var r := SortEntries(w, es);
    SortOrders(w, es);
    SortedSame(w, es);
    assert |r| == |multiset(r)| == |multiset(es)| == |es|;
    forall i, j | 0 <= i < j < |es|
      ensures r[i].key.UintKey? && r[j].key.UintKey? && r[i].key.n < r[j].key.n
    {
      assert r[i] in r && r[j] in r;
      BEOrder(w, r[i].key.n, r[j].key.n);
    }
  }

  lemma SameHead(w: nat, a: seq<Entry>, b: seq<Entry>)
    requires Ordered(w, a) && Ordered(w, b) && a != [] && b != []
    requires a[0] in b && b[0] in a
    ensures a[0] == b[0]
  {
    var i :| 0 <= i < |b| && b[i] == a[0];
    var j :| 0 <= j < |a| && a[j] == b[0];
    if i > 0 && j > 0 {
      LessTransitive(Wire(w, a[0].key), Wire(w, b[0].key), Wire(w, a[0].key));
      LessIrreflexive(Wire(w, a[0].key));
    }
  }

  lemma TailElements(a: seq<Entry>)
    requires a != []
    ensures multiset(a[1..]) == multiset(a) - multiset{a[0]} && a == [a[0]] + a[1..]
  {
    assert a == [a[0]] + a[1..];
  }

  /** An ordered list is determined by its elements. */
  lemma {:induction false} OrderedUnique(w: nat, a: seq<Entry>, b: seq<Entry>)
    requires Ordered(w, a) && Ordered(w, b) && multiset(a) == multiset(b)
    ensures a == b
    decreases |a|
  {
    assert |a| == |multiset(a)| == |multiset(b)| == |b|;
    if a != [] {
      assert a[0] in multiset(b) && b[0] in multiset(a);
      SameHead(w, a, b);
      TailElements(a);
      TailElements(b);
      OrderedUnique(w, a[1..], b[1..]);
    }
  }

  lemma SameSorted(w: nat, a: seq<Entry>, b: seq<Entry>)
    requires multiset(a) == multiset(b) && DistinctKeys(a) && DistinctKeys(b) && Encodable(w, a) && Encodable(w, b)
    ensures SortEntries(w, a) == SortEntries(w, b)
  {
    SortOrders(w, a);
    SortOrders(w, b);
    SortedSame(w, a);
    SortedSame(w, b);
    OrderedUnique(w, SortEntries(w, a), SortEntries(w, b));
  }

  lemma {:induction false} StagedAll(w: nat, t: string, es: seq<Entry>)
    ensures PlanStage(w, t, es).Some? <==> forall e :: e in es ==> PlanPair(w, t, e).Some?
    decreases |es|
  {
    if es != [] {
      StagedAll(w, t, es[1..]);
      assert es[0] in es;
      assert forall e :: e in es <==> e == es[0] || e in es[1..];
    }
  }

  /** The encoding of a map does not depend on the order in which it is enumerated. */
  lemma EnumerationIrrelevant(w: nat, t: string, a: seq<Entry>, b: seq<Entry>)
    requires multiset(a) == multiset(b) && DistinctKeys(a) && DistinctKeys(b)
    requires forall e :: e in a ==> ValidKey(w, e.key)
    ensures PlanObj(MapV(w, t, a)) == PlanObj(MapV(w, t, b))
  {
    assert |a| == |multiset(a)| == |multiset(b)| == |b|;
    forall e
      ensures e in a <==> e in b
    {
      assert e in a <==> e in multiset(a);
    }
    StagedAll(w, t, a);
    StagedAll(w, t, b);
    if PlanStage(w, t, a).Some? {
      assert Encodable(w, a) && Encodable(w, b);
      SameSorted(w, a, b);
      StageSorted(w, t, a);
      StageSorted(w, t, b);
    }
  }

  // ---------------------------------------------------------------- the map itself

  /** The finite map an entry list stands for. */
  ghost function AsMap(es: seq<Entry>): map<Key, Val> {
    if es == [] then map[] else AsMap(es[1..])[es[0].key := es[0].val]
  }

  lemma {:induction false} AsMapHas(es: seq<Entry>, k: Key)
    requires DistinctKeys(es)
    ensures k in AsMap(es) <==> exists i :: 0 <= i < |es| && es[i].key == k
    ensures forall i :: 0 <= i < |es| ==> es[i].key in AsMap(es) && AsMap(es)[es[i].key] == es[i].val
    decreases |es|
  {
    if es != [] {
      AsMapHas(es[1..], k);
      forall i | 0 < i < |es|
        ensures es[i].key in AsMap(es) && AsMap(es)[es[i].key] == es[i].val
      {
        assert es[i] == es[1..][i - 1];
      }
      if k in AsMap(es) && k != es[0].key {
        var i :| 0 <= i < |es[1..]| && es[1..][i].key == k;
        assert es[i + 1].key == k;
      }
    }
  }

  /** Sorting the entries leaves the map as it was. */
  lemma SortKeepsMap(w: nat, es: seq<Entry>)
    requires DistinctKeys(es)
    ensures AsMap(SortEntries(w, es)) == AsMap(es)
  {
    var r := SortEntries(w, es);
    SortedSame(w, es);
    SortedDistinct(w, es);
    forall k
      ensures k in AsMap(r) <==> k in AsMap(es)
      ensures k in AsMap(r) && k in AsMap(es) ==> AsMap(r)[k] == AsMap(es)[k]
    {
      AsMapHas(r, k);
      AsMapHas(es, k);
      if k in AsMap(r) {
        var i :| 0 <= i < |r| && r[i].key == k;
        assert r[i] in es;
        var j :| 0 <= j < |es| && es[j] == r[i];
      }
      if k in AsMap(es) {
        var j :| 0 <= j < |es| && es[j].key == k;
        assert es[j] in r;
        var i :| 0 <= i < |r| && r[i] == es[j];
      }
    }
  }

  // ---------------------------------------------------------------- reading back and rewriting

  ghost predicate Rising(ps: seq<Pair>) {
    forall i :: 0 <= i < |ps| - 1 ==> !Less(ps[i + 1].key, ps[i].key)
  }

  lemma {:induction false} InsertRises(p: Pair, ps: seq<Pair>)
    requires Rising(ps)
    ensures Rising(Insert(p, ps))
    ensures ps == [] || !Less(ps[0].key, p.key) ==> Insert(p, ps)[0] == p
    decreases |ps|
  {
    if ps != [] && Less(ps[0].key, p.key) {
      forall i | 0 <= i < |ps[1..]| - 1
        ensures !Less(ps[1..][i + 1].key, ps[1..][i].key)
      {
        assert !Less(ps[i + 2].key, ps[i + 1].key);
      }
      InsertRises(p, ps[1..]);
      var r := Insert(p, ps[1..]);
      assert r[0] == p || r[0] == ps[1];
      if Less(p.key, ps[0].key) {
        LessTransitive(p.key, ps[0].key, p.key);
        LessIrreflexive(p.key);
      }
    }
  }

  lemma {:induction false} SortRises(ps: seq<Pair>)
    ensures Rising(Sort(ps))
    decreases |ps|
  {
    if ps != [] {
      SortRises(ps[1..]);
      InsertRises(ps[0], Sort(ps[1..]));
    }
  }

  /** Sorting a sorted list changes nothing. */
  lemma {:induction false} SortIdle(ps: seq<Pair>)
    requires Rising(ps)
    ensures Sort(ps) == ps
    decreases |ps|
  {
    if ps != [] {
      forall i | 0 <= i < |ps[1..]| - 1
        ensures !Less(ps[1..][i + 1].key, ps[1..][i].key)
      {
        assert !Less(ps[i + 2].key, ps[i + 1].key);
      }
      SortIdle(ps[1..]);
      if |ps| > 1 {
        assert !Less(ps[0 + 1].key, ps[0].key);
      }
    }
  }

  /** The canonical form of a slot's value is written as the value itself is. */
  lemma {:induction false} CanonSlotSame(slot: Slot, v: Val)
    requires PlanSlot(slot, v).Some?
    ensures PlanSlot(slot, CanonSlot(slot, v)) == PlanSlot(slot, v)
    decreases v, 3
  {
    if PlanObj(v).Some? {
      CanonObjSame(v);
    }
    assert PlanTag("") == Lit(BE(1, 0) + []);
  }

  lemma {:induction false} CanonObjSame(v: Val)
    requires PlanObj(v).Some?
    ensures PlanObj(CanonObj(v)) == PlanObj(v)
    ensures ObjectType(CanonObj(v)) == ObjectType(v) && IsAbsent(CanonObj(v)) == IsAbsent(v)
    decreases v, 1
  {
    match v
    case Struct(bp, fields) => CanonRowSame(FieldRow(bp.fields), fields);
    case SliceV(t, items) => CanonRowSame(ElemRow(t), items);
    case ArrayV(t, items) => CanonRowSame(ElemRow(t), items);
    case MapV(w, t, es) =>
      CanonStageSame(w, t, es);
      CanonMapSame(w, t, es);
    case _ =>
  }

  lemma CanonMapSame(w: nat, t: string, es: seq<Entry>)
    requires PlanStage(w, t, es).Some? && PlanStage(w, t, CanonEntries(t, es)) == PlanStage(w, t, es)
    ensures PlanObj(MapV(w, t, SortEntries(w, CanonEntries(t, es)))) == PlanObj(MapV(w, t, es))
  {
    var c, ps := CanonEntries(t, es), PlanStage(w, t, es).value;
    StageSorted(w, t, c);
    SortRises(ps);
    SortIdle(Sort(ps));
    assert PlanStage(w, t, SortEntries(w, c)) == Some(Sort(ps));
    assert |SortEntries(w, c)| == |Sort(ps)| == |ps| == |es|;
  }

  lemma {:induction false} CanonRowSame(row: Row, vals: seq<Val>)
    requires RowFits(row, |vals|) && PlanRow(row, vals).Some?
    ensures |CanonRow(row, vals)| == |vals| && PlanRow(row, CanonRow(row, vals)) == PlanRow(row, vals)
    decreases vals, 0
  {
    if vals != [] {
      CanonSlotSame(HeadSlot(row), vals[0]);
      CanonRowSame(TailRow(row), vals[1..]);
      assert CanonRow(row, vals)[1..] == CanonRow(TailRow(row), vals[1..]);
    }
  }

  lemma {:induction false} CanonStageSame(w: nat, t: string, es: seq<Entry>)
    requires PlanStage(w, t, es).Some?
    ensures PlanStage(w, t, CanonEntries(t, es)) == PlanStage(w, t, es)
    decreases es, 0
  {
    if es != [] {
      CanonPairSame(w, t, es[0]);
      CanonStageSame(w, t, es[1..]);
      assert CanonEntries(t, es)[1..] == CanonEntries(t, es[1..]);
    }
  }

  lemma {:induction false} CanonPairSame(w: nat, t: string, e: Entry)
    requires PlanPair(w, t, e).Some?
    ensures PlanPair(w, t, CanonEntry(t, e)) == PlanPair(w, t, e)
    decreases e, 0
  {
    CanonSlotSame(ElemSlot(t), e.val);
  }

  /** Decode, then Encode, is the identity on what Encode wrote: one object, one content address. */
  lemma ReencodeSame(reg: Registry, v: Val, rest: seq<byte>)
    requires Ready(reg) && ConformsTop(reg, v)
    requires Encode(v, WState([], FRESH)).err == None
    ensures var r := Decode(reg, Encode(v, WState([], FRESH)).st.out + rest);
            r.Got? ==> Encode(r.value, WState([], FRESH)) == Encode(v, WState([], FRESH))
  {
    DecodeOfEncode(reg, v, rest);
    CanonObjSame(v);
    EncodeExact(v, WState([], FRESH));
    EncodeExact(CanonObj(v), WState([], FRESH));
  }
}
