/** What an Object ID stands for: the type and the payload bytes, and so the object itself. */
module ObjectIdentity {
  import opened Wrappers
  import opened Bytes
  import opened Schema
  import opened Ledger
  import opened Codec
  import opened CodecPlan
  import opened CodecRoundTrip
  import opened CodecCanon
  import opened CodecTells
  import opened Bundles

  /** Objects with a type name that a tag can carry. */
  ghost predicate Typed(v: Val) { ObjectType(v) != "" && ByteName(ObjectType(v)) }

  /**
   * What the ID of a typed object covers: the stamp, the length of the type name, the name, and
   * the bytes that writing the object gives.
   */
  lemma CanonicalLayout(v: Val)
    requires Canonical(v).Some? && ObjectType(v) != ""
    ensures PlanObj(v).Some? && 0 < |ObjectType(v)| < 0x100
    ensures var s, n := Canonical(v).value, |ObjectType(v)|;
            && |s| == 5 + n + |PlanObj(v).value.bytes| && s[..4] == [0x41, 0x44, 0x43, 0x30] && s[4] == n
            && s[5..5 + n] == NameBytes(ObjectType(v)) && s[5 + n..] == PlanObj(v).value.bytes
    ensures WriteObj(v, WState([], FRESH)).err == None ==> WriteObj(v, WState([], FRESH)).st.out == PlanObj(v).value.bytes
  {
    CanonicalForm(v);
    LayoutOf(|ObjectType(v)|, NameBytes(ObjectType(v)), PlanObj(v).value.bytes, Canonical(v).value);
  }

  lemma CanonicalForm(v: Val)
    requires Canonical(v).Some? && ObjectType(v) != ""
    ensures PlanObj(v).Some? && 0 < |ObjectType(v)| < 0x100
    ensures Canonical(v).value == BE(4, STAMP) + BE(1, |ObjectType(v)|) + NameBytes(ObjectType(v)) + PlanObj(v).value.bytes
    ensures v.Leaf? || v.Alias? || Small(PlanObj(v))
    ensures WriteObj(v, WState([], FRESH)).err == None ==> WriteObj(v, WState([], FRESH)).st.out == PlanObj(v).value.bytes
  {
    WriteObjExact(v, WState([], FRESH));
    var r := WriteObj(v, WState([], FRESH));
    assert PlanObj(v).Some? ==> [] + PlanObj(v).value.bytes == PlanObj(v).value.bytes;
  }

  lemma LayoutOf(n: nat, name: seq<byte>, body: seq<byte>, s: seq<byte>)
    requires n == |name| < 0x100 && s == BE(4, STAMP) + BE(1, n) + name + body
    ensures |s| == 5 + n + |body| && s[..4] == [0x41, 0x44, 0x43, 0x30] && s[4] == n
    ensures s[5..5 + n] == name && s[5 + n..] == body
  {
    StampBytes();
    assert BE(1, n) == [] + [n];
  }

  lemma StampBytes()
    ensures BE(4, STAMP) == [0x41, 0x44, 0x43, 0x30]
  {
    assert BE(1, 0x41) == [] + [0x41];
    assert BE(2, 0x4144) == [0x41] + [0x44];
    assert BE(3, 0x414443) == [0x41, 0x44] + [0x43];
  }

  /** Two typed objects have the same canonical bytes exactly when type and payload bytes are the same. */
  lemma CanonicalTells(u: Val, v: Val)
    requires Typed(u) && Typed(v) && Canonical(u).Some? && Canonical(v).Some?
    ensures PlanObj(u).Some? && PlanObj(v).Some?
    ensures Canonical(u) == Canonical(v) <==> SameWire(u, v)
  {
    CanonicalLayout(u);
    CanonicalLayout(v);
    var s, t := Canonical(u).value, Canonical(v).value;
    NameRoundTrip(ObjectType(u));
    NameRoundTrip(ObjectType(v));
    if SameWire(u, v) {
      Whole(s, |ObjectType(u)|);
      Whole(t, |ObjectType(v)|);
    }
  }

  predicate SameWire(u: Val, v: Val) {
    ObjectType(u) == ObjectType(v) && BytesOf(PlanObj(u)) == BytesOf(PlanObj(v))
  }

  lemma Whole(s: seq<byte>, n: nat)
    requires 5 + n <= |s|
    ensures s == s[..4] + [s[4]] + s[5..5 + n] + s[5 + n..]
  {
  }

  /** Only a leaf can have an ID and more bytes than the limit. */
  ghost predicate Told(v: Val) { PlanObj(v).Some? && (v.Leaf? || v.Alias? || Small(PlanObj(v))) }

  /** For two values of one schema that is: the same object, up to the forms that read back alike. */
  lemma SameObject(reg: Registry, u: Val, v: Val)
    requires Ready(reg) && ConformsTop(reg, u) && ConformsTop(reg, v) && Told(u) && Told(v)
    ensures SameWire(u, v) <==> CanonObj(u) == CanonObj(v)
  {
    if SameWire(u, v) {
      assert BytesOf(PlanObj(u)) + [] == BytesOf(PlanObj(u)) && BytesOf(PlanObj(v)) + [] == BytesOf(PlanObj(v));
      ResolveValid(reg, ObjectType(u));
      if u.Struct? {
        ObjTells(reg, ObjectType(u), u, v, [], []);
      } else {
        LeafTells(u.kind, u.payload, v.payload, [], []);
      }
    }
    if CanonObj(u) == CanonObj(v) {
      CanonObjSame(u);
      CanonObjSame(v);
    }
  }

  /** A digest without collisions. */
  ghost predicate Injective(hash: Hasher) { forall s, t :: hash.sum(s) == hash.sum(t) ==> s == t }

  /** IDs are equal exactly for one object. */
  lemma IdExact(hash: Hasher, reg: Registry, u: Val, v: Val)
    requires Injective(hash) && Ready(reg) && ConformsTop(reg, u) && ConformsTop(reg, v)
    requires ObjectType(u) != "" && ObjectType(v) != ""
    requires IdOf(hash, u).Some? && IdOf(hash, v).Some?
    ensures IdOf(hash, u) == IdOf(hash, v) <==> CanonObj(u) == CanonObj(v)
  {
    CanonicalForm(u);
    CanonicalForm(v);
    CanonicalTells(u, v);
    SameObject(reg, u, v);
  }

  /**
   * A bundle takes a typed object exactly when it has an ID and no member has its type and
   * its payload bytes.
   */
  lemma NewExactly(hash: Hasher, done: seq<Val>, v: Val)
    requires Injective(hash) && Typed(v)
    requires forall i :: 0 <= i < |done| ==> Typed(done[i]) && IdOf(hash, done[i]).Some?
    ensures IsNew(hash, done, v) <==> IdOf(hash, v).Some? && forall i :: 0 <= i < |done| ==> !SameWire(done[i], v)
  {
    if IdOf(hash, v).Some? {
      forall i | 0 <= i < |done|
        ensures IdOf(hash, done[i]) == IdOf(hash, v) <==> SameWire(done[i], v)
      {
        CanonicalTells(done[i], v);
      }
    }
  }
}
