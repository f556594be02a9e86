/**
 * What `New` puts into an object: the fields one by one, and that the object is one the codec
 * can write and reads back unchanged.
 */
module Fresh {
  import opened Wrappers
  import opened Bytes
  import opened Schema
  import opened Ledger
  import opened Codec
  import opened CodecPlan
  import opened CodecRoundTrip
  import opened CodecTheorems
  import opened CodecWire
  import opened Construct
  import opened Registries

  // ---------------------------------------------------------------- depth and budget do not show

  /** Two constructions of one name that both succeed give the same object. */
  lemma {:induction false} SameBuilt(reg: Registry, name: string, d: nat, l: nat, d': nat, l': nat)
    requires PrimitivesCompiled(reg) && !NewAt(reg, name, d, l).err && !NewAt(reg, name, d', l').err
    ensures NewAt(reg, name, d, l).val == NewAt(reg, name, d', l').val
    decreases Height(d), 1, 0
  {
    match Lookup(reg, name)
    case Some(Found(owner, Runtime(bp))) =>
      LookupPrimitive(reg, name);
      if ValidBlueprint(bp) && !bp.IsAlias() {
        SameFields(owner, bp.fields, d + 1, l - 1, d' + 1, l' - 1);
      }
    case _ =>
  }

  lemma {:induction false} SameFields(reg: Registry, fields: seq<Field>, d: nat, l: nat, d': nat, l': nat)
    requires PrimitivesCompiled(reg) && !ZeroFields(reg, fields, d, l).err && !ZeroFields(reg, fields, d', l').err
    ensures ZeroFields(reg, fields, d, l).vals == ZeroFields(reg, fields, d', l').vals
    decreases Height(d), 3, |fields|
  {
    if fields != [] {
      var spec := fields[0].spec;
      if spec.Ref? { SameBuilt(reg, spec.ref, d, l, d', l'); }
      SameFields(reg, fields[1..], d, SpecZero(reg, spec, d, l).left, d', SpecZero(reg, spec, d', l').left);
    }
  }

  /** What can be built inside another object can be built on its own. */
  lemma BuiltAlone(reg: Registry, name: string, depth: nat, left: nat)
    requires PrimitivesCompiled(reg) && ValidEntries(reg) && left <= MAX_NODES && !NewAt(reg, name, depth, left).err
    ensures !NewAt(reg, name, 0, MAX_NODES).err && NewAt(reg, name, depth, left).val == New(reg, name)
  {
    NewAtExact(reg, name, depth, left);
    NewAtExact(reg, name, 0, MAX_NODES);
    DeepIffTooDeep(reg, name, depth);
    DeepIffTooDeep(reg, name, 0);
    forall path
      ensures path in Nodes(reg, name, 0) <==> path in Nodes(reg, name, depth)
    {
      NodesExact(reg, name, 0, path);
      NodesExact(reg, name, depth, path);
      if Node(reg, name, path) { assert depth + |path| <= MAX_DEPTH; }
    }
    assert Nodes(reg, name, 0) == Nodes(reg, name, depth);
    SameBuilt(reg, name, depth, left, 0, MAX_NODES);
  }

  // ---------------------------------------------------------------- field by field

  predicate AllZero(s: seq<byte>) { forall i :: 0 <= i < |s| ==> s[i] == 0 }

  /** A leaf whose bytes are all zero: the number 0, false, the empty string. */
  ghost predicate ZeroLeaf(k: Kind, p: Payload) {
    if k.Opaque? then p == Num(0) else ValidPayload(k, p) && AllZero(LeafPrefix(k, p) + LeafBody(k, p))
  }

  /** A field as `owner` fills it. */
  ghost predicate FieldZero(owner: Registry, spec: Spec, v: Val)
    requires PrimitivesCompiled(owner)
  {
    match spec
    case Primitive(p) =>
      if Has(owner, p) then
        v.Leaf? && v.name == p && Lookup(owner, p).value.entry.Proto? &&
        v.kind == Lookup(owner, p).value.entry.kind && ZeroLeaf(v.kind, v.payload)
      else v == NilIface
    case Ref(t) => v == New(owner, t) && !NewAt(owner, t, 0, MAX_NODES).err
    case Slice(t) => if ElemResolves(owner, t) then v == SliceV(t, []) else v == NilIface
    case Array(t, n) =>
      if ElemResolves(owner, t) then v.ArrayV? && v.elem == t && |v.items| == n <= 0x1_0000 && AllAbsent(t, v.items)
      else v == NilIface
    case Map(k, t) => if ElemResolves(owner, t) then v == MapV(KeyWidth(k), t, []) && IsMapKey(k) else v == NilIface
    case Ptr(_) => v.Leaf? && IsAbsent(v) && v == NIL_MARKER
    case AnyObject => v.Leaf? && IsAbsent(v) && v == NIL_MARKER
  }

  /** Elements of a type are absent pointers, those of no type absent interfaces. */
  ghost predicate AllAbsent(t: string, vs: seq<Val>) {
    forall i :: 0 <= i < |vs| ==> vs[i] == if t == "" then NilIface else NilPtr
  }

  lemma {:induction false} ZeroBytes(w: nat)
    ensures AllZero(BE(w, 0))
  {
    if w > 0 { ZeroBytes(w - 1); }
  }

  lemma ZeroLeafOf(k: Kind)
    requires ValidKind(k)
    ensures ZeroLeaf(k, ZeroPayload(k))
  {
    match k
    case Uint(w) => ZeroBytes(w);
    case Blob(w) => ZeroBytes(w);
    case _ =>
  }

  lemma SpecZeroField(reg: Registry, spec: Spec, depth: nat, left: nat)
    requires PrimitivesCompiled(reg) && ValidEntries(reg) && ValidSpec(spec) && left <= MAX_NODES
    requires !SpecZero(reg, spec, depth, left).err
    ensures FieldZero(reg, spec, SpecZero(reg, spec, depth, left).val)
  {
    match spec
    case Primitive(p) =>
      if Has(reg, p) {
        LookupValid(reg, p);
        LookupPrimitive(reg, p);
        ZeroLeafOf(Lookup(reg, p).value.entry.kind);
      }
    case Ref(t) => BuiltAlone(reg, t, depth, left);
    case _ =>
  }

  ghost predicate FieldsZero(owner: Registry, fields: seq<Field>, vals: seq<Val>)
    requires PrimitivesCompiled(owner)
  {
    |vals| == |fields| && forall i :: 0 <= i < |fields| ==> FieldZero(owner, fields[i].spec, vals[i])
  }

  lemma {:induction false} ZeroFieldsAll(reg: Registry, fields: seq<Field>, depth: nat, left: nat)
    requires PrimitivesCompiled(reg) && ValidEntries(reg) && left <= MAX_NODES
    requires (forall i :: 0 <= i < |fields| ==> ValidSpec(fields[i].spec)) && !ZeroFields(reg, fields, depth, left).err
    ensures FieldsZero(reg, fields, ZeroFields(reg, fields, depth, left).vals)
    decreases |fields|
  {
    if fields != [] {
      var z := SpecZero(reg, fields[0].spec, depth, left);
      SpecZeroField(reg, fields[0].spec, depth, left);
      ZeroFieldsAll(reg, fields[1..], depth, z.left);
      var rest := ZeroFields(reg, fields[1..], depth, z.left).vals;
      forall i | 0 <= i < |fields|
        ensures FieldZero(reg, fields[i].spec, ([z.val] + rest)[i])
      {
        if i > 0 { assert fields[1..][i - 1] == fields[i]; }
      }
    }
  }

  /**
   * A new struct, field by field, as the registry that holds its Blueprint resolves the names:
   * zero primitives, the New of each referenced type, empty slices and maps, arrays of their
   * full length with nothing in them, and no value where one may be absent.
   */
  lemma NewFields(reg: Registry, name: string)
    requires PrimitivesCompiled(reg) && ValidEntries(reg)
    requires IsRuntime(reg, name) && !StoredAs(reg, name).IsAlias() && New(reg, name) != NilIface
    ensures PrimitivesCompiled(OwnerOf(reg, name))
    ensures New(reg, name).Struct? && New(reg, name).bp == StoredAs(reg, name)
    ensures FieldsZero(OwnerOf(reg, name), StoredAs(reg, name).fields, New(reg, name).fields)
  {
    LookupValid(reg, name);
    LookupPrimitive(reg, name);
    var bp := StoredAs(reg, name);
    forall i | 0 <= i < |bp.fields|
      ensures ValidSpec(bp.fields[i].spec)
    {
      assert ValidField(bp.typ, bp.fields[i]);
    }
    ZeroFieldsAll(OwnerOf(reg, name), bp.fields, 1, MAX_NODES - 1);
  }

  /** A new alias holds the zero of its primitive. */
  lemma NewAlias(reg: Registry, name: string)
    requires PrimitivesCompiled(reg) && ValidEntries(reg)
    requires IsRuntime(reg, name) && StoredAs(reg, name).IsAlias() && New(reg, name) != NilIface
    ensures var v, bp := New(reg, name), StoredAs(reg, name);
            && v.Alias? && v.bp == bp && ZeroLeaf(v.kind, v.payload)
            && Shown(OwnerOf(reg, name), bp.underlying).Some? && Shown(OwnerOf(reg, name), bp.underlying).value.Proto?
            && v.kind == Shown(OwnerOf(reg, name), bp.underlying).value.kind
  {
    LookupValid(reg, name);
    LookupPrimitive(reg, name);
    var owner, u := OwnerOf(reg, name), StoredAs(reg, name).underlying;
    if Has(owner, u) {
      LookupValid(owner, u);
      LookupPrimitive(owner, u);
      ZeroLeafOf(Lookup(owner, u).value.entry.kind);
    }
  }

  /** A new prototype is the zero of its codec. */
  lemma NewProto(reg: Registry, name: string)
    requires PrimitivesCompiled(reg) && ValidEntries(reg) && Shown(reg, name).Some? && Shown(reg, name).value.Proto?
    ensures var v := New(reg, name);
            v.Leaf? && v.name == name && v.kind == Shown(reg, name).value.kind && ZeroLeaf(v.kind, v.payload)
  {
    LookupValid(reg, name);
    ZeroLeafOf(Shown(reg, name).value.kind);
  }

  // ---------------------------------------------------------------- a new object can be written and read

  /** No level has a name that its parents have too. */
  ghost predicate Unshadowed(reg: Registry) {
    reg.parent.Some? ==> (forall n :: Has(reg.parent.value, n) ==> n !in reg.entries) && Unshadowed(reg.parent.value)
  }

  /** Compile-time structs can write their zero value. */
  ghost predicate ZerosWritable(reg: Registry) {
    && (forall n :: n in reg.entries && reg.entries[n].Proto? && reg.entries[n].kind.Opaque? ==> reg.entries[n].kind.codec.valid(0))
    && (reg.parent.Some? ==> ZerosWritable(reg.parent.value))
  }

  ghost predicate Whole(reg: Registry) { Inv(reg) && Fit(reg) && ZerosWritable(reg) }

  /** What resolves at `owner` resolves the same from `reg`. */
  ghost predicate SameBelow(reg: Registry, owner: Registry) {
    forall m :: Has(owner, m) ==> Lookup(reg, m) == Lookup(owner, m)
  }

  lemma {:induction false} OwnerWhole(reg: Registry, n: string)
    requires Whole(reg) && Has(reg, n)
    ensures Whole(Lookup(reg, n).value.owner)
    ensures Unshadowed(reg) ==> SameBelow(reg, Lookup(reg, n).value.owner)
    decreases reg
  {
    if n !in reg.entries {
      OwnerWhole(reg.parent.value, n);
    }
  }

  /** Nothing but a limit makes New of a registered name nil. */
  lemma OnlyLimits(reg: Registry, t: string)
    requires Whole(reg) && Has(reg, t) && !NewAt(reg, t, 0, MAX_NODES).err
    ensures New(reg, t) != NilIface
  {
    OwnerWhole(reg, t);
    LookupValid(reg, t);
    LookupPrimitive(reg, t);
    var Found(owner, e) := Lookup(reg, t).value;
    if e.Runtime? && e.bp.IsAlias() {
      assert IsPrimitive(e.bp.underlying) && Has(owner, e.bp.underlying);
      LookupPrimitive(owner, e.bp.underlying);
    }
  }

  lemma NewByLookup(reg: Registry, owner: Registry, t: string)
    requires PrimitivesCompiled(reg) && PrimitivesCompiled(owner) && Lookup(reg, t) == Lookup(owner, t)
    ensures New(reg, t) == New(owner, t)
  {
  }

  /** What the codec asks of a value before it is written and read back, and that it reads back as it is. */
  ghost predicate Good(reg: Registry, slot: Slot, v: Val)
    requires Ready(reg)
  {
    Conforms(reg, slot, v) && SizedSlot(slot, v) && CanonSlot(slot, v) == v
  }

  ghost predicate GoodObj(reg: Registry, name: string, v: Val)
    requires Ready(reg)
  {
    ConformsObj(reg, name, v) && Sized(v) && CanonObj(v) == v
  }

  lemma ZeroGood(reg: Registry, n: string)
    requires Whole(reg) && Has(reg, n) && Lookup(reg, n).value.entry.Proto?
    ensures var k := Lookup(reg, n).value.entry.kind; ValidPayload(k, ZeroPayload(k)) && SizedLeaf(k, ZeroPayload(k))
  {
    OwnerWhole(reg, n);
  }

  /** A new object that is not nil conforms to its type, can be written, and is canonical. */
  lemma {:induction false} NewGood(reg: Registry, name: string, v: Val)
    requires Whole(reg) && Unshadowed(reg) && Has(reg, name) && v == New(reg, name) && v != NilIface
    ensures GoodObj(reg, name, v)
    decreases v, 1
  {
    OwnerWhole(reg, name);
    LookupValid(reg, name);
    LookupPrimitive(reg, name);
    var Found(owner, e) := Lookup(reg, name).value;
    match e
    case Proto(_, _) => ZeroGood(reg, name);
    case Runtime(bp) =>
      if bp.IsAlias() {
        AliasGood(reg, name, v);
      } else {
        NewFields(reg, name);
        RegisteredResolves(reg, name);
        RowGood(reg, owner, bp.typ, bp.fields, v.fields);
        StructGood(reg, name, bp, v);
      }
  }

  lemma AliasGood(reg: Registry, name: string, v: Val)
    requires Whole(reg) && IsRuntime(reg, name) && StoredAs(reg, name).IsAlias() && v == New(reg, name) && v != NilIface
    ensures GoodObj(reg, name, v)
  {
    OwnerWhole(reg, name);
    NewAlias(reg, name);
    ZeroGood(OwnerOf(reg, name), StoredAs(reg, name).underlying);
    ZeroLeafGood(v.kind, v.payload);
  }

  lemma StructGood(reg: Registry, name: string, bp: Blueprint, v: Val)
    requires Ready(reg) && v == New(reg, name) && v.Struct? && v.bp == bp && RowIsGood(reg, FieldRow(bp.fields), v.fields)
    ensures GoodObj(reg, name, v)
  {
    assert Resolve(reg, name) == Some(StructShape(bp));
  }

  ghost predicate RowIsGood(reg: Registry, row: Row, vals: seq<Val>)
    requires Ready(reg)
  {
    RowFits(row, |vals|) && ConformsRow(reg, row, vals) && SizedRow(row, vals) && CanonRow(row, vals) == vals
  }

  lemma {:induction false} RowGood(reg: Registry, owner: Registry, typ: string, fields: seq<Field>, vals: seq<Val>)
    requires Whole(reg) && Unshadowed(reg) && Whole(owner) && SameBelow(reg, owner)
    requires FieldsZero(owner, fields, vals) && FieldsResolve(owner, fields)
    requires forall i :: 0 <= i < |fields| ==> ValidField(typ, fields[i])
    ensures RowIsGood(reg, FieldRow(fields), vals)
    decreases vals, 0
  {
    if vals != [] {
      assert ValidField(typ, fields[0]) && FieldZero(owner, fields[0].spec, vals[0]) && FieldResolves(owner, fields[0].spec);
      FieldGood(reg, owner, fields[0].spec, vals[0]);
      RowGood(reg, owner, typ, fields[1..], vals[1..]);
      assert vals == [vals[0]] + vals[1..];
    }
  }

  lemma {:induction false} FieldGood(reg: Registry, owner: Registry, spec: Spec, v: Val)
    requires Whole(reg) && Unshadowed(reg) && Whole(owner) && SameBelow(reg, owner)
    requires FieldZero(owner, spec, v) && FieldResolves(owner, spec) && ValidSpec(spec)
    ensures Good(reg, FieldSlot(spec), v)
    decreases v, 2
  {
    match spec
    case Primitive(p) =>
      assert Has(owner, p);
      NewByLookup(reg, owner, p);
      NamedGood(reg, owner, p, v);
    case Ref(t) =>
      OnlyLimits(owner, t);
      NewByLookup(reg, owner, t);
      NewGood(reg, t, v);
    case Slice(t) => AbsentGood(reg, t, []);
    case Array(t, _) => AbsentGood(reg, t, v.items);
    case Map(k, t) =>
      assert SizedEntries(KeyWidth(k), t, []) && ConformsEntries(reg, KeyWidth(k), t, []);
      assert CanonEntries(t, []) == [] && SortEntries(KeyWidth(k), []) == [];
    case _ =>
  }

  lemma NamedGood(reg: Registry, owner: Registry, p: string, v: Val)
    requires Whole(reg) && Whole(owner) && Has(owner, p) && Lookup(reg, p) == Lookup(owner, p)
    requires FieldZero(owner, Primitive(p), v)
    ensures GoodObj(reg, p, v)
  {
    ZeroGood(reg, p);
    ProtoShape(reg, p);
    ZeroLeafGood(v.kind, v.payload);
  }

  lemma ProtoShape(reg: Registry, n: string)
    requires PrimitivesCompiled(reg) && Has(reg, n) && Lookup(reg, n).value.entry.Proto?
    ensures Resolve(reg, n) == Some(LeafShape(Lookup(reg, n).value.entry.kind))
  {
  }

  lemma ZeroLeafGood(k: Kind, p: Payload)
    requires ZeroLeaf(k, p) && SizedLeaf(k, ZeroPayload(k))
    ensures ValidPayload(k, p) && SizedLeaf(k, p)
  {
  }

  lemma {:induction false} AbsentGood(reg: Registry, t: string, vs: seq<Val>)
    requires Ready(reg) && AllAbsent(t, vs)
    ensures RowIsGood(reg, ElemRow(t), vs)
    decreases |vs|
  {
    if vs != [] {
      AbsentGood(reg, t, vs[1..]);
      assert vs == [vs[0]] + vs[1..];
    }
  }

  /**
   * On a chain left by registrations, once the primitives are there and no name is shadowed: a
   * new object conforms to its type and has an encoding, and if Encode and Decode keep within
   * their limits it comes back as it was.
   */
  lemma NewRoundTrip(reg: Registry, name: string, rest: seq<byte>)
    requires Whole(reg) && Unshadowed(reg) && Has(reg, name) && ByteName(name) && New(reg, name) != NilIface
    ensures ConformsTop(reg, New(reg, name)) && PlanObj(New(reg, name)).Some?
    ensures var v := New(reg, name);
            var w := Encode(v, WState([], FRESH));
            w.err == None ==>
              var r := Decode(reg, w.st.out + rest);
              && (r.Got? <==> FitsR(FRESH, NeedObj(reg, v), |PlanObj(v).value.bytes|))
              && (r.Got? ==> r.value == v && r.st.inp == rest)
  {
    var v := New(reg, name);
    NewGood(reg, name, v);
    ResolveValid(reg, name);
    PlannedObj(v);
    if Encode(v, WState([], FRESH)).err == None {
      DecodeOfEncode(reg, v, rest);
    }
  }

  // ---------------------------------------------------------------- names

  /** The same letters, in either case. */
  predicate SameLetters(a: string, b: string) {
    |a| == |b| && forall i :: 0 <= i < |a| ==> SameLetter(a[i], b[i])
  }

  predicate SameLetter(x: char, y: char) {
    x == y || ('A' <= x <= 'Z' && y as int == x as int + 32) || ('A' <= y <= 'Z' && x as int == y as int + 32)
  }

  /** A registered type has a name that a tag can carry, and no two of its fields differ in letter case alone. */
  lemma RegisteredName(reg: Registry, n: string)
    requires ValidEntries(reg) && IsRuntime(reg, n)
    ensures SizedTag(n) && ByteName(n) && StoredAs(reg, n).typ == n && forall c :: c in n ==> ' ' <= c <= '~'
    ensures StoredAs(reg, n).IsAlias() ==> StoredAs(reg, n).fields == [] && IsPrimitive(StoredAs(reg, n).underlying)
    ensures forall i, j :: 0 <= i < j < |StoredAs(reg, n).fields| ==>
              !SameLetters(StoredAs(reg, n).fields[i].name, StoredAs(reg, n).fields[j].name)
  {
    LookupValid(reg, n);
    var fields := StoredAs(reg, n).fields;
    forall i, j | 0 <= i < j < |fields|
      ensures !SameLetters(fields[i].name, fields[j].name)
    {
      if SameLetters(fields[i].name, fields[j].name) {
        LowerSame(fields[i].name, fields[j].name);
      }
    }
  }

  lemma LowerSame(a: string, b: string)
    requires SameLetters(a, b)
    ensures Lower(a) == Lower(b)
  {
    forall i | 0 <= i < |a|
      ensures LowerChar(a[i]) == LowerChar(b[i])
    {
      assert SameLetter(a[i], b[i]);
    }
  }

  // ---------------------------------------------------------------- a shadowed name

  const HOLDS_X := Blueprint("t", [Field("f", Ref("x"))], "")
  const ABOVE := Registry(map["x" := Proto(Uint(2), None), "t" := Runtime(HOLDS_X)], None)
  const SHADOWED := Registry(map["x" := Proto(Uint(1), None)], Some(ABOVE))

  /**
   * A child that had a name before its parent did: New fills the field from the parent's type
   * where reading resolves the child's, and the new object is none that reading gives.
   */
  lemma ShadowedNew()
    ensures Ready(SHADOWED) && New(SHADOWED, "t").Struct? && !ConformsObj(SHADOWED, "t", New(SHADOWED, "t"))
  {
    assert ValidField("t", HOLDS_X.fields[0]) && ValidBlueprint(HOLDS_X);
    assert Lookup(SHADOWED, "t") == Some(Found(ABOVE, Runtime(HOLDS_X)));
    ProtoShape(SHADOWED, "x");
    assert NewAt(ABOVE, "x", 1, MAX_NODES - 1) == Built(Leaf("x", Uint(2), Num(0)), MAX_NODES - 1, false);
    var v := New(SHADOWED, "t");
    OneField(ABOVE, HOLDS_X.fields, 1, MAX_NODES - 1);
    assert v == Struct(HOLDS_X, [Leaf("x", Uint(2), Num(0))]);
    assert !Conforms(SHADOWED, FieldSlot(Ref("x")), v.fields[0]);
  }

  lemma OneField(reg: Registry, fields: seq<Field>, depth: nat, left: nat)
    requires PrimitivesCompiled(reg) && |fields| == 1 && !SpecZero(reg, fields[0].spec, depth, left).err
    ensures var z := SpecZero(reg, fields[0].spec, depth, left); ZeroFields(reg, fields, depth, left) == BuiltFields([z.val], z.left, false)
  {
    assert fields[1..] == [];
  }
}
