/** Option, and the error classes the codec, the constructor and the registry distinguish. */
module Wrappers {
  datatype Option<+T> = None | Some(value: T)

  datatype Err =
    | Limit          // ErrDepthExceeded: a depth, frame, byte or node limit
    | ShortRead      // io.EOF or io.ErrUnexpectedEOF
    | BadFlag        // a presence flag other than 0 and 1
    | NotFound       // ErrBlueprintNotFound
    | NilValue       // a nil value where the slot needs one
    | Untyped        // an object without a type name in a polymorphic slot
    | TooLarge       // a length that does not fit its prefix
    | Malformed      // a compile-time codec refused its value or its bytes
    | Invalid        // ErrBlueprintInvalid
    | Cycle          // ErrBlueprintCycle
    | Registered     // ErrAlreadyRegistered, or a prototype already added
    | Duplicate      // ErrDuplicateObject
    | Unaddressable  // no Object ID: the object cannot be written
}

/**
 * Specs, Blueprints, the registry chain and the objects it materialises. A Go string is a
 * sequence of bytes: a `string` whose characters are below 256.
 */
module Schema {
  import opened Wrappers
  import opened Bytes
  import Ledger

  const NIL_NAME := "nil"
  const MAX_NAME_LEN := 255
  const MAX_ARRAY_LEN := 0x1_0000

  /** The bytes of a Go string, and back. */
  function NameBytes(name: string): (s: seq<byte>)
    ensures |s| == |name|
  {
    seq(|name|, i requires 0 <= i < |name| => name[i] as int % 256)
  }

  function NameOf(s: seq<byte>): string {
    seq(|s|, i requires 0 <= i < |s| => s[i] as char)
  }

  ghost predicate ByteName(name: string) {
    forall i :: 0 <= i < |name| ==> name[i] as int < 256
  }

  lemma NameRoundTrip(name: string)
    requires ByteName(name)
    ensures NameOf(NameBytes(name)) == name
  {
    assert forall i :: 0 <= i < |name| ==> NameOf(NameBytes(name))[i] == name[i];
  }

  datatype Spec =
    | Primitive(prim: string)
    | Ref(ref: string)
    | Slice(elem: string)
    | Array(elem: string, length: nat)
    | Map(key: string, elem: string)
    | Ptr(ref: string)
    | AnyObject

  /** The name a Spec depends on, "" when it is self-contained. */
  function ReferencedType(s: Spec): string {
    match s
    case Primitive(_) => ""
    case Ref(t) => t
    case Slice(t) => t
    case Array(t, _) => t
    case Map(_, t) => t
    case Ptr(t) => t
    case AnyObject => ""
  }

  datatype Field = Field(name: string, spec: Spec)

  /** A struct Blueprint has no underlying name; an alias Blueprint names a primitive. */
  datatype Blueprint = Blueprint(typ: string, fields: seq<Field>, underlying: string) {
    predicate IsAlias() { underlying != "" }
  }

  /** `primitiveAllowlist`. */
  predicate IsPrimitive(name: string) {
    name in {
      "string8", "string16", "string32", "string64",
      "uint8", "uint16", "uint32", "uint64",
      "bytes8", "bytes16", "bytes32", "bytes64",
      "bool", "time", "identity", "object_id.sha256",
      "nonce64", "duration", "zone"}
  }

  /** `mapKeyAllowlist`. */
  predicate IsMapKey(name: string) {
    name in {"string16", "uint8", "uint16", "uint32", "uint64"}
  }

  predicate Printable(s: string) {
    forall i :: 0 <= i < |s| ==> 0x20 as char <= s[i] <= 0x7E as char
  }

  function LowerChar(c: char): char {
    if 'A' <= c <= 'Z' then c + 32 as char else c
  }

  function Lower(s: string): (r: string)
    ensures |r| == |s|
  {
    seq(|s|, i requires 0 <= i < |s| => LowerChar(s[i]))
  }

  predicate ValidSpec(s: Spec) {
    match s
    case Primitive(p) => IsPrimitive(p)
    case Ref(t) => t != ""
    case Slice(_) => true
    case Array(_, n) => n <= MAX_ARRAY_LEN
    case Map(k, _) => IsMapKey(k)
    case Ptr(t) => t != ""
    case AnyObject => true
  }

  predicate ValidName(n: string) {
    n != "" && Printable(n) && |n| <= MAX_NAME_LEN
  }

  /** The rules of `validateBlueprint`, without the order in which it checks them. */
  ghost predicate ValidBlueprint(b: Blueprint) {
    && ValidName(b.typ)
    && if b.IsAlias() then b.fields == [] && IsPrimitive(b.underlying)
       else ValidFields(b.typ, b.fields)
  }

  ghost predicate ValidFields(typ: string, fields: seq<Field>) {
    && (forall i :: 0 <= i < |fields| ==> ValidField(typ, fields[i]))
    && (forall i, j :: 0 <= i < j < |fields| ==> Lower(fields[i].name) != Lower(fields[j].name))
  }

  predicate ValidField(typ: string, f: Field) {
    && ValidName(f.name)
    && ValidSpec(f.spec)
    && ((f.spec.Ref? || f.spec.Ptr?) ==> f.spec.ref != typ)
  }

  /** The loop with its set of names already seen decides exactly `ValidBlueprint`. */
  method ValidateBlueprint(b: Blueprint) returns (err: Option<Err>)
    ensures err.None? <==> ValidBlueprint(b)
    ensures err.Some? ==> err.value == Invalid
  {
    if !ValidName(b.typ) || (b.underlying != "" && |b.fields| > 0) {
      return Some(Invalid);
    }
    if b.IsAlias() {
      return if IsPrimitive(b.underlying) then None else Some(Invalid);
    }
    var seen: set<string> := {};
    for i := 0 to |b.fields|
      invariant seen == set k | 0 <= k < i :: Lower(b.fields[k].name)
      invariant ValidFields(b.typ, b.fields[..i])
    {
      var f := b.fields[i];
      var key := Lower(f.name);
      if !ValidName(f.name) || key in seen || !ValidField(b.typ, f) {
        return Some(Invalid);
      }
      seen := seen + {key};
      assert b.fields[..i + 1] == b.fields[..i] + [f];
    }
    assert b.fields[..|b.fields|] == b.fields;
    return None;
  }

  // ---------------------------------------------------------------- compile-time codecs

  /** What a struct codec makes of the front of a stream, and how many bytes it took. */
  datatype Decoded = Took(value: nat, n: nat) | Refused(n: nat)

  /**
   * Any hand-written or reflected struct codec, on values that are numbered: those it can
   * write, their bytes, how it reads, and the frames it opens for a value either way.
   */
  datatype StructCodec = StructCodec(
    valid: nat -> bool,
    enc: nat -> seq<byte>,
    dec: seq<byte> -> Decoded,
    opens: nat -> Ledger.Need,
    reopens: nat -> Ledger.Need)

  /** The wire shape of a compile-time prototype. */
  datatype Kind =
    | Uint(width: nat)
    | Blob(lenWidth: nat)
    | Bool
    | Raw(size: nat)
    | Empty
    | Opaque(codec: StructCodec)

  datatype Payload = Num(n: nat) | Data(s: seq<byte>)

  /**
   * A compile-time codec takes no more than it is given, undoes its own encoding, and
   * refuses an encoding that is cut short.
   */
  ghost predicate ValidKind(k: Kind) {
    match k
    case Uint(w) => w in {1, 2, 4, 8}
    case Blob(w) => w in {1, 2, 4, 8}
    case Opaque(c) => RoundTrips(c)
    case _ => true
  }

  ghost predicate RoundTrips(c: StructCodec) {
    && (forall s :: c.dec(s).n <= |s|)
    && (forall v: nat, rest :: c.valid(v) ==> c.dec(c.enc(v) + rest) == Took(v, |c.enc(v)|))
    && (forall v: nat, j: nat :: c.valid(v) && j < |c.enc(v)| ==> c.dec(c.enc(v)[..j]).Refused?)
  }

  ghost predicate ValidPayload(k: Kind, p: Payload) {
    match k
    case Uint(w) => p.Num? && p.n < Pow256(w)
    case Blob(w) => p.Data? && |p.s| < Pow256(w)
    case Bool => p.Num? && p.n < 2
    case Raw(n) => p.Data? && |p.s| == n
    case Empty => p == Num(0)
    case Opaque(c) => p.Num? && c.valid(p.n)
  }

  function ZeroPayload(k: Kind): Payload {
    match k
    case Blob(_) => Data([])
    case Raw(n) => Data(seq(n, _ => 0))
    case _ => Num(0)
  }

  // ---------------------------------------------------------------- objects

  datatype Key = StrKey(s: seq<byte>) | UintKey(n: nat)

  /**
   * What a slot can hold. A nil interface and a nil pointer are different values; `*Nil` is
   * the compile-time object named "nil". A map keeps its entries in the order in which one
   * enumeration of the Go map yields them.
   */
  datatype Val =
    | NilIface
    | NilPtr
    | Leaf(name: string, kind: Kind, payload: Payload)
    | Alias(bp: Blueprint, kind: Kind, payload: Payload)
    | Struct(bp: Blueprint, fields: seq<Val>)
    | SliceV(elem: string, items: seq<Val>)
    | ArrayV(elem: string, items: seq<Val>)
    | MapV(keyWidth: nat, elem: string, entries: seq<Entry>)

  datatype Entry = Entry(key: Key, val: Val)

  const NIL_MARKER := Leaf(NIL_NAME, Empty, Num(0))

  /** `isPtrNil`, and `interfaceValue.IsAbsent`: three spellings of "no value". */
  predicate IsAbsent(v: Val) {
    v.NilIface? || v.NilPtr? || (v.Leaf? && v.name == NIL_NAME)
  }

  function ObjectType(v: Val): string {
    match v
    case NilIface => ""
    case NilPtr => ""
    case Leaf(name, _, _) => name
    case Alias(bp, _, _) => bp.typ
    case Struct(bp, _) => bp.typ
    case SliceV(_, _) => "slice"
    case ArrayV(_, _) => "array"
    case MapV(_, _, _) => "map"
  }

  // ---------------------------------------------------------------- the registry

  /**
   * A registry entry: a runtime Blueprint stored under its own type name, or a compile-time
   * prototype with the Blueprint that can be derived from it, if any.
   */
  datatype RegEntry =
    | Proto(kind: Kind, derived: Option<Blueprint>)
    | Runtime(bp: Blueprint)

  datatype Registry = Registry(entries: map<string, RegEntry>, parent: Option<Registry>)

  datatype Found = Found(owner: Registry, entry: RegEntry)

  /** The first entry on the chain, and the registry that holds it. */
  function Lookup(reg: Registry, name: string): (f: Option<Found>)
    ensures f.Some? ==> name in f.value.owner.entries && f.value.owner.entries[name] == f.value.entry
  {
    if name in reg.entries then Some(Found(reg, reg.entries[name]))
    else if reg.parent.Some? then Lookup(reg.parent.value, name)
    else None
  }

  /** `has`. */
  predicate Has(reg: Registry, name: string) { Lookup(reg, name).Some? }

  /** `isRuntimeBlueprintType`. */
  predicate IsRuntime(reg: Registry, name: string) {
    name != "" && Lookup(reg, name).Some? && Lookup(reg, name).value.entry.Runtime?
  }

  /** Runtime entries are filed under their own valid type name; prototypes have sound codecs. */
  ghost predicate ValidEntries(reg: Registry) {
    && (forall n :: n in reg.entries ==> ValidEntry(n, reg.entries[n]))
    && (reg.parent.Some? ==> ValidEntries(reg.parent.value))
  }

  ghost predicate ValidEntry(name: string, e: RegEntry) {
    match e
    case Runtime(bp) => bp.typ == name && ValidBlueprint(bp)
    case Proto(k, _) => name != "" && ValidKind(k)
  }

  lemma {:induction false} LookupValid(reg: Registry, name: string)
    requires ValidEntries(reg) && Lookup(reg, name).Some?
    ensures ValidEntry(name, Lookup(reg, name).value.entry)
    ensures ValidEntries(Lookup(reg, name).value.owner)
    decreases reg
  {
    if name !in reg.entries {
      LookupValid(reg.parent.value, name);
    }
  }

  /**
   * Every allowlisted primitive name that resolves anywhere on the chain resolves to a
   * compile-time prototype.
   */
  ghost predicate PrimitivesCompiled(reg: Registry) {
    && (forall n {:trigger IsPrimitive(n)} :: n in reg.entries && IsPrimitive(n) ==> reg.entries[n].Proto?)
    && (reg.parent.Some? ==> PrimitivesCompiled(reg.parent.value))
  }

  lemma {:induction false} LookupPrimitive(reg: Registry, name: string)
    requires PrimitivesCompiled(reg) && Lookup(reg, name).Some?
    ensures IsPrimitive(name) ==> Lookup(reg, name).value.entry.Proto?
    ensures PrimitivesCompiled(Lookup(reg, name).value.owner)
    decreases reg
  {
    if name !in reg.entries {
      LookupPrimitive(reg.parent.value, name);
    }
  }
}
