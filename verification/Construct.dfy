/**
 * Zero-value construction: `New`, its depth cap and its shared node budget. `NewAt`,
 * `ObjectAt`, `SpecZero` and `ZeroFields` say what the constructors return; the methods at the
 * end run them against one mutable budget.
 */
module Construct {
  import opened Wrappers
  import opened Schema
  import Ledger

  const MAX_NODES := 4096

  /**
   * What a constructor returns: the object (NilIface when the name does not resolve), the
   * budget left, and whether it gave up with ErrDepthExceeded.
   */
  datatype Built = Built(val: Val, left: nat, err: bool)

  datatype BuiltFields = BuiltFields(vals: seq<Val>, left: nat, err: bool)

  function Height(depth: nat): nat { if depth <= Ledger.MAX_DEPTH + 1 then Ledger.MAX_DEPTH + 1 - depth else 0 }

  /** A compile-time prototype materialises as its zero value and spends no budget. */
  function ProtoZero(reg: Registry, name: string): Val {
    match Lookup(reg, name)
    case Some(Found(_, Proto(k, _))) => Leaf(name, k, ZeroPayload(k))
    case _ => NilIface
  }

  ghost function NewAt(reg: Registry, name: string, depth: nat, left: nat): (r: Built)
    requires PrimitivesCompiled(reg)
    ensures r.left <= left
    decreases Height(depth), 1
  {
    match Lookup(reg, name)
    case None => Built(NilIface, left, false)
    case Some(Found(owner, Runtime(bp))) =>
      LookupPrimitive(reg, name);
      ObjectAt(owner, bp, depth, left)
    case Some(Found(_, Proto(_, _))) => Built(ProtoZero(reg, name), left, false)
  }

  /** `newRuntimeObjectAt`; an error other than ErrDepthExceeded has become nil. */
  ghost function ObjectAt(reg: Registry, bp: Blueprint, depth: nat, left: nat): (r: Built)
    requires PrimitivesCompiled(reg)
    ensures r.left <= left
    decreases Height(depth), 0
  {
    if depth > Ledger.MAX_DEPTH || left == 0 then Built(NilIface, left, true)
    else if !ValidBlueprint(bp) then Built(NilIface, left - 1, false)
    else if bp.IsAlias() then
      var u := ProtoZero(reg, bp.underlying);
      Built(if u.Leaf? then Alias(bp, u.kind, u.payload) else NilIface, left - 1, false)
    else
      var fs := ZeroFields(reg, bp.fields, depth + 1, left - 1);
      Built(if fs.err then NilIface else Struct(bp, fs.vals), fs.left, fs.err)
  }

  /** The fields in order, up to the first that exceeds a limit. */
  ghost function ZeroFields(reg: Registry, fields: seq<Field>, depth: nat, left: nat): (r: BuiltFields)
    requires PrimitivesCompiled(reg)
    ensures r.left <= left
    ensures !r.err ==> |r.vals| == |fields|
    decreases Height(depth), 3, |fields|
  {
    if fields == [] then BuiltFields([], left, false)
    else
      var z := SpecZero(reg, fields[0].spec, depth, left);
      if z.err then BuiltFields([], z.left, true)
      else
        var rest := ZeroFields(reg, fields[1..], depth, z.left);
        BuiltFields([z.val] + rest.vals, rest.left, rest.err)
  }

  ghost function SpecZero(reg: Registry, spec: Spec, depth: nat, left: nat): (r: Built)
    requires PrimitivesCompiled(reg)
    ensures r.left <= left
    decreases Height(depth), 2
  {
    match spec
    case Primitive(p) => Built(ProtoZero(reg, p), left, false)
    case Ref(t) => NewAt(reg, t, depth, left)
    case _ => Built(CarrierZero(reg, spec), left, false)
  }

  /** `resolveElemType` succeeds: heterogeneous, or a name on the chain. */
  predicate ElemResolves(reg: Registry, t: string) { t == "" || Has(reg, t) }

  function KeyWidth(key: string): nat {
    if key == "uint8" then 1 else if key == "uint16" then 2
    else if key == "uint32" then 4 else if key == "uint64" then 8 else 0
  }

  function CarrierZero(reg: Registry, spec: Spec): Val {
    match spec
    case Slice(t) => if ElemResolves(reg, t) then SliceV(t, []) else NilIface
    case Array(t, n) =>
      if ElemResolves(reg, t) then ArrayV(t, seq(n, _ => if t == "" then NilIface else NilPtr)) else NilIface
    case Map(k, t) => if IsMapKey(k) && ElemResolves(reg, t) then MapV(KeyWidth(k), t, []) else NilIface
    case Ptr(_) => NIL_MARKER
    case AnyObject => NIL_MARKER
    case _ => NilIface
  }

  /** The registry that holds the runtime Blueprint `name`, and that Blueprint. */
  function OwnerOf(reg: Registry, name: string): Registry
    requires IsRuntime(reg, name)
  {
    Lookup(reg, name).value.owner
  }

  function StoredAs(reg: Registry, name: string): Blueprint
    requires IsRuntime(reg, name)
  {
    Lookup(reg, name).value.entry.bp
  }

  /** `Blueprints.New`. */
  ghost function New(reg: Registry, name: string): Val
    requires PrimitivesCompiled(reg)
  {
    NewAt(reg, name, 0, MAX_NODES).val
  }

  // ---------------------------------------------------------------- the unfolding

  /**
   * `path` names a node of the RefSpec unfolding of `name`: field indices, each the index of
   * a RefSpec field of the struct Blueprint reached so far, ending at a runtime Blueprint.
   */
  ghost predicate Node(reg: Registry, name: string, path: seq<nat>)
    decreases |path|
  {
    match Lookup(reg, name)
    case Some(Found(owner, Runtime(bp))) =>
      path == [] ||
      (!bp.IsAlias() && path[0] < |bp.fields| && bp.fields[path[0]].spec.Ref? &&
       Node(owner, bp.fields[path[0]].spec.ref, path[1..]))
    case _ => false
  }

  /** The nodes no deeper than the cap when `name` stands at `depth`. */
  ghost function Nodes(reg: Registry, name: string, depth: nat): set<seq<nat>>
    decreases Height(depth), 1, 0
  {
    match Lookup(reg, name)
    case Some(Found(owner, Runtime(bp))) =>
      if depth > Ledger.MAX_DEPTH then {}
      else if bp.IsAlias() then {[]}
      else {[]} + FieldNodes(owner, bp.fields, |bp.fields|, depth + 1)
    case _ => {}
  }

  /** The nodes below the first `k` fields. */
  ghost function FieldNodes(reg: Registry, fields: seq<Field>, k: nat, depth: nat): set<seq<nat>>
    requires k <= |fields|
    decreases Height(depth), 2, k
  {
    if k == 0 then {}
    else
      var before := FieldNodes(reg, fields, k - 1, depth);
      if fields[k - 1].spec.Ref? then before + Under(k - 1, Nodes(reg, fields[k - 1].spec.ref, depth))
      else before
  }

  ghost function Under(i: nat, s: set<seq<nat>>): set<seq<nat>> {
    set p | p in s :: [i] + p
  }

  /** `Nodes` is exactly the set of nodes within the cap. */
  lemma {:induction false} NodesExact(reg: Registry, name: string, depth: nat, path: seq<nat>)
    ensures path in Nodes(reg, name, depth) <==> Node(reg, name, path) && depth + |path| <= Ledger.MAX_DEPTH
    decreases Height(depth), 1, 0
  {
    match Lookup(reg, name)
    case Some(Found(owner, Runtime(bp))) =>
      if depth <= Ledger.MAX_DEPTH && !bp.IsAlias() && path != [] {
        FieldNodesExact(owner, bp.fields, |bp.fields|, depth + 1, path);
      } else if depth <= Ledger.MAX_DEPTH && !bp.IsAlias() {
        FieldNodesExact(owner, bp.fields, |bp.fields|, depth + 1, path);
      }
    case _ =>
  }

  lemma {:induction false} FieldNodesExact(reg: Registry, fields: seq<Field>, k: nat, depth: nat, path: seq<nat>)
    requires k <= |fields|
    ensures path in FieldNodes(reg, fields, k, depth) <==>
            path != [] && path[0] < k && fields[path[0]].spec.Ref? &&
            Node(reg, fields[path[0]].spec.ref, path[1..]) && depth + |path| - 1 <= Ledger.MAX_DEPTH
    decreases Height(depth), 2, k
  {
    if k > 0 {
      FieldNodesExact(reg, fields, k - 1, depth, path);
      if fields[k - 1].spec.Ref? && path != [] {
        var sub := Nodes(reg, fields[k - 1].spec.ref, depth);
        NodesExact(reg, fields[k - 1].spec.ref, depth, path[1..]);
        assert path == [path[0]] + path[1..];
        assert path in Under(k - 1, sub) <==> path[0] == k - 1 && path[1..] in sub by {
          if path in Under(k - 1, sub) {
            var p :| p in sub && path == [k - 1] + p;
            assert p == path[1..];
          }
        }
      }
    }
  }

  lemma {:induction false} UnderSize(i: nat, s: set<seq<nat>>)
    ensures |Under(i, s)| == |s|
    decreases |s|
  {
    if s != {} {
      var p :| p in s;
      UnderSize(i, s - {p});
      assert Under(i, s) == Under(i, s - {p}) + {[i] + p};
      forall q | q in s - {p}
        ensures [i] + q != [i] + p
      {
        assert ([i] + q)[1..] == q && ([i] + p)[1..] == p;
      }
    }
  }

  lemma FieldNodesStep(reg: Registry, fields: seq<Field>, k: nat, depth: nat)
    requires k < |fields| && fields[k].spec.Ref?
    ensures |FieldNodes(reg, fields, k + 1, depth)| ==
            |FieldNodes(reg, fields, k, depth)| + |Nodes(reg, fields[k].spec.ref, depth)|
  {
    var sub := Nodes(reg, fields[k].spec.ref, depth);
    UnderSize(k, sub);
    forall p | p in Under(k, sub)
      ensures p !in FieldNodes(reg, fields, k, depth)
    {
      FieldNodesExact(reg, fields, k, depth, p);
    }
  }

  /** Some node of the unfolding lies deeper than the cap. */
  ghost predicate TooDeep(reg: Registry, name: string, depth: nat) {
    exists path :: Node(reg, name, path) && depth + |path| > Ledger.MAX_DEPTH
  }

  /** The same, level by level. */
  ghost predicate Deep(reg: Registry, name: string, depth: nat)
    decreases Height(depth), 1, 0
  {
    match Lookup(reg, name)
    case Some(Found(owner, Runtime(bp))) =>
      depth > Ledger.MAX_DEPTH || (!bp.IsAlias() && FieldsDeep(owner, bp.fields, 0, depth + 1))
    case _ => false
  }

  /** Some RefSpec field from `k` on is too deep. */
  ghost predicate FieldsDeep(reg: Registry, fields: seq<Field>, k: nat, depth: nat)
    requires k <= |fields|
    decreases Height(depth), 2, |fields| - k
  {
    k < |fields| &&
    ((fields[k].spec.Ref? && Deep(reg, fields[k].spec.ref, depth)) || FieldsDeep(reg, fields, k + 1, depth))
  }

  lemma {:induction false} DeepHasPath(reg: Registry, name: string, depth: nat) returns (path: seq<nat>)
    requires Deep(reg, name, depth)
    ensures Node(reg, name, path) && depth + |path| > Ledger.MAX_DEPTH
    decreases Height(depth), 1, 0
  {
    var Found(owner, e) := Lookup(reg, name).value;
    if depth > Ledger.MAX_DEPTH {
      path := [];
    } else {
      var i, below := FieldsDeepHavePath(owner, e.bp.fields, 0, depth + 1);
      path := [i] + below;
      assert path[1..] == below;
    }
  }

  lemma {:induction false} FieldsDeepHavePath(reg: Registry, fields: seq<Field>, k: nat, depth: nat)
    returns (i: nat, path: seq<nat>)
    requires k <= |fields| && FieldsDeep(reg, fields, k, depth)
    ensures i < |fields| && fields[i].spec.Ref?
    ensures Node(reg, fields[i].spec.ref, path) && depth + |path| > Ledger.MAX_DEPTH
    decreases Height(depth), 2, |fields| - k
  {
    if fields[k].spec.Ref? && Deep(reg, fields[k].spec.ref, depth) {
      i := k;
      path := DeepHasPath(reg, fields[k].spec.ref, depth);
    } else {
      i, path := FieldsDeepHavePath(reg, fields, k + 1, depth);
    }
  }

  lemma {:induction false} PathIsDeep(reg: Registry, name: string, depth: nat, path: seq<nat>)
    requires Node(reg, name, path) && depth + |path| > Ledger.MAX_DEPTH
    ensures Deep(reg, name, depth)
    decreases |path|
  {
    if path != [] && depth <= Ledger.MAX_DEPTH {
      var Found(owner, e) := Lookup(reg, name).value;
      PathIsDeep(owner, e.bp.fields[path[0]].spec.ref, depth + 1, path[1..]);
      FieldIsDeep(owner, e.bp.fields, 0, path[0], depth + 1);
    }
  }

  lemma {:induction false} FieldIsDeep(reg: Registry, fields: seq<Field>, k: nat, i: nat, depth: nat)
    requires k <= i < |fields| && fields[i].spec.Ref? && Deep(reg, fields[i].spec.ref, depth)
    ensures FieldsDeep(reg, fields, k, depth)
    decreases i - k
  {
    if k < i {
      FieldIsDeep(reg, fields, k + 1, i, depth);
    }
  }

  lemma DeepIffTooDeep(reg: Registry, name: string, depth: nat)
    ensures Deep(reg, name, depth) <==> TooDeep(reg, name, depth)
  {
    if Deep(reg, name, depth) {
      var path := DeepHasPath(reg, name, depth);
    }
    if path :| Node(reg, name, path) && depth + |path| > Ledger.MAX_DEPTH {
      PathIsDeep(reg, name, depth, path);
    }
  }

  // ---------------------------------------------------------------- exactness

  /** Gives up exactly when too deep or over budget; otherwise spends one unit per node. */
  ghost predicate Exact(err: bool, after: nat, deep: bool, nodes: int, left: nat) {
    (err <==> deep || nodes > left) && (!err ==> after + nodes == left)
  }

  /** One step of the unfolding: the struct itself and the nodes below its fields. */
  lemma NodesStruct(reg: Registry, name: string, depth: nat)
    requires IsRuntime(reg, name) && depth <= Ledger.MAX_DEPTH
    requires !StoredAs(reg, name).IsAlias()
    ensures var fields := StoredAs(reg, name).fields;
            |Nodes(reg, name, depth)| == 1 + |FieldNodes(OwnerOf(reg, name), fields, |fields|, depth + 1)|
  {
    var fields := StoredAs(reg, name).fields;
    var below := FieldNodes(OwnerOf(reg, name), fields, |fields|, depth + 1);
    FieldNodesExact(OwnerOf(reg, name), fields, |fields|, depth + 1, []);
    assert Nodes(reg, name, depth) == {[]} + below;
  }

  /**
   * Construction gives up exactly when some node is too deep or there are more nodes than
   * the budget allows; otherwise it spends one unit per node and nothing else.
   */
  lemma {:induction false} NewAtExact(reg: Registry, name: string, depth: nat, left: nat)
    requires PrimitivesCompiled(reg) && ValidEntries(reg)
    ensures var r := NewAt(reg, name, depth, left);
            Exact(r.err, r.left, Deep(reg, name, depth), |Nodes(reg, name, depth)|, left)
    decreases Height(depth), 1, 0
  {
    match Lookup(reg, name)
    case Some(Found(owner, Runtime(bp))) =>
      LookupValid(reg, name);
      LookupPrimitive(reg, name);
      if depth <= Ledger.MAX_DEPTH && !bp.IsAlias() {
        NodesStruct(reg, name, depth);
        if left > 0 {
          ZeroFieldsExact(owner, bp.fields, 0, depth + 1, left - 1);
          assert bp.fields[0..] == bp.fields;
        }
      }
    case _ =>
  }

  /** The same for the fields from `k` on. */
  lemma {:induction false} ZeroFieldsExact(reg: Registry, fields: seq<Field>, k: nat, depth: nat, left: nat)
    requires PrimitivesCompiled(reg) && ValidEntries(reg) && k <= |fields|
    ensures var r := ZeroFields(reg, fields[k..], depth, left);
            var need := |FieldNodes(reg, fields, |fields|, depth)| - |FieldNodes(reg, fields, k, depth)|;
            need >= 0 && Exact(r.err, r.left, FieldsDeep(reg, fields, k, depth), need, left)
    decreases Height(depth), 2, |fields| - k
  {
    if k < |fields| {
      var z := SpecZero(reg, fields[k].spec, depth, left);
      assert fields[k..][0] == fields[k] && fields[k..][1..] == fields[k + 1..];
      ZeroFieldsExact(reg, fields, k + 1, depth, z.left);
      if fields[k].spec.Ref? {
        NewAtExact(reg, fields[k].spec.ref, depth, left);
        FieldNodesStep(reg, fields, k, depth);
      }
    }
  }

  /**
   * `New` of a runtime struct Blueprint is non-nil exactly when no node of its unfolding is
   * deeper than 64 and the unfolding has at most 4096 nodes.
   */
  lemma NewExact(reg: Registry, name: string)
    requires PrimitivesCompiled(reg) && ValidEntries(reg)
    requires IsRuntime(reg, name) && !StoredAs(reg, name).IsAlias()
    ensures New(reg, name) != NilIface <==>
            && (forall path :: Node(reg, name, path) ==> |path| <= Ledger.MAX_DEPTH)
            && |Nodes(reg, name, 0)| <= MAX_NODES
    ensures New(reg, name) != NilIface ==> New(reg, name).Struct? && New(reg, name).bp.typ == name
  {
    LookupValid(reg, name);
    LookupPrimitive(reg, name);
    NewAtExact(reg, name, 0, MAX_NODES);
    DeepIffTooDeep(reg, name, 0);
  }

  /** An alias is one node: `New` is non-nil exactly when its primitive is on the owner's chain. */
  lemma NewAliasExact(reg: Registry, name: string)
    requires PrimitivesCompiled(reg) && ValidEntries(reg)
    requires IsRuntime(reg, name) && StoredAs(reg, name).IsAlias()
    ensures New(reg, name) != NilIface <==> Has(OwnerOf(reg, name), StoredAs(reg, name).underlying)
  {
    LookupValid(reg, name);
    LookupPrimitive(reg, name);
    var Found(owner, e) := Lookup(reg, name).value;
    if Has(owner, e.bp.underlying) {
      LookupPrimitive(owner, e.bp.underlying);
    }
  }

  // ---------------------------------------------------------------- conservation

  /** The runtime objects inside a constructed value. */
  function Frames(v: Val): nat {
    match v
    case Alias(_, _, _) => 1
    case Struct(_, fields) => 1 + FramesAll(fields)
    case _ => 0
  }

  function FramesAll(vs: seq<Val>): nat {
    if vs == [] then 0 else Frames(vs[0]) + FramesAll(vs[1..])
  }

  /** The chain is closed: an alias finds its primitive where it was registered. */
  ghost predicate AliasesClosed(reg: Registry) {
    && (forall n :: n in reg.entries && reg.entries[n].Runtime? && reg.entries[n].bp.IsAlias()
          ==> Has(reg, reg.entries[n].bp.underlying))
    && (reg.parent.Some? ==> AliasesClosed(reg.parent.value))
  }

  lemma {:induction false} LookupAliases(reg: Registry, name: string)
    requires AliasesClosed(reg) && Lookup(reg, name).Some?
    ensures AliasesClosed(Lookup(reg, name).value.owner)
    decreases reg
  {
    if name !in reg.entries {
      LookupAliases(reg.parent.value, name);
    }
  }

  /** Frames built plus budget left is what the construction started with, across all siblings. */
  lemma {:induction false} Conservation(reg: Registry, name: string, depth: nat, left: nat)
    requires PrimitivesCompiled(reg) && ValidEntries(reg) && AliasesClosed(reg)
    requires !NewAt(reg, name, depth, left).err
    ensures var r := NewAt(reg, name, depth, left);
            Frames(r.val) + r.left == left
    decreases Height(depth), 1, 0
  {
    match Lookup(reg, name)
    case Some(Found(owner, Runtime(bp))) =>
      LookupValid(reg, name);
      LookupPrimitive(reg, name);
      LookupAliases(reg, name);
      if bp.IsAlias() {
        LookupPrimitive(owner, bp.underlying);
      } else {
        ConservationFields(owner, bp.fields, depth + 1, left - 1);
      }
    case _ =>
  }

  lemma {:induction false} ConservationFields(reg: Registry, fields: seq<Field>, depth: nat, left: nat)
    requires PrimitivesCompiled(reg) && ValidEntries(reg) && AliasesClosed(reg)
    requires !ZeroFields(reg, fields, depth, left).err
    ensures var r := ZeroFields(reg, fields, depth, left);
            FramesAll(r.vals) + r.left == left
    decreases Height(depth), 2, |fields|
  {
    if fields != [] {
      var z := SpecZero(reg, fields[0].spec, depth, left);
      if fields[0].spec.Ref? {
        Conservation(reg, fields[0].spec.ref, depth, left);
      }
      ConservationFields(reg, fields[1..], depth, z.left);
      var rest := ZeroFields(reg, fields[1..], depth, z.left);
      assert ([z.val] + rest.vals)[1..] == rest.vals;
    }
  }

  // ---------------------------------------------------------------- the constructors

  /** The node allowance of one construction, shared by all its branches. */
  class BuildBudget {
    var left: nat

    constructor ()
      ensures left == MAX_NODES
    {
      left := MAX_NODES;
    }

    method Take() returns (ok: bool)
      modifies this
      ensures ok <==> old(left) > 0
      ensures left == if ok then old(left) - 1 else old(left)
    {
      if left <= 0 {
        return false;
      }
      left := left - 1;
      return true;
    }
  }

  method MakeAt(reg: Registry, name: string, depth: nat, b: BuildBudget) returns (v: Val, err: bool)
    requires PrimitivesCompiled(reg)
    modifies b
    ensures Built(v, b.left, err) == NewAt(reg, name, depth, old(b.left))
    decreases Height(depth), 1
  {
    match Lookup(reg, name)
    case None => return NilIface, false;
    case Some(Found(owner, Runtime(bp))) =>
      LookupPrimitive(reg, name);
      v, err := MakeObjectAt(owner, bp, depth, b);
    case Some(Found(_, Proto(_, _))) => return ProtoZero(reg, name), false;
  }

  method MakeObjectAt(reg: Registry, bp: Blueprint, depth: nat, b: BuildBudget) returns (v: Val, err: bool)
    requires PrimitivesCompiled(reg)
    modifies b
    ensures Built(v, b.left, err) == ObjectAt(reg, bp, depth, old(b.left))
    decreases Height(depth), 0
  {
    if depth > Ledger.MAX_DEPTH {
      return NilIface, true;
    }
    var ok := b.Take();
    if !ok {
      return NilIface, true;
    }
    var invalid := ValidateBlueprint(bp);
    if invalid.Some? {
      return NilIface, false;
    }
    if bp.IsAlias() {
      var u := ProtoZero(reg, bp.underlying);
      return if u.Leaf? then Alias(bp, u.kind, u.payload) else NilIface, false;
    }
    ghost var all := ZeroFields(reg, bp.fields, depth + 1, b.left);
    var vals: seq<Val> := [];
    for i := 0 to |bp.fields|
      invariant var rest := ZeroFields(reg, bp.fields[i..], depth + 1, b.left);
                all == BuiltFields(vals + rest.vals, rest.left, rest.err)
    {
      assert bp.fields[i..][0] == bp.fields[i] && bp.fields[i..][1..] == bp.fields[i + 1..];
      var z, zerr := MakeZero(reg, bp.fields[i].spec, depth + 1, b);
      if zerr {
        return NilIface, true;
      }
      vals := vals + [z];
    }
    assert vals + [] == vals;
    return Struct(bp, vals), false;
  }

  method MakeZero(reg: Registry, spec: Spec, depth: nat, b: BuildBudget) returns (v: Val, err: bool)
    requires PrimitivesCompiled(reg)
    modifies b
    ensures Built(v, b.left, err) == SpecZero(reg, spec, depth, old(b.left))
    decreases Height(depth), 2
  {
    match spec
    case Primitive(p) => return ProtoZero(reg, p), false;
    case Ref(t) => v, err := MakeAt(reg, t, depth, b);
    case _ => return CarrierZero(reg, spec), false;
  }

  /** `Blueprints.New` on a fresh budget. */
  method Make(reg: Registry, name: string) returns (v: Val)
    requires PrimitivesCompiled(reg)
    ensures v == New(reg, name)
  {
    var b := new BuildBudget();
    var err;
    v, err := MakeAt(reg, name, 0, b);
  }
}
