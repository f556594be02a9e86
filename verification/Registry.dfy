/**
 * Registration. Whatever run of Add and RegisterBlueprint built a registry chain, its
 * runtime references are closed and acyclic, as the names resolve from every level of it.
 */
module Registries {
  import opened Wrappers
  import opened Schema
  import Construct

  // ---------------------------------------------------------------- the registration rules

  /** Every name a Blueprint needs before it: its references, or its underlying primitive. */
  ghost function Needs(b: Blueprint): set<string> {
    if b.IsAlias() then {b.underlying}
    else set i | 0 <= i < |b.fields| && ReferencedType(b.fields[i].spec) != "" :: ReferencedType(b.fields[i].spec)
  }

  ghost predicate Reachable(reg: Registry, b: Blueprint) { forall r :: r in Needs(b) ==> Has(reg, r) }

  ghost function RegisterErr(reg: Registry, b: Blueprint): Option<Err> {
    if !ValidBlueprint(b) then Some(Invalid)
    else if Has(reg, b.typ) then Some(Registered)
    else if !Reachable(reg, b) then Some(Invalid)
    else None
  }

  ghost function RegisterHere(reg: Registry, b: Blueprint): Registry {
    if RegisterErr(reg, b).None? then reg.(entries := reg.entries[b.typ := Runtime(b)]) else reg
  }

  /** What Add is given: a prototype, and its `Type` when it is itself a populated Blueprint. */
  datatype Prototype = Prototype(name: string, kind: Kind, derived: Option<Blueprint>, blueprintType: string)

  predicate Addable(p: Prototype) { p.name != "" && p.blueprintType == "" }

  /** In order, up to the first name that exists; what came before it stays. */
  function AddHere(reg: Registry, ps: seq<Prototype>): Registry
    decreases |ps|
  {
    if ps == [] || Has(reg, ps[0].name) then reg
    else AddHere(reg.(entries := reg.entries[ps[0].name := Proto(ps[0].kind, ps[0].derived)]), ps[1..])
  }

  predicate AllAddable(ps: seq<Prototype>) { forall i :: 0 <= i < |ps| ==> Addable(ps[i]) }

  // ---------------------------------------------------------------- every run

  /** One call, on the registry `level` parents up from the one at hand. */
  datatype Op = Register(level: nat, bp: Blueprint) | Add(level: nat, ps: seq<Prototype>)

  ghost function Apply(reg: Registry, op: Op): Registry
    decreases reg
  {
    if op.level > 0 && reg.parent.Some? then reg.(parent := Some(Apply(reg.parent.value, op.(level := op.level - 1))))
    else
      match op
      case Register(_, b) => RegisterHere(reg, b)
      case Add(_, ps) => if AllAddable(ps) then AddHere(reg, ps) else reg
  }

  ghost function Run(reg: Registry, ops: seq<Op>): Registry
    decreases |ops|
  {
    if ops == [] then reg else Run(Apply(reg, ops[0]), ops[1..])
  }

  // ---------------------------------------------------------------- closed and acyclic

  /** The entry that a name resolves to from here, as every read and every construction resolves it. */
  function Shown(reg: Registry, n: string): Option<RegEntry> {
    var f := Lookup(reg, n);
    if f.Some? then Some(f.value.entry) else None
  }

  /** A reference between names as they resolve from here: `n` is a runtime Blueprint that needs `r`. */
  ghost predicate Edge(reg: Registry, n: string, r: string) {
    Shown(reg, n).Some? && Shown(reg, n).value.Runtime? && r in Needs(Shown(reg, n).value.bp)
  }

  /** A rank on exactly the names that resolve from here, falling along every reference. */
  ghost predicate RankOk(reg: Registry, rank: map<string, nat>) {
    && (forall n :: n in rank <==> Has(reg, n))
    && (forall n, r :: Edge(reg, n, r) ==> n in rank && r in rank && rank[r] < rank[n])
  }

  ghost predicate Ranked(reg: Registry) { exists rank :: RankOk(reg, rank) }

  /**
   * From every level of the chain, runtime Blueprints are valid and filed under their names,
   * and the references of the names that resolve from there are closed and acyclic.
   */
  ghost predicate Inv(reg: Registry) {
    && (forall n :: n in reg.entries ==> n != "" && (reg.entries[n].Runtime? ==> RuntimeOk(reg, n, reg.entries[n].bp)))
    && Ranked(reg)
    && (reg.parent.Some? ==> Inv(reg.parent.value))
  }

  ghost predicate RuntimeOk(reg: Registry, n: string, b: Blueprint) {
    b.typ == n && ValidBlueprint(b) && Reachable(reg, b)
  }

  ghost predicate RefWalk(reg: Registry, p: seq<string>) {
    forall i :: 0 <= i < |p| - 1 ==> Edge(reg, p[i], p[i + 1])
  }

  lemma {:induction false} RankFalls(reg: Registry, rank: map<string, nat>, p: seq<string>)
    requires RankOk(reg, rank) && |p| >= 2 && RefWalk(reg, p)
    ensures p[0] in rank && p[|p| - 1] in rank && rank[p[|p| - 1]] < rank[p[0]]
    decreases |p|
  {
    assert Edge(reg, p[0], p[1]);
    if |p| > 2 {
      RankFalls(reg, rank, p[1..]);
    }
  }

  /** No chain of references, resolved from any level, comes back to where it started. */
  lemma NoReferenceCycle(reg: Registry, p: seq<string>)
    requires Inv(reg) && |p| >= 2 && RefWalk(reg, p)
    ensures p[0] != p[|p| - 1] && Has(reg, p[|p| - 1])
  {
    var rank :| RankOk(reg, rank);
    RankFalls(reg, rank, p);
  }

  /** A Blueprint that refers to itself, in a slice, array or map too, is never registered. */
  lemma SelfRefused(reg: Registry, b: Blueprint)
    requires b.typ in Needs(b)
    ensures RegisterErr(reg, b).Some? && RegisterHere(reg, b) == reg
  {
  }

  // ---------------------------------------------------------------- closed, as readers look names up

  /** What the decoder and the constructor look up for a field is there. */
  predicate FieldResolves(reg: Registry, spec: Spec) {
    match spec
    case Slice(t) => Construct.ElemResolves(reg, t)
    case Array(t, _) => Construct.ElemResolves(reg, t)
    case Map(_, t) => Construct.ElemResolves(reg, t)
    case Ref(t) => Has(reg, t)
    case Ptr(t) => Has(reg, t)
    case Primitive(_) => true
    case AnyObject => true
  }

  ghost predicate FieldsResolve(reg: Registry, fields: seq<Field>) {
    forall i :: 0 <= i < |fields| ==> FieldResolves(reg, fields[i].spec)
  }

  lemma NeedAt(b: Blueprint, i: nat)
    requires !b.IsAlias() && i < |b.fields| && ReferencedType(b.fields[i].spec) != ""
    ensures ReferencedType(b.fields[i].spec) in Needs(b)
  {
  }

  /** The needs of a valid struct Blueprint are there exactly when everything its fields look up is. */
  lemma ReachableExactly(reg: Registry, b: Blueprint)
    requires ValidBlueprint(b)
    ensures Reachable(reg, b) <==> if b.IsAlias() then Has(reg, b.underlying) else FieldsResolve(reg, b.fields)
  {
    if !b.IsAlias() {
      forall i | 0 <= i < |b.fields|
        ensures FieldResolves(reg, b.fields[i].spec) <==>
                ReferencedType(b.fields[i].spec) == "" || Has(reg, ReferencedType(b.fields[i].spec))
      {
        assert ValidField(b.typ, b.fields[i]);
      }
      if Reachable(reg, b) {
        forall i | 0 <= i < |b.fields|
          ensures FieldResolves(reg, b.fields[i].spec)
        {
          if ReferencedType(b.fields[i].spec) != "" { NeedAt(b, i); }
        }
      }
    }
  }

  /**
   * RegisterBlueprint accepts exactly a valid Blueprint under a new name whose fields find
   * everything that reading or constructing them looks up.
   */
  lemma RegisterExact(reg: Registry, b: Blueprint)
    ensures RegisterErr(reg, b).None? <==>
            && ValidBlueprint(b) && !Has(reg, b.typ)
            && if b.IsAlias() then Has(reg, b.underlying) else FieldsResolve(reg, b.fields)
  {
    if ValidBlueprint(b) {
      ReachableExactly(reg, b);
    }
  }

  /** Names that resolve where a Blueprint is stored resolve from every level below. */
  lemma {:induction false} OwnerInv(reg: Registry, n: string)
    requires Inv(reg) && Has(reg, n)
    ensures Inv(Lookup(reg, n).value.owner)
    ensures forall m :: Has(Lookup(reg, n).value.owner, m) ==> Has(reg, m)
    decreases reg
  {
    if n !in reg.entries {
      OwnerInv(reg.parent.value, n);
    }
  }

  /** After any run, whatever a registered Blueprint's fields look up is there, at its own level and from below. */
  lemma RegisteredResolves(reg: Registry, n: string)
    requires Inv(reg) && IsRuntime(reg, n)
    ensures var f := Lookup(reg, n).value;
            if f.entry.bp.IsAlias() then Has(f.owner, f.entry.bp.underlying) && Has(reg, f.entry.bp.underlying)
            else FieldsResolve(f.owner, f.entry.bp.fields) && FieldsResolve(reg, f.entry.bp.fields)
  {
    OwnerInv(reg, n);
    var f := Lookup(reg, n).value;
    assert RuntimeOk(f.owner, n, f.entry.bp);
    ReachableExactly(f.owner, f.entry.bp);
  }

  // ---------------------------------------------------------------- how a chain grows

  lemma HasHere(reg: Registry, n: string, m: string, e: RegEntry)
    ensures Has(reg.(entries := reg.entries[n := e]), m) <==> m == n || Has(reg, m)
  {
  }

  /**
   * What one call does to the names that resolve from a level: those that did still do, to the
   * same entries, and a new one is a prototype, or the Blueprint `b`, whose needs resolved before.
   */
  ghost predicate Grows(reg: Registry, after: Registry, b: Option<Blueprint>) {
    && (forall n :: Has(reg, n) ==> Shown(after, n) == Shown(reg, n))
    && (forall n :: Has(after, n) && !Has(reg, n) ==> Shown(after, n).value.Proto? || NewRuntime(reg, after, n, b))
  }

  ghost predicate NewRuntime(reg: Registry, after: Registry, n: string, b: Option<Blueprint>) {
    b.Some? && n == b.value.typ && Shown(after, n) == Some(Runtime(b.value)) && Reachable(reg, b.value)
  }

  lemma RegisterGrows(reg: Registry, b: Blueprint)
    ensures Grows(reg, RegisterHere(reg, b), Some(b))
  {
  }

  lemma AddOneGrows(reg: Registry, n: string, e: RegEntry)
    requires !Has(reg, n) && e.Proto?
    ensures Grows(reg, reg.(entries := reg.entries[n := e]), None)
  {
  }

  lemma {:induction false} AddGrows(reg: Registry, ps: seq<Prototype>)
    ensures Grows(reg, AddHere(reg, ps), None)
    decreases |ps|
  {
    if ps != [] && !Has(reg, ps[0].name) {
      var e := Proto(ps[0].kind, ps[0].derived);
      var next := reg.(entries := reg.entries[ps[0].name := e]);
      AddOneGrows(reg, ps[0].name, e);
      AddGrows(next, ps[1..]);
      var after := AddHere(reg, ps);
      forall n | Has(reg, n)
        ensures Shown(after, n) == Shown(reg, n)
      {
        assert Has(next, n);
      }
      forall n | Has(after, n) && !Has(reg, n)
        ensures Shown(after, n).value.Proto?
      {
        assert Has(next, n) ==> Shown(after, n) == Shown(next, n);
      }
    }
  }

  /** What a parent gains, its children see, unless they had the name themselves. */
  lemma GrowsBelow(reg: Registry, p: Registry, b: Option<Blueprint>)
    requires reg.parent.Some? && Grows(reg.parent.value, p, b)
    ensures Grows(reg, reg.(parent := Some(p)), b)
  {
    var after := reg.(parent := Some(p));
    forall n | Has(reg, n)
      ensures Shown(after, n) == Shown(reg, n)
    {
      if n !in reg.entries {
        assert Has(reg.parent.value, n);
      }
    }
    forall n | Has(after, n) && !Has(reg, n)
      ensures Shown(after, n).value.Proto? || NewRuntime(reg, after, n, b)
    {
      assert Has(p, n) && !Has(reg.parent.value, n) && Shown(after, n) == Shown(p, n);
      if NewRuntime(reg.parent.value, p, n, b) {
        assert Reachable(reg, b.value);
      }
    }
  }

  function BlueprintOf(op: Op): Option<Blueprint> { if op.Register? then Some(op.bp) else None }

  lemma {:induction false} ApplyGrows(reg: Registry, op: Op)
    ensures Grows(reg, Apply(reg, op), BlueprintOf(op))
    decreases reg
  {
    if op.level > 0 && reg.parent.Some? {
      var up := op.(level := op.level - 1);
      ApplyGrows(reg.parent.value, up);
      GrowsBelow(reg, Apply(reg.parent.value, up), BlueprintOf(op));
    } else {
      match op
      case Register(_, b) => RegisterGrows(reg, b);
      case Add(_, ps) => AddGrows(reg, ps);
    }
  }

  // ---------------------------------------------------------------- what every call keeps

  ghost function Top(rank: map<string, nat>): (t: nat)
    ensures forall n :: n in rank ==> rank[n] < t
  {
    if rank == map[] then 0
    else
      var n :| n in rank;
      var rest := rank - {n};
      var t := Top(rest);
      assert forall x :: x in rank && x != n ==> x in rest;
      if t > rank[n] then t else rank[n] + 1
  }

  /** The names that resolve from here. */
  function Names(reg: Registry): (s: set<string>)
    ensures forall n :: n in s <==> Has(reg, n)
  {
    reg.entries.Keys + if reg.parent.Some? then Names(reg.parent.value) else {}
  }

  /** A name that resolves for the first time ranks above all others: nothing can reference it yet. */
  lemma GrowsRanked(reg: Registry, after: Registry, b: Option<Blueprint>)
    requires Ranked(reg) && Grows(reg, after, b)
    ensures Ranked(after)
  {
    var rank :| RankOk(reg, rank);
    var next := map n | n in Names(after) :: if n in rank then rank[n] else Top(rank);
    forall n, r | Edge(after, n, r)
      ensures n in next && r in next && next[r] < next[n]
    {
      EdgeBefore(reg, after, b, rank, n, r);
    }
    assert RankOk(after, next);
  }

  lemma EdgeBefore(reg: Registry, after: Registry, b: Option<Blueprint>, rank: map<string, nat>, n: string, r: string)
    requires RankOk(reg, rank) && Grows(reg, after, b) && Edge(after, n, r)
    ensures Has(after, n) && Has(after, r) && r in rank && (n in rank ==> rank[r] < rank[n])
  {
    if Has(reg, n) {
      assert Edge(reg, n, r);
    } else {
      assert NewRuntime(reg, after, n, b);
    }
    assert Has(reg, r);
    assert Shown(after, r) == Shown(reg, r);
  }

  /** Entries of a level stay, and new ones satisfy the rules. */
  lemma EntriesKept(reg: Registry, after: Registry, b: Option<Blueprint>)
    requires Inv(reg) && Grows(reg, after, b) && reg.entries.Keys <= after.entries.Keys
    requires forall n :: n in after.entries && n !in reg.entries ==> n != "" && !Has(reg, n)
    requires b.Some? ==> b.value.typ in reg.entries || b.value.typ !in after.entries || ValidBlueprint(b.value)
    ensures forall n :: n in after.entries ==>
              n != "" && (after.entries[n].Runtime? ==> RuntimeOk(after, n, after.entries[n].bp))
  {
    forall n | n in after.entries && after.entries[n].Runtime?
      ensures RuntimeOk(after, n, after.entries[n].bp)
    {
      var bp := after.entries[n].bp;
      assert Shown(after, n) == Some(after.entries[n]);
      if n in reg.entries {
        assert Shown(reg, n) == Some(reg.entries[n]) && Has(reg, n);
        assert RuntimeOk(reg, n, reg.entries[n].bp);
      } else {
        assert NewRuntime(reg, after, n, b);
      }
      ReachableStays(reg, after, b, bp);
    }
  }

  lemma ReachableStays(reg: Registry, after: Registry, b: Option<Blueprint>, bp: Blueprint)
    requires Grows(reg, after, b) && Reachable(reg, bp)
    ensures Reachable(after, bp)
  {
    forall r | r in Needs(bp)
      ensures Has(after, r)
    {
      assert Has(reg, r) && Shown(after, r) == Shown(reg, r);
    }
  }

  lemma {:induction false} AddedFresh(reg: Registry, ps: seq<Prototype>)
    requires AllAddable(ps)
    ensures AddHere(reg, ps).parent == reg.parent && reg.entries.Keys <= AddHere(reg, ps).entries.Keys
    ensures forall n :: n in AddHere(reg, ps).entries && n !in reg.entries ==> n != "" && !Has(reg, n)
    decreases |ps|
  {
    if ps != [] && !Has(reg, ps[0].name) {
      var next := reg.(entries := reg.entries[ps[0].name := Proto(ps[0].kind, ps[0].derived)]);
      AddedFresh(next, ps[1..]);
      forall n | Has(reg, n)
        ensures Has(next, n)
      {
        HasHere(reg, ps[0].name, n, Proto(ps[0].kind, ps[0].derived));
      }
    }
  }

  lemma {:induction false} ApplyKeeps(reg: Registry, op: Op)
    requires Inv(reg)
    ensures Inv(Apply(reg, op))
    decreases reg
  {
    var after := Apply(reg, op);
    ApplyGrows(reg, op);
    GrowsRanked(reg, after, BlueprintOf(op));
    if op.level > 0 && reg.parent.Some? {
      ApplyKeeps(reg.parent.value, op.(level := op.level - 1));
    } else if op.Add? && AllAddable(op.ps) {
      AddedFresh(reg, op.ps);
    }
    EntriesKept(reg, after, BlueprintOf(op));
  }

  /** After any run of calls at any levels, references are closed and acyclic as every level resolves them. */
  lemma {:induction false} RunKeeps(reg: Registry, ops: seq<Op>)
    requires Inv(reg)
    ensures Inv(Run(reg, ops))
    decreases |ops|
  {
    if ops != [] {
      ApplyKeeps(reg, ops[0]);
      RunKeeps(Apply(reg, ops[0]), ops[1..]);
    }
  }

  /** What a name resolves to never changes, whatever is registered later and wherever. */
  lemma {:induction false} ResolutionStays(reg: Registry, ops: seq<Op>, n: string)
    requires Has(reg, n)
    ensures Shown(Run(reg, ops), n) == Shown(reg, n)
    decreases |ops|
  {
    if ops != [] {
      ApplyGrows(reg, ops[0]);
      assert Has(Apply(reg, ops[0]), n);
      ResolutionStays(Apply(reg, ops[0]), ops[1..], n);
    }
  }

  /** The empty chain of any height, where every run starts. */
  function EmptyChain(height: nat): Registry {
    Registry(map[], if height == 0 then None else Some(EmptyChain(height - 1)))
  }

  lemma {:induction false} EmptyInv(height: nat)
    ensures Inv(EmptyChain(height))
  {
    NothingShown(height);
    if height > 0 {
      EmptyInv(height - 1);
    }
  }

  lemma {:induction false} NothingShown(height: nat)
    ensures forall n :: !Has(EmptyChain(height), n)
    ensures Ranked(EmptyChain(height))
  {
    if height > 0 {
      NothingShown(height - 1);
    }
    var rank: map<string, nat> := map[];
    assert RankOk(EmptyChain(height), rank);
  }

  // ---------------------------------------------------------------- registries the codec can rely on

  /** Every allowlisted primitive resolves from every level. */
  ghost predicate Stocked(reg: Registry) {
    && (forall n {:trigger IsPrimitive(n)} :: IsPrimitive(n) ==> Has(reg, n))
    && (reg.parent.Some? ==> Stocked(reg.parent.value))
  }

  /** A chain that has the primitives as prototypes, and whose entries are valid. */
  ghost predicate Fit(reg: Registry) { Stocked(reg) && PrimitivesCompiled(reg) && ValidEntries(reg) }

  /** The prototypes that a call adds have sound codecs. */
  ghost predicate SoundPrototypes(ps: seq<Prototype>) { forall i :: 0 <= i < |ps| ==> ValidKind(ps[i].kind) }

  ghost predicate SoundOp(op: Op) { op.Add? ==> SoundPrototypes(op.ps) }

  lemma EntryFit(reg: Registry, n: string, e: RegEntry)
    requires Fit(reg) && !Has(reg, n) && ValidEntry(n, e)
    ensures Fit(reg.(entries := reg.entries[n := e]))
  {
    var after := reg.(entries := reg.entries[n := e]);
    forall m | Has(reg, m)
      ensures Has(after, m)
    {
      HasHere(reg, n, m, e);
    }
  }

  lemma {:induction false} AddFit(reg: Registry, ps: seq<Prototype>)
    requires Fit(reg) && AllAddable(ps) && SoundPrototypes(ps)
    ensures Fit(AddHere(reg, ps))
    decreases |ps|
  {
    if ps != [] && !Has(reg, ps[0].name) {
      var e := Proto(ps[0].kind, ps[0].derived);
      EntryFit(reg, ps[0].name, e);
      AddFit(reg.(entries := reg.entries[ps[0].name := e]), ps[1..]);
    }
  }

  lemma {:induction false} ApplyFit(reg: Registry, op: Op)
    requires Fit(reg) && SoundOp(op)
    ensures Fit(Apply(reg, op))
    decreases reg
  {
    if op.level > 0 && reg.parent.Some? {
      ApplyFit(reg.parent.value, op.(level := op.level - 1));
      ApplyGrows(reg, op);
      forall n | Has(reg, n)
        ensures Has(Apply(reg, op), n)
      {
        assert Shown(Apply(reg, op), n) == Shown(reg, n);
      }
    } else {
      match op
      case Register(_, b) =>
        if RegisterErr(reg, b).None? {
          EntryFit(reg, b.typ, Runtime(b));
        }
      case Add(_, ps) =>
        if AllAddable(ps) {
          AddFit(reg, ps);
        }
    }
  }

  /**
   * Once the primitives are in place, no run of registrations takes one over or leaves an
   * invalid entry: what construction and the codec ask of a registry holds from then on.
   */
  lemma {:induction false} RunFit(reg: Registry, ops: seq<Op>)
    requires Fit(reg) && forall i :: 0 <= i < |ops| ==> SoundOp(ops[i])
    ensures Fit(Run(reg, ops))
    decreases |ops|
  {
    if ops != [] {
      ApplyFit(reg, ops[0]);
      RunFit(Apply(reg, ops[0]), ops[1..]);
    }
  }

  /** In such a chain every alias finds its primitive where it was registered. */
  lemma {:induction false} FitCloses(reg: Registry)
    requires Fit(reg)
    ensures Construct.AliasesClosed(reg)
    decreases reg
  {
    forall n | n in reg.entries && reg.entries[n].Runtime? && reg.entries[n].bp.IsAlias()
      ensures Has(reg, reg.entries[n].bp.underlying)
    {
      assert ValidEntry(n, reg.entries[n]);
    }
    if reg.parent.Some? {
      FitCloses(reg.parent.value);
    }
  }
}
