/** `AllBlueprints`, and replaying its list into a peer. */
module Sync {
  import opened Wrappers
  import opened Bytes
  import opened Schema
  import opened Order
  import opened Registries

  // ---------------------------------------------------------------- lists that replay

  function Types(bps: seq<Blueprint>): set<string> { Elements(TypesOf(bps)) }

  lemma TypesSnoc(bps: seq<Blueprint>, b: Blueprint)
    ensures Types(bps + [b]) == Types(bps) + {b.typ}
  {
    assert TypesOf(bps + [b]) == TypesOf(bps) + [b.typ];
  }

  /** Valid Blueprints under distinct names. */
  ghost predicate Tidy(list: seq<Blueprint>)
    decreases |list|
  {
    list == [] ||
    var n := |list| - 1;
    Tidy(list[..n]) && ValidBlueprint(list[n]) && list[n].typ !in Types(list[..n])
  }

  /** A peer that knows `known` and has taken `before` has, or can take, `b`. */
  ghost predicate Met(known: set<string>, before: set<string>, b: Blueprint) {
    b.typ in known || Needs(b) <= known + before
  }

  /** Tidy, and each entry is known or comes after everything it needs that is not. */
  ghost predicate Replayable(known: set<string>, list: seq<Blueprint>)
    decreases |list|
  {
    list == [] ||
    var n := |list| - 1;
    && Replayable(known, list[..n])
    && ValidBlueprint(list[n]) && list[n].typ !in Types(list[..n])
    && Met(known, Types(list[..n]), list[n])
  }

  lemma ReplayableSnoc(known: set<string>, list: seq<Blueprint>, b: Blueprint)
    requires Tidy(list) && ValidBlueprint(b) && b.typ !in Types(list)
    ensures Tidy(list + [b]) && Types(list + [b]) == Types(list) + {b.typ}
    ensures Replayable(known, list) && Met(known, Types(list), b) ==> Replayable(known, list + [b])
  {
    assert (list + [b])[..|list|] == list;
    TypesSnoc(list, b);
  }

  lemma {:induction false} ReplayablePrefix(known: set<string>, list: seq<Blueprint>, k: nat)
    requires Replayable(known, list) && k <= |list|
    ensures Replayable(known, list[..k])
    ensures k < |list| ==> list[k].typ !in Types(list[..k]) && Met(known, Types(list[..k]), list[k])
    decreases |list|
  {
    var n := |list| - 1;
    if k == |list| {
      assert list[..k] == list;
    } else if k < n {
      ReplayablePrefix(known, list[..n], k);
      assert list[..n][..k] == list[..k];
    }
  }

  /** RegisterBlueprint on the peer, for every entry in order. */
  ghost function Replay(peer: Registry, list: seq<Blueprint>): Registry
    decreases |list|
  {
    if list == [] then peer else RegisterHere(Replay(peer, list[..|list| - 1]), list[|list| - 1])
  }

  lemma EntryTaken(before: Registry, known: set<string>, listed: set<string>, b: Blueprint)
    requires ValidBlueprint(b) && Met(known, listed, b) && forall n :: n in known + listed ==> Has(before, n)
    ensures RegisterErr(before, b) in {None, Some(Registered)} && Has(RegisterHere(before, b), b.typ)
  {
  }

  /**
   * Replaying such a list registers every entry: at its turn an entry is refused only
   * because the peer has the name already, and one the peer lacked is stored as it is.
   */
  lemma {:induction false} ReplayRegisters(peer: Registry, known: set<string>, list: seq<Blueprint>)
    requires Replayable(known, list) && forall n :: n in known ==> Has(peer, n)
    ensures forall n :: Has(Replay(peer, list), n) <==> Has(peer, n) || n in Types(list)
    ensures forall i :: 0 <= i < |list| && !Has(peer, list[i].typ) ==>
              list[i].typ in Replay(peer, list).entries && Replay(peer, list).entries[list[i].typ] == Runtime(list[i])
    ensures list != [] ==> RegisterErr(Replay(peer, list[..|list| - 1]), list[|list| - 1]) in {None, Some(Registered)}
    decreases |list|
  {
    if list != [] {
      var n := |list| - 1;
      var before := Replay(peer, list[..n]);
      ReplayRegisters(peer, known, list[..n]);
      TypesSnoc(list[..n], list[n]);
      assert list == list[..n] + [list[n]];
      EntryTaken(before, known, Types(list[..n]), list[n]);
      forall m
        ensures Has(Replay(peer, list), m) <==> Has(peer, m) || m in Types(list)
      {
        HasHere(before, list[n].typ, m, Runtime(list[n]));
      }
      forall i | 0 <= i < n
        ensures list[i].typ != list[n].typ
      {
        assert TypesOf(list[..n])[i] == list[i].typ;
      }
      forall i | 0 <= i < |list| && !Has(peer, list[i].typ)
        ensures list[i].typ in Replay(peer, list).entries && Replay(peer, list).entries[list[i].typ] == Runtime(list[i])
      {
        if i < n {
          assert list[..n][i] == list[i];
        }
      }
    }
  }

  /** On a peer with exactly the known names, a tidy list that does not replay leaves out one of its names. */
  lemma {:induction false} ReplayMisses(peer: Registry, known: set<string>, list: seq<Blueprint>) returns (m: string)
    requires Tidy(list) && !Replayable(known, list) && forall n :: n in known <==> Has(peer, n)
    ensures m in Types(list) && !Has(Replay(peer, list), m)
    decreases |list|
  {
    var n := |list| - 1;
    var before := Replay(peer, list[..n]);
    TypesSnoc(list[..n], list[n]);
    assert list == list[..n] + [list[n]];
    if Replayable(known, list[..n]) {
      ReplayRegisters(peer, known, list[..n]);
      assert !Reachable(before, list[n]);
      m := list[n].typ;
    } else {
      m := ReplayMisses(peer, known, list[..n]);
      HasHere(before, list[n].typ, m, Runtime(list[n]));
    }
  }

  // ---------------------------------------------------------------- what the registry must provide

  function BlueprintAt(e: RegEntry): Option<Blueprint> {
    match e
    case Runtime(b) => Some(b)
    case Proto(_, d) => d
  }

  /**
   * What derivation gives for compile-time entries: a Blueprint that is valid and named as its
   * entry, or none for a prototype that peers know. Derived structs may need themselves, each
   * other in a circle, runtime Blueprints, or names that nobody has registered.
   */
  ghost predicate Compiled(reg: Registry, known: set<string>) {
    && (forall n :: n in reg.entries && reg.entries[n].Proto? ==> CompiledEntry(known, n, reg.entries[n].derived))
    && (reg.parent.Some? ==> Compiled(reg.parent.value, known))
  }

  ghost predicate CompiledEntry(known: set<string>, n: string, d: Option<Blueprint>) {
    match d
    case None => n in known
    case Some(b) => ValidBlueprint(b) && b.typ == n
  }

  predicate RuntimeStruct(entries: map<string, RegEntry>, n: string) {
    n in entries && entries[n].Runtime? && !entries[n].bp.IsAlias()
  }

  // ---------------------------------------------------------------- when the list replays

  /** The names that AllBlueprints lists. */
  function ListedNames(reg: Registry): set<string>
    decreases reg, 1
  {
    Inherited(reg) + set n | n in reg.entries && BlueprintAt(reg.entries[n]).Some?
  }

  function Inherited(reg: Registry): set<string>
    decreases reg, 0
  {
    if reg.parent.Some? then ListedNames(reg.parent.value) else {}
  }

  /** Unseen prototypes that have no Blueprint and are no primitives: their derivation is reported as an error. */
  function Undescribed(entries: map<string, RegEntry>, seen: set<string>): set<string> {
    set n | n in entries && n !in seen && BlueprintAt(entries[n]).None? && !IsPrimitive(n)
  }

  /** The derivation errors of the whole chain, by name. */
  function FailedNames(reg: Registry): set<string>
    decreases reg
  {
    Undescribed(reg.entries, Inherited(reg)) + if reg.parent.Some? then FailedNames(reg.parent.value) else {}
  }

  /** What is reported is registered, and is no primitive. */
  lemma {:induction false} ReportedNames(reg: Registry, n: string)
    requires n in FailedNames(reg)
    ensures !IsPrimitive(n) && Has(reg, n)
    decreases reg
  {
    if n !in Undescribed(reg.entries, Inherited(reg)) {
      ReportedNames(reg.parent.value, n);
    }
  }

  /** A derived struct that this level lists. */
  predicate ListsDerived(reg: Registry, n: string) {
    && n in reg.entries && n !in Inherited(reg) && reg.entries[n].Proto?
    && reg.entries[n].derived.Some? && !reg.entries[n].derived.value.IsAlias()
  }

  /** The references among the derived structs that this level lists, self-references dropped. */
  ghost function LevelGraph(reg: Registry): Graph {
    map n | n in reg.entries && ListsDerived(reg, n) ::
      set r | r in Needs(reg.entries[n].derived.value) && r != n && ListsDerived(reg, r)
  }

  /** Among the derived structs of the level, `r` is listed before `n`, which needs it. */
  ghost predicate InTime(reg: Registry, n: string, r: string) {
    ListsDerived(reg, r) ==> !LeadsRound(LevelGraph(reg), r) || NameLess(r, n)
  }

  /** Peers know `r`, or it is listed before the derived struct `n` that needs it. */
  ghost predicate Served(reg: Registry, known: set<string>, n: string, r: string) {
    || r in known || r in Inherited(reg)
    || (r in reg.entries && BlueprintAt(reg.entries[r]).Some? && r != n && !RuntimeStruct(reg.entries, r) && InTime(reg, n, r))
  }

  /** No derived struct that is listed, and that peers do not know, needs what comes too late. */
  ghost predicate Orderly(reg: Registry, known: set<string>) {
    && (forall n, r :: ListsDerived(reg, n) && n !in known && r in Needs(reg.entries[n].derived.value) ==> Served(reg, known, n, r))
    && (reg.parent.Some? ==> Orderly(reg.parent.value, known))
  }

  /** Derived structs of some level need each other in a circle. */
  ghost predicate Circular(reg: Registry) {
    HasCycle(LevelGraph(reg)) || (reg.parent.Some? && Circular(reg.parent.value))
  }

  /**
   * On a chain that has all it references, what comes too late is the struct itself, a runtime
   * struct of its level, or a derived one that leads into a circle and sorts after it.
   */
  lemma UnservedExactly(reg: Registry, known: set<string>, n: string, r: string)
    requires Inv(reg) && Compiled(reg, known) && ListsDerived(reg, n) && Has(reg, r)
    ensures !Served(reg, known, n, r) <==>
            && r !in known && r !in Inherited(reg)
            && (r == n || RuntimeStruct(reg.entries, r) || !InTime(reg, n, r))
  {
    if r in reg.entries {
      match reg.entries[r]
      case Runtime(b) => assert RuntimeOk(reg, r, b);
      case Proto(_, d) => assert CompiledEntry(known, r, d);
    } else {
      HasListed(reg.parent.value, known, r);
    }
  }

  /** Structs that peers do not know and that need each other in a circle are never in order. */
  lemma CircleDisorders(reg: Registry, known: set<string>, p: seq<string>)
    requires |p| >= 2 && p[0] == p[|p| - 1] && Walk(LevelGraph(reg), p) && forall n :: n in p ==> n !in known
    ensures !Orderly(reg, known)
  {
    if Orderly(reg, known) {
      RoundSorts(reg, known, p, p);
      LessIrreflexive(NameBytes(p[0]));
    }
  }

  /** On an orderly level names fall alphabetically along a walk that leads round. */
  lemma {:induction false} RoundSorts(reg: Registry, known: set<string>, p: seq<string>, whole: seq<string>)
    requires Orderly(reg, known) && |p| >= 2 && Walk(LevelGraph(reg), p) && forall n :: n in p ==> n !in known
    requires |whole| >= 2 && whole[0] == whole[|whole| - 1] && Walk(LevelGraph(reg), whole) && p[|p| - 1] == whole[0]
    ensures NameLess(p[|p| - 1], p[0])
    decreases |p|
  {
    var g := LevelGraph(reg);
    var q := p[1..];
    assert p[0] in p && p[1] in p && Step(g, p[0], p[1]);
    JoinWalks(g, q, whole);
    RepeatsRound(g, q, whole);
    assert Served(reg, known, p[0], p[1]);
    assert NameLess(p[1], p[0]);
    if |p| > 2 {
      RoundSorts(reg, known, q, whole);
      LessTransitive(NameBytes(p[|p| - 1]), NameBytes(p[1]), NameBytes(p[0]));
    }
  }

  lemma {:induction false} JoinWalks(g: Graph, p: seq<string>, q: seq<string>)
    requires p != [] && q != [] && Walk(g, p) && Walk(g, q) && p[|p| - 1] == q[0]
    ensures Walk(g, p + q[1..])
    decreases |p|
  {
    if |p| == 1 {
      assert p + q[1..] == q;
    } else {
      JoinWalks(g, p[1..], q);
      assert (p + q[1..])[1..] == p[1..] + q[1..];
    }
  }

  lemma RepeatsRound(g: Graph, p: seq<string>, whole: seq<string>)
    requires p != [] && |whole| >= 2 && whole[0] == whole[|whole| - 1] == p[|p| - 1] && Walk(g, p + whole[1..])
    ensures LeadsRound(g, p[0])
  {
    var w := p + whole[1..];
    assert w[|p| - 1] == w[|w| - 1] && |p| - 1 < |w| - 1;
    assert w[0] == p[0] && !NoDup(w);
  }

  lemma {:induction false} HasListed(reg: Registry, known: set<string>, r: string)
    requires Compiled(reg, known) && Has(reg, r)
    ensures r in known || r in ListedNames(reg)
    decreases reg
  {
    if r in reg.entries {
      if reg.entries[r].Proto? { assert CompiledEntry(known, r, reg.entries[r].derived); }
    } else {
      HasListed(reg.parent.value, known, r);
    }
  }

  lemma {:induction false} ListedHas(reg: Registry, n: string)
    requires n in ListedNames(reg)
    ensures Has(reg, n)
    decreases reg
  {
    if n !in reg.entries {
      ListedHas(reg.parent.value, n);
    }
  }

  ghost predicate KnowsPrimitives(known: set<string>) { forall n :: IsPrimitive(n) ==> n in known }

  // ---------------------------------------------------------------- buckets

  datatype Bucket = Aliases | Protos | Structs

  function BucketOf(e: RegEntry, b: Blueprint): Bucket {
    if b.IsAlias() then Aliases else if e.Proto? then Protos else Structs
  }

  /** `bps` is exactly what the entries named in `done`, and not yet seen, put in bucket `k`. */
  ghost predicate Fills(entries: map<string, RegEntry>, seen: set<string>, done: set<string>, k: Bucket, bps: seq<Blueprint>) {
    && DistinctTypes(bps)
    && (forall b :: b in bps ==> InBucket(entries, seen, done, k, b))
    && (forall n :: n in done && n in entries && n !in seen && BlueprintAt(entries[n]).Some? &&
                    BucketOf(entries[n], BlueprintAt(entries[n]).value) == k
          ==> BlueprintAt(entries[n]).value in bps)
  }

  ghost predicate InBucket(entries: map<string, RegEntry>, seen: set<string>, done: set<string>, k: Bucket, b: Blueprint) {
    && b.typ in done && b.typ in entries && b.typ !in seen
    && BlueprintAt(entries[b.typ]) == Some(b) && BucketOf(entries[b.typ], b) == k
  }

  ghost predicate Named(entries: map<string, RegEntry>) {
    forall n :: n in entries && BlueprintAt(entries[n]).Some? ==> BlueprintAt(entries[n]).value.typ == n
  }

  lemma FillsSkip(entries: map<string, RegEntry>, seen: set<string>, done: set<string>, k: Bucket, bps: seq<Blueprint>, n: string)
    requires Fills(entries, seen, done, k, bps) && n in entries
    requires n in seen || BlueprintAt(entries[n]).None? || BucketOf(entries[n], BlueprintAt(entries[n]).value) != k
    ensures Fills(entries, seen, done + {n}, k, bps)
  {
    forall b | b in bps
      ensures InBucket(entries, seen, done + {n}, k, b)
    {
      assert InBucket(entries, seen, done, k, b);
    }
  }

  lemma FillsTake(entries: map<string, RegEntry>, seen: set<string>, done: set<string>, k: Bucket, bps: seq<Blueprint>, n: string)
    requires Fills(entries, seen, done, k, bps) && Named(entries) && n in entries && n !in seen && n !in done
    requires BlueprintAt(entries[n]).Some? && BucketOf(entries[n], BlueprintAt(entries[n]).value) == k
    ensures Fills(entries, seen, done + {n}, k, bps + [BlueprintAt(entries[n]).value])
  {
    var b := BlueprintAt(entries[n]).value;
    var r := bps + [b];
    forall x | x in r
      ensures InBucket(entries, seen, done + {n}, k, x)
    {
      if x in bps { assert InBucket(entries, seen, done, k, x); }
    }
    assert TypesOf(r) == TypesOf(bps) + [n];
    forall i | 0 <= i < |bps|
      ensures TypesOf(bps)[i] != n
    {
      assert bps[i] in bps && InBucket(entries, seen, done, k, bps[i]);
    }
  }

  /** One walk over the entries, in any order, sorts what is not seen into three buckets and notes what fails. */
  method FillBuckets(entries: map<string, RegEntry>, seen: set<string>)
    returns (aliases: seq<Blueprint>, protos: seq<Blueprint>, structs: seq<Blueprint>, failed: set<string>)
    requires Named(entries)
    ensures Fills(entries, seen, entries.Keys, Aliases, aliases)
    ensures Fills(entries, seen, entries.Keys, Protos, protos)
    ensures Fills(entries, seen, entries.Keys, Structs, structs)
    ensures failed == Undescribed(entries, seen)
  {
    aliases, protos, structs, failed := [], [], [], {};
    var left := entries.Keys;
    ghost var done: set<string> := {};
    while left != {}
      invariant left <= entries.Keys && done == entries.Keys - left
      invariant Fills(entries, seen, done, Aliases, aliases)
      invariant Fills(entries, seen, done, Protos, protos)
      invariant Fills(entries, seen, done, Structs, structs)
      invariant failed == Undescribed(entries, seen) * done
      decreases left
    {
      var n :| n in left;
      left := left - {n};
      var b := BlueprintAt(entries[n]);
      var k := if b.Some? then BucketOf(entries[n], b.value) else Aliases;
      if n !in seen && b.Some? && k == Aliases {
        FillsTake(entries, seen, done, Aliases, aliases, n);
        aliases := aliases + [b.value];
      } else {
        FillsSkip(entries, seen, done, Aliases, aliases, n);
      }
      if n !in seen && b.Some? && k == Protos {
        FillsTake(entries, seen, done, Protos, protos, n);
        protos := protos + [b.value];
      } else {
        FillsSkip(entries, seen, done, Protos, protos, n);
      }
      if n !in seen && b.Some? && k == Structs {
        FillsTake(entries, seen, done, Structs, structs, n);
        structs := structs + [b.value];
      } else {
        FillsSkip(entries, seen, done, Structs, structs, n);
      }
      if n !in seen && b.None? && !IsPrimitive(n) {
        failed := failed + {n};
      }
      assert done + {n} == entries.Keys - left;
      done := done + {n};
    }
  }

  // ---------------------------------------------------------------- appending in order

  /** `names` lists the types of `bps` once each, every one after the unknown ones of `bps` it needs. */
  ghost predicate Arranges(known: set<string>, bps: seq<Blueprint>, names: seq<string>) {
    && NoDup(names) && Elements(names) == Types(bps)
    && forall b, k :: b in bps && 0 <= k < |names| && names[k] == b.typ
         ==> (Needs(b) - known) * (Types(bps) - {b.typ}) <= Elements(names[..k])
  }

  method Find(bps: seq<Blueprint>, name: string) returns (b: Blueprint)
    requires name in Types(bps)
    ensures b in bps && b.typ == name
  {
    var i := 0;
    while bps[i].typ != name
      invariant 0 <= i < |bps| && exists j :: i <= j < |bps| && TypesOf(bps)[j] == name
      decreases |bps| - i
    {
      i := i + 1;
    }
    b := bps[i];
  }

  /** What appending `bps` to `out` in the order `names` needs for the result to be tidy. */
  ghost predicate Joins(out: seq<Blueprint>, bps: seq<Blueprint>, names: seq<string>) {
    && Tidy(out) && NoDup(names) && Elements(names) == Types(bps) && Types(bps) !! Types(out)
    && forall b :: b in bps ==> ValidBlueprint(b)
  }

  /** Each of `bps` is met by what stands before it. */
  ghost predicate Placed(known: set<string>, out: seq<Blueprint>, bps: seq<Blueprint>, names: seq<string>) {
    forall b, k :: b in bps && 0 <= k < |names| && names[k] == b.typ ==> Met(known, Types(out) + Elements(names[..k]), b)
  }

  /** And what it needs for the result to replay. */
  ghost predicate Extends(known: set<string>, out: seq<Blueprint>, bps: seq<Blueprint>, names: seq<string>) {
    Joins(out, bps, names) && Replayable(known, out) && Placed(known, out, bps, names)
  }

  lemma ArrangedPlaced(known: set<string>, out: seq<Blueprint>, bps: seq<Blueprint>, names: seq<string>)
    requires Arranges(known, bps, names) && forall b :: b in bps ==> Met(known, Types(out) + (Types(bps) - {b.typ}), b)
    ensures Placed(known, out, bps, names)
  {
    forall b, k | b in bps && 0 <= k < |names| && names[k] == b.typ
      ensures Met(known, Types(out) + Elements(names[..k]), b)
    {
      assert (Needs(b) - known) * (Types(bps) - {b.typ}) <= Elements(names[..k]);
      assert Met(known, Types(out) + (Types(bps) - {b.typ}), b);
    }
  }

  lemma AppendStep(known: set<string>, out0: seq<Blueprint>, out: seq<Blueprint>, bps: seq<Blueprint>,
                   names: seq<string>, k: nat, b: Blueprint)
    requires Joins(out0, bps, names) && k < |names| && b in bps && b.typ == names[k]
    requires Tidy(out) && Types(out) == Types(out0) + Elements(names[..k])
    ensures Tidy(out + [b])
    ensures Extends(known, out0, bps, names) && Replayable(known, out) ==> Replayable(known, out + [b])
  {
    var before := Elements(names[..k]);
    assert b.typ in Elements(names) && b.typ !in before;
    ReplayableSnoc(known, out, b);
  }

  /** The Blueprints of `bps` that `names` names, in its order. */
  ghost predicate Picked(bps: seq<Blueprint>, names: seq<string>, added: seq<Blueprint>) {
    |added| == |names| && forall k :: 0 <= k < |names| ==> added[k] in bps && added[k].typ == names[k]
  }

  lemma PickedSnoc(bps: seq<Blueprint>, names: seq<string>, added: seq<Blueprint>, b: Blueprint)
    requires Picked(bps, names, added) && b in bps
    ensures Picked(bps, names + [b.typ], added + [b])
  {
  }

  /** `appendByName`. */
  method AppendByName(out0: seq<Blueprint>, bps: seq<Blueprint>, names: seq<string>, ghost known: set<string>)
    returns (out: seq<Blueprint>, ghost added: seq<Blueprint>)
    requires Elements(names) == Types(bps)
    ensures Types(out) == Types(out0) + Types(bps)
    ensures out == out0 + added && Picked(bps, names, added)
    ensures Joins(out0, bps, names) ==> Tidy(out)
    ensures Extends(known, out0, bps, names) ==> Replayable(known, out)
  {
    out, added := out0, [];
    for k := 0 to |names|
      invariant Types(out) == Types(out0) + Elements(names[..k])
      invariant out == out0 + added && Picked(bps, names[..k], added)
      invariant Joins(out0, bps, names) ==> Tidy(out)
      invariant Extends(known, out0, bps, names) ==> Replayable(known, out)
    {
      assert names[k] in Elements(names);
      var b := Find(bps, names[k]);
      if Joins(out0, bps, names) {
        AppendStep(known, out0, out, bps, names, k, b);
      }
      assert names[..k + 1] == names[..k] + [b.typ];
      TypesSnoc(out, b);
      PickedSnoc(bps, names[..k], added, b);
      assert out0 + added + [b] == out0 + (added + [b]);
      out, added := out + [b], added + [b];
    }
    assert names[..|names|] == names;
  }

  predicate Below(rank: map<string, nat>, r: string, n: string) { n in rank && r in rank && rank[r] < rank[n] }

  ghost predicate Falls(g: Graph, rank: map<string, nat>) { forall n, r :: Step(g, n, r) ==> Below(rank, r, n) }

  lemma {:induction false} RankAcyclic(g: Graph, rank: map<string, nat>, p: seq<string>)
    requires Falls(g, rank) && |p| >= 2 && Walk(g, p)
    ensures Below(rank, p[|p| - 1], p[0])
    decreases |p|
  {
    assert Step(g, p[0], p[1]);
    if |p| > 2 {
      RankAcyclic(g, rank, p[1..]);
    }
  }

  ghost predicate NeedsFall(bps: seq<Blueprint>, rank: map<string, nat>) {
    forall b, r :: b in bps && r in Needs(b) && r in Types(bps) && r != b.typ ==> Below(rank, r, b.typ)
  }

  lemma GraphFalls(bps: seq<Blueprint>, rank: map<string, nat>)
    requires DistinctTypes(bps) && NeedsFall(bps, rank) && forall b :: b in bps ==> !b.IsAlias()
    ensures Falls(GraphOf(bps), rank)
  {
    var g := GraphOf(bps);
    forall n, r | Step(g, n, r)
      ensures Below(rank, r, n)
    {
      assert n in Types(bps);
      var i :| 0 <= i < |bps| && TypesOf(bps)[i] == n;
      EdgesOf(bps, bps[i]);
    }
  }

  /** A rank on the needs of struct Blueprints makes the dependency order arrange them. */
  lemma StructsArranged(known: set<string>, bps: seq<Blueprint>, rank: map<string, nat>)
    requires DistinctTypes(bps) && NeedsFall(bps, rank) && forall b :: b in bps ==> !b.IsAlias()
    ensures Arranges(known, bps, Ordering(bps).names) && !Ordering(bps).cycle
  {
    var g, names := GraphOf(bps), Ordering(bps).names;
    OrderingCorrect(bps);
    GraphFalls(bps, rank);
    forall p | |p| >= 2 && Walk(g, p)
      ensures p[0] != p[|p| - 1]
    {
      RankAcyclic(g, rank, p);
    }
    assert DepsFirst(g, names);
    forall b, k | b in bps && 0 <= k < |names| && names[k] == b.typ
      ensures (Needs(b) - known) * (Types(bps) - {b.typ}) <= Elements(names[..k])
    {
      EdgesOf(bps, b);
    }
  }

  /** The edges of a struct Blueprint are its needs within the list, less itself. */
  lemma EdgesOf(bps: seq<Blueprint>, b: Blueprint)
    requires DistinctTypes(bps) && b in bps && !b.IsAlias()
    ensures b.typ in GraphOf(bps) && GraphOf(bps)[b.typ] == Needs(b) * (Types(bps) - {b.typ})
  {
    RefMapOf(bps, Types(bps), b);
    forall r
      ensures r in RefsOf(b.typ, b.fields, Types(bps)) <==> r in Needs(b) && r in Types(bps) && r != b.typ
    {
      RefsExact(b.typ, b.fields, Types(bps), r);
    }
  }

  // ---------------------------------------------------------------- AllBlueprints

  /** Every name on the chain is listed or known to peers. */
  ghost predicate Covers(reg: Registry, known: set<string>, list: seq<Blueprint>) {
    forall n :: Has(reg, n) ==> n in known || n in Types(list)
  }

  lemma LevelNamed(reg: Registry, known: set<string>)
    requires Inv(reg) && Compiled(reg, known)
    ensures Named(reg.entries)
  {
    forall n | n in reg.entries && BlueprintAt(reg.entries[n]).Some?
      ensures BlueprintAt(reg.entries[n]).value.typ == n
    {
      match reg.entries[n]
      case Runtime(b) => assert RuntimeOk(reg, n, b);
      case Proto(_, d) => assert CompiledEntry(known, n, d);
    }
  }

  /** The bucket that lists a name of this level which is not yet seen. */
  lemma Listed(reg: Registry, known: set<string>, seen: set<string>, n: string,
               aliases: seq<Blueprint>, protos: seq<Blueprint>, structs: seq<Blueprint>)
    requires Inv(reg) && Compiled(reg, known) && n in reg.entries && n !in seen
    requires Fills(reg.entries, seen, reg.entries.Keys, Aliases, aliases)
    requires Fills(reg.entries, seen, reg.entries.Keys, Protos, protos)
    requires Fills(reg.entries, seen, reg.entries.Keys, Structs, structs)
    ensures n in known || n in Types(aliases) || n in Types(protos) || (n in Types(structs) && RuntimeStruct(reg.entries, n))
  {
    LevelNamed(reg, known);
    var e := reg.entries[n];
    match BlueprintAt(e)
    case None => assert CompiledEntry(known, n, e.derived);
    case Some(b) =>
      match BucketOf(e, b)
      case Aliases => TypeIn(aliases, b);
      case Protos => TypeIn(protos, b);
      case Structs => TypeIn(structs, b);
  }

  lemma TypeIn(bps: seq<Blueprint>, b: Blueprint)
    requires b in bps
    ensures b.typ in Types(bps)
  {
    var i :| 0 <= i < |bps| && bps[i] == b;
    assert TypesOf(bps)[i] == b.typ;
  }

  lemma TypeOut(bps: seq<Blueprint>, n: string) returns (b: Blueprint)
    requires n in Types(bps)
    ensures b in bps && b.typ == n
  {
    var i :| 0 <= i < |bps| && TypesOf(bps)[i] == n;
    b := bps[i];
  }

  ghost predicate ChainNamed(reg: Registry) { Named(reg.entries) && (reg.parent.Some? ==> ChainNamed(reg.parent.value)) }

  /** The registry is as the runs leave it, and its compile-time entries derive as they should. */
  ghost predicate Sound(reg: Registry, known: set<string>) {
    Inv(reg) && Compiled(reg, known) && KnowsPrimitives(known)
  }

  /** The three buckets of a level whose parents have listed `base`. */
  ghost predicate Filled(reg: Registry, base: seq<Blueprint>, aliases: seq<Blueprint>, protos: seq<Blueprint>, structs: seq<Blueprint>) {
    && Types(base) == Inherited(reg)
    && Fills(reg.entries, Types(base), reg.entries.Keys, Aliases, aliases)
    && Fills(reg.entries, Types(base), reg.entries.Keys, Protos, protos)
    && Fills(reg.entries, Types(base), reg.entries.Keys, Structs, structs)
  }

  /** A Blueprint in a bucket is valid and not listed before. */
  lemma BucketValid(reg: Registry, known: set<string>, seen: set<string>, k: Bucket, bps: seq<Blueprint>)
    requires Sound(reg, known) && Fills(reg.entries, seen, reg.entries.Keys, k, bps)
    ensures forall b :: b in bps ==> ValidBlueprint(b) && (b.IsAlias() <==> k == Aliases)
    ensures Types(bps) !! seen
  {
    forall b | b in bps
      ensures ValidBlueprint(b) && (b.IsAlias() <==> k == Aliases) && b.typ !in seen
    {
      assert InBucket(reg.entries, seen, reg.entries.Keys, k, b);
      match reg.entries[b.typ]
      case Runtime(_) => assert RuntimeOk(reg, b.typ, b);
      case Proto(_, d) => assert CompiledEntry(known, b.typ, d);
    }
    forall n | n in Types(bps)
      ensures n !in seen
    {
      var b := TypeOut(bps, n);
    }
  }

  lemma BucketsApart(reg: Registry, seen: set<string>, j: Bucket, a: seq<Blueprint>, k: Bucket, b: seq<Blueprint>)
    requires Fills(reg.entries, seen, reg.entries.Keys, j, a) && Fills(reg.entries, seen, reg.entries.Keys, k, b) && j != k
    ensures Types(a) !! Types(b)
  {
    forall n | n in Types(a)
      ensures n !in Types(b)
    {
      var x := TypeOut(a, n);
      assert InBucket(reg.entries, seen, reg.entries.Keys, j, x);
      NotIn(reg.entries, seen, k, b, n);
    }
  }

  lemma AliasesExtend(reg: Registry, known: set<string>, out: seq<Blueprint>, aliases: seq<Blueprint>, names: seq<string>)
    requires Sound(reg, known) && Tidy(out) && NoDup(names) && Elements(names) == Types(aliases)
    requires Fills(reg.entries, Types(out), reg.entries.Keys, Aliases, aliases)
    ensures Joins(out, aliases, names)
    ensures Replayable(known, out) ==> Extends(known, out, aliases, names)
  {
    BucketValid(reg, known, Types(out), Aliases, aliases);
    forall b | b in aliases
      ensures Needs(b) == {b.underlying} && b.underlying in known
    {
    }
  }

  /** The graph of the listed derived structs, whatever order they come in. */
  lemma ProtosGraph(reg: Registry, known: set<string>, base: seq<Blueprint>, protos: seq<Blueprint>)
    requires Sound(reg, known) && Types(base) == Inherited(reg)
    requires Fills(reg.entries, Types(base), reg.entries.Keys, Protos, protos)
    ensures GraphOf(protos) == LevelGraph(reg) && ByteNames(TypesOf(protos))
    ensures forall n :: n in Types(protos) <==> ListsDerived(reg, n)
  {
    forall n
      ensures n in Types(protos) <==> ListsDerived(reg, n)
    {
      ProtoNames(reg, known, base, protos, n);
    }
    EdgesAgree(reg, known, base, protos);
    ProtoBytes(reg, known, Types(base), protos);
  }

  lemma EdgesAgree(reg: Registry, known: set<string>, base: seq<Blueprint>, protos: seq<Blueprint>)
    requires Sound(reg, known) && Types(base) == Inherited(reg)
    requires Fills(reg.entries, Types(base), reg.entries.Keys, Protos, protos)
    requires forall m :: m in Types(protos) <==> ListsDerived(reg, m)
    ensures GraphOf(protos) == LevelGraph(reg)
  {
    assert GraphOf(protos).Keys == Types(protos);
    assert LevelGraph(reg).Keys == Types(protos);
    forall n | n in Types(protos)
      ensures GraphOf(protos)[n] == LevelGraph(reg)[n]
    {
      ProtoEdges(reg, known, base, protos, n);
    }
  }

  lemma ProtoBytes(reg: Registry, known: set<string>, seen: set<string>, protos: seq<Blueprint>)
    requires Sound(reg, known) && Fills(reg.entries, seen, reg.entries.Keys, Protos, protos)
    ensures ByteNames(TypesOf(protos))
  {
    BucketValid(reg, known, seen, Protos, protos);
    forall i | 0 <= i < |protos|
      ensures ByteName(TypesOf(protos)[i])
    {
      assert protos[i] in protos;
    }
  }

  lemma ProtoEdges(reg: Registry, known: set<string>, base: seq<Blueprint>, protos: seq<Blueprint>, n: string)
    requires Sound(reg, known) && Types(base) == Inherited(reg) && n in Types(protos)
    requires Fills(reg.entries, Types(base), reg.entries.Keys, Protos, protos)
    requires forall m :: m in Types(protos) <==> ListsDerived(reg, m)
    ensures n in GraphOf(protos) && n in LevelGraph(reg) && GraphOf(protos)[n] == LevelGraph(reg)[n]
  {
    BucketValid(reg, known, Types(base), Protos, protos);
    var b := TypeOut(protos, n);
    assert InBucket(reg.entries, Types(base), reg.entries.Keys, Protos, b);
    EdgesOf(protos, b);
  }

  lemma ProtoNames(reg: Registry, known: set<string>, base: seq<Blueprint>, protos: seq<Blueprint>, n: string)
    requires Sound(reg, known) && Types(base) == Inherited(reg)
    requires Fills(reg.entries, Types(base), reg.entries.Keys, Protos, protos)
    ensures n in Types(protos) <==> ListsDerived(reg, n)
  {
    if n in Types(protos) {
      var b := TypeOut(protos, n);
      assert InBucket(reg.entries, Types(base), reg.entries.Keys, Protos, b);
    }
    if ListsDerived(reg, n) {
      LevelNamed(reg, known);
      var b := reg.entries[n].derived.value;
      assert BlueprintAt(reg.entries[n]) == Some(b) && b in protos;
      TypeIn(protos, b);
    }
  }

  /** In the listed order a need of one derived struct for another is met exactly when it is in time. */
  lemma ProtoPlace(reg: Registry, known: set<string>, base: seq<Blueprint>, protos: seq<Blueprint>, b: Blueprint, k: nat, r: string)
    requires Sound(reg, known) && Types(base) == Inherited(reg) && b in protos
    requires Fills(reg.entries, Types(base), reg.entries.Keys, Protos, protos)
    requires k < |Ordering(protos).names| && Ordering(protos).names[k] == b.typ
    requires r in Needs(b) && r in Types(protos) && r != b.typ
    ensures r in Elements(Ordering(protos).names[..k]) <==> InTime(reg, b.typ, r)
  {
    BucketValid(reg, known, Types(base), Protos, protos);
    ProtosGraph(reg, known, base, protos);
    EdgesOf(protos, b);
    OrderingPlaces(protos, k, r);
  }

  /** Derived structs of an orderly level need only what is listed before them, or known. */
  lemma ProtosExtend(reg: Registry, known: set<string>, base: seq<Blueprint>, out: seq<Blueprint>,
                     aliases: seq<Blueprint>, protos: seq<Blueprint>, structs: seq<Blueprint>)
    requires Sound(reg, known) && Tidy(out) && Types(out) == Types(base) + Types(aliases)
    requires Filled(reg, base, aliases, protos, structs)
    ensures Joins(out, protos, Ordering(protos).names) && (Ordering(protos).cycle <==> HasCycle(LevelGraph(reg)))
    ensures Replayable(known, out) && Orderly(reg, known) ==> Extends(known, out, protos, Ordering(protos).names)
  {
    BucketValid(reg, known, Types(base), Protos, protos);
    BucketsApart(reg, Types(base), Aliases, aliases, Protos, protos);
    ProtosGraph(reg, known, base, protos);
    OrderingCorrect(protos);
    var names := Ordering(protos).names;
    if Orderly(reg, known) {
      forall b, k | b in protos && 0 <= k < |names| && names[k] == b.typ
        ensures Met(known, Types(out) + Elements(names[..k]), b)
      {
        ProtoMet(reg, known, base, aliases, protos, structs, b, k);
      }
    }
  }

  lemma ProtoMet(reg: Registry, known: set<string>, base: seq<Blueprint>,
                 aliases: seq<Blueprint>, protos: seq<Blueprint>, structs: seq<Blueprint>, b: Blueprint, k: nat)
    requires Sound(reg, known) && Orderly(reg, known) && Filled(reg, base, aliases, protos, structs) && b in protos
    requires k < |Ordering(protos).names| && Ordering(protos).names[k] == b.typ
    ensures Met(known, Types(base) + Types(aliases) + Elements(Ordering(protos).names[..k]), b)
  {
    assert InBucket(reg.entries, Types(base), reg.entries.Keys, Protos, b);
    assert ListsDerived(reg, b.typ);
    if b.typ !in known {
      forall r | r in Needs(b)
        ensures r in known + Types(base) + Types(aliases) + Elements(Ordering(protos).names[..k])
      {
        assert Served(reg, known, b.typ, r);
        if r !in known && r !in Types(base) {
          Listed(reg, known, Types(base), r, aliases, protos, structs);
          assert !RuntimeStruct(reg.entries, r);
          if r in Types(protos) {
            ProtoNames(reg, known, base, protos, r);
            ProtoPlace(reg, known, base, protos, b, k, r);
          }
        }
      }
    }
  }

  /** What the parents and aliases gave serves whatever needs it. */
  lemma EarlierServes(reg: Registry, known: set<string>, base: seq<Blueprint>, aliases: seq<Blueprint>, n: string, r: string)
    requires Types(base) == Inherited(reg) && Fills(reg.entries, Types(base), reg.entries.Keys, Aliases, aliases)
    requires r in Types(base) + Types(aliases) && r != n
    ensures Served(reg, known, n, r)
  {
    if r in Types(aliases) {
      var x := TypeOut(aliases, r);
      assert InBucket(reg.entries, Types(base), reg.entries.Keys, Aliases, x);
      assert !RuntimeStruct(reg.entries, r) && !ListsDerived(reg, r);
    }
  }

  lemma OrderedTypes(bps: seq<Blueprint>, k: nat, r: string)
    requires DistinctTypes(bps) && k <= |Ordering(bps).names| && r in Elements(Ordering(bps).names[..k])
    ensures r in Types(bps)
  {
    OrderingCorrect(bps);
    assert r in Elements(Ordering(bps).names);
  }

  /** So does a derived struct that comes earlier. */
  lemma FormerServes(reg: Registry, known: set<string>, base: seq<Blueprint>, protos: seq<Blueprint>, b: Blueprint, k: nat, r: string)
    requires Sound(reg, known) && Types(base) == Inherited(reg) && b in protos
    requires Fills(reg.entries, Types(base), reg.entries.Keys, Protos, protos)
    requires k < |Ordering(protos).names| && Ordering(protos).names[k] == b.typ
    requires r in Needs(b) && r in Elements(Ordering(protos).names[..k]) && r != b.typ
    ensures Served(reg, known, b.typ, r)
  {
    OrderedTypes(protos, k, r);
    ProtoNames(reg, known, base, protos, r);
    ProtoPlace(reg, known, base, protos, b, k, r);
  }

  lemma PickedTypes(bps: seq<Blueprint>, names: seq<string>, added: seq<Blueprint>, k: nat)
    requires Picked(bps, names, added) && k <= |added|
    ensures Types(added[..k]) == Elements(names[..k])
  {
    assert TypesOf(added[..k]) == names[..k];
  }

  lemma Position(bps: seq<Blueprint>, n: string) returns (k: nat)
    requires DistinctTypes(bps) && n in Types(bps)
    ensures k < |Ordering(bps).names| && Ordering(bps).names[k] == n
  {
    OrderingCorrect(bps);
    var names := Ordering(bps).names;
    assert n in Elements(names);
    k :| 0 <= k < |names| && names[k] == n;
  }

  /** Where a listed derived struct stands. */
  lemma Stands(reg: Registry, known: set<string>, base: seq<Blueprint>, protos: seq<Blueprint>, added: seq<Blueprint>, n: string)
    returns (k: nat)
    requires Sound(reg, known) && Types(base) == Inherited(reg) && ListsDerived(reg, n)
    requires Fills(reg.entries, Types(base), reg.entries.Keys, Protos, protos) && Picked(protos, Ordering(protos).names, added)
    ensures k < |added| && added[k] == reg.entries[n].derived.value && added[k] in protos && added[k].typ == n
    ensures Ordering(protos).names[k] == n && Types(added[..k]) == Elements(Ordering(protos).names[..k])
  {
    ProtoNames(reg, known, base, protos, n);
    k := Position(protos, n);
    assert InBucket(reg.entries, Types(base), reg.entries.Keys, Protos, added[k]);
    PickedTypes(protos, Ordering(protos).names, added, k);
  }

  lemma TypesConcat(a: seq<Blueprint>, b: seq<Blueprint>)
    ensures Types(a + b) == Types(a) + Types(b)
  {
    assert TypesOf(a + b) == TypesOf(a) + TypesOf(b);
  }

  /** In a list that replays, an entry that peers do not know has its needs before it. */
  lemma NeedsBefore(known: set<string>, mid: seq<Blueprint>, added: seq<Blueprint>, rest: seq<Blueprint>, k: nat, r: string)
    requires Replayable(known, mid + added + rest) && k < |added| && added[k].typ !in known && r in Needs(added[k]) && r !in known
    ensures r in Types(mid) + Types(added[..k]) && r != added[k].typ
  {
    var out, i := mid + added + rest, |mid| + k;
    assert out[..i] == mid + added[..k] && out[i] == added[k];
    ReplayablePrefix(known, out, i);
    TypesConcat(mid, added[..k]);
  }

  /** If the list replays, every need is served. */
  lemma ReplayServes(reg: Registry, known: set<string>, base: seq<Blueprint>, mid: seq<Blueprint>, added: seq<Blueprint>,
                     rest: seq<Blueprint>, aliases: seq<Blueprint>, protos: seq<Blueprint>, n: string, r: string)
    requires Sound(reg, known) && Types(base) == Inherited(reg) && Types(mid) == Types(base) + Types(aliases)
    requires Fills(reg.entries, Types(base), reg.entries.Keys, Aliases, aliases)
    requires Fills(reg.entries, Types(base), reg.entries.Keys, Protos, protos) && Picked(protos, Ordering(protos).names, added)
    requires ListsDerived(reg, n) && n !in known && r in Needs(reg.entries[n].derived.value)
    requires Replayable(known, mid + added + rest)
    ensures Served(reg, known, n, r)
  {
    if r !in known {
      var k := Stands(reg, known, base, protos, added, n);
      NeedsBefore(known, mid, added, rest, k, r);
      if r in Types(mid) {
        EarlierServes(reg, known, base, aliases, n, r);
      } else {
        FormerServes(reg, known, base, protos, added[k], k, r);
      }
    }
  }

  /** A name of one bucket is in no other. */
  lemma NotIn(entries: map<string, RegEntry>, seen: set<string>, k: Bucket, bps: seq<Blueprint>, n: string)
    requires Fills(entries, seen, entries.Keys, k, bps) && n in entries && BlueprintAt(entries[n]).Some?
    requires BucketOf(entries[n], BlueprintAt(entries[n]).value) != k
    ensures n !in Types(bps)
  {
    forall i | 0 <= i < |bps|
      ensures TypesOf(bps)[i] != n
    {
      assert bps[i] in bps && InBucket(entries, seen, entries.Keys, k, bps[i]);
    }
  }

  /** Runtime struct Blueprints need only what is listed, known, or registered beside them. */
  lemma StructsExtend(reg: Registry, known: set<string>, base: seq<Blueprint>, out: seq<Blueprint>,
                      aliases: seq<Blueprint>, protos: seq<Blueprint>, structs: seq<Blueprint>)
    requires Sound(reg, known) && Tidy(out) && Types(out) == Types(base) + Types(aliases) + Types(protos)
    requires reg.parent.Some? ==> Covers(reg.parent.value, known, base)
    requires Filled(reg, base, aliases, protos, structs)
    ensures Joins(out, structs, Ordering(structs).names) && !Ordering(structs).cycle
    ensures Replayable(known, out) ==> Extends(known, out, structs, Ordering(structs).names)
  {
    BucketValid(reg, known, Types(base), Structs, structs);
    BucketsApart(reg, Types(base), Aliases, aliases, Structs, structs);
    BucketsApart(reg, Types(base), Protos, protos, Structs, structs);
    StructsRanked(reg, known, Types(base), structs);
    forall b | b in structs
      ensures Met(known, Types(out) + (Types(structs) - {b.typ}), b)
    {
      StructMet(reg, known, base, aliases, protos, structs, b);
    }
    ArrangedPlaced(known, out, structs, Ordering(structs).names);
  }

  lemma StructsRanked(reg: Registry, known: set<string>, seen: set<string>, structs: seq<Blueprint>)
    requires Sound(reg, known) && Fills(reg.entries, seen, reg.entries.Keys, Structs, structs)
    ensures Arranges(known, structs, Ordering(structs).names) && !Ordering(structs).cycle
  {
    BucketValid(reg, known, seen, Structs, structs);
    var rank :| RankOk(reg, rank);
    forall b, r | b in structs && r in Needs(b) && r in Types(structs) && r != b.typ
      ensures Below(rank, r, b.typ)
    {
      assert InBucket(reg.entries, seen, reg.entries.Keys, Structs, b);
      assert Edge(reg, b.typ, r);
    }
    StructsArranged(known, structs, rank);
  }

  lemma StructMet(reg: Registry, known: set<string>, base: seq<Blueprint>,
                  aliases: seq<Blueprint>, protos: seq<Blueprint>, structs: seq<Blueprint>, b: Blueprint)
    requires Sound(reg, known) && Filled(reg, base, aliases, protos, structs) && b in structs
    requires reg.parent.Some? ==> Covers(reg.parent.value, known, base)
    ensures Met(known, Types(base) + Types(aliases) + Types(protos) + (Types(structs) - {b.typ}), b)
  {
    assert InBucket(reg.entries, Types(base), reg.entries.Keys, Structs, b);
    assert RuntimeOk(reg, b.typ, b);
    var rank :| RankOk(reg, rank);
    forall r | r in Needs(b)
      ensures r in known + Types(base) + Types(aliases) + Types(protos) + (Types(structs) - {b.typ})
    {
      assert Edge(reg, b.typ, r);
      if r in reg.entries && r !in Types(base) {
        Listed(reg, known, Types(base), r, aliases, protos, structs);
      }
    }
  }

  /** After the three buckets every name of the level is listed or known. */
  lemma LevelCovered(reg: Registry, known: set<string>, base: seq<Blueprint>, out: seq<Blueprint>,
                     aliases: seq<Blueprint>, protos: seq<Blueprint>, structs: seq<Blueprint>)
    requires Sound(reg, known) && Types(out) == Types(base) + Types(aliases) + Types(protos) + Types(structs)
    requires reg.parent.Some? ==> Covers(reg.parent.value, known, base)
    requires Fills(reg.entries, Types(base), reg.entries.Keys, Aliases, aliases)
    requires Fills(reg.entries, Types(base), reg.entries.Keys, Protos, protos)
    requires Fills(reg.entries, Types(base), reg.entries.Keys, Structs, structs)
    ensures Covers(reg, known, out)
  {
    forall n | Has(reg, n)
      ensures n in known || n in Types(out)
    {
      if n in reg.entries && n !in Types(base) {
        Listed(reg, known, Types(base), n, aliases, protos, structs);
      }
    }
  }

  /** The parents' list covers their names and replays exactly when they are orderly. */
  ghost predicate ParentsDone(reg: Registry, known: set<string>, base: seq<Blueprint>) {
    && Tidy(base)
    && match reg.parent
       case None => base == []
       case Some(p) => Covers(p, known, base) && (Replayable(known, base) <==> Orderly(p, known))
  }

  /** One level of `AllBlueprints`: its aliases by name, derived structs and runtime structs, each in dependency order. */
  method ListLevel(reg: Registry, base: seq<Blueprint>, ghost known: set<string>) returns (out: seq<Blueprint>, failed: set<string>, cycle: bool)
    requires Named(reg.entries) && Types(base) == Inherited(reg)
    ensures Types(out) == ListedNames(reg) && failed == Undescribed(reg.entries, Types(base))
    ensures Sound(reg, known) && ParentsDone(reg, known, base) ==>
              && (cycle <==> HasCycle(LevelGraph(reg))) && Tidy(out) && Covers(reg, known, out)
              && (Replayable(known, out) <==> Orderly(reg, known))
  {
    ghost var ok := Sound(reg, known) && ParentsDone(reg, known, base);
    var aliases, protos, structs;
    aliases, protos, structs, failed := FillBuckets(reg.entries, Types(base));
    ListedHere(reg, base, aliases, protos, structs);

    var names := SortNames(TypesOf(aliases));
    SortNamesSame(TypesOf(aliases));
    if ok { AliasesExtend(reg, known, base, aliases, names); }
    var mid, _ := AppendByName(base, aliases, names, known);

    var err;
    names, err := OrderByReference(protos);
    OrderingCorrect(protos);
    if ok { ProtosExtend(reg, known, base, mid, aliases, protos, structs); }
    cycle := err.Some?;
    var pre, added := AppendByName(mid, protos, names, known);

    names, err := OrderByReference(structs);
    OrderingCorrect(structs);
    if ok { StructsExtend(reg, known, base, pre, aliases, protos, structs); }
    cycle := cycle || err.Some?;
    ghost var rest;
    out, rest := AppendByName(pre, structs, names, known);
    if ok {
      LevelCovered(reg, known, base, out, aliases, protos, structs);
      LevelExact(reg, known, base, mid, added, rest, aliases, protos, structs);
    }
  }

  /**
   * `AllBlueprints`: the parent's list, then this level's. On a sound chain the error joins
   * the names that could not be described and a cycle, reported exactly when derived structs of
   * some level need each other in a circle; the list covers every name that peers do not know,
   * and it replays exactly when the chain is orderly.
   */
  method AllBlueprints(reg: Registry, ghost known: set<string>) returns (out: seq<Blueprint>, failed: set<string>, cycle: bool)
    requires ChainNamed(reg)
    ensures Types(out) == ListedNames(reg) && failed == FailedNames(reg)
    ensures Sound(reg, known) ==> (cycle <==> Circular(reg)) && Tidy(out) && Covers(reg, known, out)
    ensures Sound(reg, known) ==> (Replayable(known, out) <==> Orderly(reg, known))
    decreases reg
  {
    var base, missed, before := [], {}, false;
    if reg.parent.Some? {
      base, missed, before := AllBlueprints(reg.parent.value, known);
    }
    out, failed, cycle := ListLevel(reg, base, known);
    failed, cycle := missed + failed, before || cycle;
  }

  /** The three buckets list what this level adds. */
  lemma ListedHere(reg: Registry, base: seq<Blueprint>, aliases: seq<Blueprint>, protos: seq<Blueprint>, structs: seq<Blueprint>)
    requires Named(reg.entries) && Filled(reg, base, aliases, protos, structs)
    ensures Types(base) + Types(aliases) + Types(protos) + Types(structs) == ListedNames(reg)
  {
    forall n | n in reg.entries && BlueprintAt(reg.entries[n]).Some? && n !in Types(base)
      ensures n in Types(aliases) + Types(protos) + Types(structs)
    {
      var b := BlueprintAt(reg.entries[n]).value;
      match BucketOf(reg.entries[n], b)
      case Aliases => TypeIn(aliases, b);
      case Protos => TypeIn(protos, b);
      case Structs => TypeIn(structs, b);
    }
    BucketNames(reg, Types(base), Aliases, aliases);
    BucketNames(reg, Types(base), Protos, protos);
    BucketNames(reg, Types(base), Structs, structs);
  }

  lemma BucketNames(reg: Registry, seen: set<string>, k: Bucket, bps: seq<Blueprint>)
    requires Fills(reg.entries, seen, reg.entries.Keys, k, bps)
    ensures forall n :: n in Types(bps) ==> n in reg.entries && BlueprintAt(reg.entries[n]).Some?
  {
    forall n | n in Types(bps)
      ensures n in reg.entries && BlueprintAt(reg.entries[n]).Some?
    {
      var b := TypeOut(bps, n);
      assert InBucket(reg.entries, seen, reg.entries.Keys, k, b);
    }
  }

  /** One level: given the same of the parents' list, the list replays exactly when the level is orderly. */
  lemma LevelExact(reg: Registry, known: set<string>, base: seq<Blueprint>, mid: seq<Blueprint>, added: seq<Blueprint>,
                   rest: seq<Blueprint>, aliases: seq<Blueprint>, protos: seq<Blueprint>, structs: seq<Blueprint>)
    requires Sound(reg, known) && Filled(reg, base, aliases, protos, structs) && base <= mid
    requires Types(mid) == Types(base) + Types(aliases) && Picked(protos, Ordering(protos).names, added)
    requires reg.parent.Some? ==> (Replayable(known, base) <==> Orderly(reg.parent.value, known))
    requires Orderly(reg, known) ==> Replayable(known, mid + added + rest)
    ensures Replayable(known, mid + added + rest) <==> Orderly(reg, known)
  {
    if Replayable(known, mid + added + rest) {
      ReplayablePrefix(known, mid + added + rest, |base|);
      assert (mid + added + rest)[..|base|] == base;
      forall n, r | ListsDerived(reg, n) && n !in known && r in Needs(reg.entries[n].derived.value)
        ensures Served(reg, known, n, r)
      {
        ReplayServes(reg, known, base, mid, added, rest, aliases, protos, n, r);
      }
    }
  }

  lemma {:induction false} SoundNamed(reg: Registry, known: set<string>)
    requires Inv(reg) && Compiled(reg, known)
    ensures ChainNamed(reg)
    decreases reg
  {
    LevelNamed(reg, known);
    if reg.parent.Some? {
      SoundNamed(reg.parent.value, known);
    }
  }

  // ---------------------------------------------------------------- sync, end to end

  /** After replay the peer has every name of the chain, and every listed Blueprint it lacked, as listed. */
  ghost predicate Synced(chain: Registry, peer: Registry, list: seq<Blueprint>) {
    && (forall n :: Has(chain, n) ==> Has(Replay(peer, list), n))
    && (forall i :: 0 <= i < |list| && !Has(peer, list[i].typ) ==>
          list[i].typ in Replay(peer, list).entries && Replay(peer, list).entries[list[i].typ] == Runtime(list[i]))
  }

  /**
   * Take any run of registrations on any chain. If the chain is orderly its list synchronises
   * every peer that knows `known`; if it is not, the list fails a peer that knows no more.
   */
  method SyncToPeer(ghost height: nat, ghost ops: seq<Op>, chain: Registry, ghost peer: Registry, ghost known: set<string>)
    returns (list: seq<Blueprint>)
    requires chain == Run(EmptyChain(height), ops)
    requires Compiled(chain, known) && KnowsPrimitives(known) && forall n :: n in known ==> Has(peer, n)
    ensures Orderly(chain, known) ==> Synced(chain, peer, list)
    ensures (forall n :: Has(peer, n) ==> n in known) ==> (Synced(chain, peer, list) <==> Orderly(chain, known))
  {
    EmptyInv(height);
    RunKeeps(EmptyChain(height), ops);
    SoundNamed(chain, known);
    var failed, cycle;
    list, failed, cycle := AllBlueprints(chain, known);
    if Replayable(known, list) {
      ReplayRegisters(peer, known, list);
    } else if forall n :: Has(peer, n) ==> n in known {
      ghost var m := ReplayMisses(peer, known, list);
      ListedHas(chain, m);
    }
  }

  // ---------------------------------------------------------------- chains whose lists do not replay

  const EMPTY_B := Blueprint("b", [], "")
  const NEEDS_B := Blueprint("a", [Field("f", Ref("b"))], "")
  const NEEDS_SELF := Blueprint("a", [Field("f", Slice("a"))], "")

  function Derives(b: Blueprint): Prototype { Prototype(b.typ, Empty, Some(b), "") }

  /** A derived struct that needs a runtime struct of its own level is listed before it. */
  method RuntimeComesTooLate(ghost peer: Registry, ghost known: set<string>) returns (list: seq<Blueprint>)
    requires KnowsPrimitives(known) && "a" !in known && "b" !in known && forall n :: n in known <==> Has(peer, n)
    ensures !Synced(Run(EmptyChain(0), [Register(0, EMPTY_B), Add(0, [Derives(NEEDS_B)])]), peer, list)
  {
    ghost var ops := [Register(0, EMPTY_B), Add(0, [Derives(NEEDS_B)])];
    var chain := Registry(map["b" := Runtime(EMPTY_B), "a" := Proto(Empty, Some(NEEDS_B))], None);
    TooLate(chain, ops, known);
    list := SyncToPeer(0, ops, chain, peer, known);
  }

  lemma TooLate(chain: Registry, ops: seq<Op>, known: set<string>)
    requires "a" !in known && "b" !in known && ops == [Register(0, EMPTY_B), Add(0, [Derives(NEEDS_B)])]
    requires chain == Registry(map["b" := Runtime(EMPTY_B), "a" := Proto(Empty, Some(NEEDS_B))], None)
    ensures Run(EmptyChain(0), ops) == chain && Compiled(chain, known) && !Orderly(chain, known)
  {
    var one := Registry(map["b" := Runtime(EMPTY_B)], None);
    RegisteredOne(one);
    RunTwo(EmptyChain(0), ops);
    AddedOne(one, NEEDS_B);
    assert one.(entries := one.entries["a" := Proto(Empty, Some(NEEDS_B))]) == chain;
    DerivedValid(NEEDS_B);
    assert ListsDerived(chain, "a") && "b" in Needs(NEEDS_B) && !Served(chain, known, "a", "b");
  }

  lemma RegisteredOne(one: Registry)
    requires one == Registry(map["b" := Runtime(EMPTY_B)], None)
    ensures Apply(EmptyChain(0), Register(0, EMPTY_B)) == one && !Has(one, "a")
  {
    NothingShown(0);
    assert ValidBlueprint(EMPTY_B) && Needs(EMPTY_B) == {};
  }

  lemma RunTwo(reg: Registry, ops: seq<Op>)
    requires |ops| == 2
    ensures Run(reg, ops) == Apply(Apply(reg, ops[0]), ops[1])
  {
    assert ops[1..][1..] == [];
    assert Run(Apply(reg, ops[0]), ops[1..]) == Run(Apply(Apply(reg, ops[0]), ops[1..][0]), ops[1..][1..]);
  }

  /** A derived struct that holds a slice of itself is listed, and no peer can take it. */
  method SelfNeverReplays(ghost peer: Registry, ghost known: set<string>) returns (list: seq<Blueprint>)
    requires KnowsPrimitives(known) && "a" !in known && forall n :: n in known <==> Has(peer, n)
    ensures !Synced(Run(EmptyChain(0), [Add(0, [Derives(NEEDS_SELF)])]), peer, list)
  {
    ghost var ops := [Add(0, [Derives(NEEDS_SELF)])];
    var chain := Registry(map["a" := Proto(Empty, Some(NEEDS_SELF))], None);
    HoldsItself(chain, ops, known);
    list := SyncToPeer(0, ops, chain, peer, known);
  }

  lemma HoldsItself(chain: Registry, ops: seq<Op>, known: set<string>)
    requires "a" !in known && ops == [Add(0, [Derives(NEEDS_SELF)])]
    requires chain == Registry(map["a" := Proto(Empty, Some(NEEDS_SELF))], None)
    ensures Run(EmptyChain(0), ops) == chain && Compiled(chain, known) && !Orderly(chain, known)
  {
    var start := EmptyChain(0);
    NothingShown(0);
    assert ops[1..] == [];
    AddedOne(start, NEEDS_SELF);
    assert start == Registry(map[], None) && start.(entries := start.entries["a" := Proto(Empty, Some(NEEDS_SELF))]) == chain;
    assert Run(start, ops) == Run(Apply(start, ops[0]), ops[1..]);
    DerivedValid(NEEDS_SELF);
    assert ListsDerived(chain, "a") && "a" in Needs(NEEDS_SELF) && !Served(chain, known, "a", "a");
  }

  lemma AddedOne(reg: Registry, b: Blueprint)
    requires b.typ != "" && !Has(reg, b.typ)
    ensures Apply(reg, Add(0, [Derives(b)])) == reg.(entries := reg.entries[b.typ := Proto(Empty, Some(b))])
  {
    var ps := [Derives(b)];
    assert ps[1..] == [] && AllAddable(ps);
    assert AddHere(reg, ps) == AddHere(reg.(entries := reg.entries[b.typ := Proto(Empty, Some(b))]), ps[1..]);
  }

  lemma DerivedValid(b: Blueprint)
    requires b == NEEDS_B || b == NEEDS_SELF
    ensures ValidBlueprint(b) && ReferencedType(b.fields[0].spec) in Needs(b)
  {
    assert ValidSpec(b.fields[0].spec);
  }
}
