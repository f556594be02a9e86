/**
 * The dependency order of Blueprints: Kahn's algorithm in alphabetical passes. `Drain` says
 * what it emits as a function of the reference graph alone; the method with its in-degree
 * counters computes exactly that.
 */
module Order {
  import opened Wrappers
  import opened Bytes
  import opened Schema

  /** Each name with the in-set names, other than itself, that it references. */
  type Graph = map<string, set<string>>

  ghost predicate NoDup(s: seq<string>) {
    forall i, j :: 0 <= i < j < |s| ==> s[i] != s[j]
  }

  function Elements(s: seq<string>): set<string> { set x | x in s }

  lemma {:induction false} NoDupSize(s: seq<string>)
    requires NoDup(s)
    ensures |Elements(s)| == |s|
    decreases |s|
  {
    if s != [] {
      NoDupSize(s[1..]);
      assert Elements(s) == Elements(s[1..]) + {s[0]};
    }
  }

  // ---------------------------------------------------------------- what is emitted

  predicate Free(g: Graph, out: seq<string>, n: string) {
    n !in out && (n in g ==> forall d :: d in g[n] ==> d in out)
  }

  /** One pass over the names in order: a name freed by an earlier one goes out in the same pass. */
  function Scan(g: Graph, rest: seq<string>, out: seq<string>): seq<string>
    decreases |rest|
  {
    if rest == [] then out
    else Scan(g, rest[1..], if Free(g, out, rest[0]) then out + [rest[0]] else out)
  }

  function Unemitted(names: seq<string>, out: seq<string>): seq<string> {
    if names == [] then []
    else (if names[0] in out then [] else [names[0]]) + Unemitted(names[1..], out)
  }

  datatype Sorted = Sorted(names: seq<string>, cycle: bool)

  ghost predicate Partial(names: seq<string>, out: seq<string>) {
    NoDup(names) && NoDup(out) && forall x :: x in out ==> x in names
  }

  lemma PartialSize(names: seq<string>, out: seq<string>)
    requires Partial(names, out)
    ensures |out| <= |names|
    ensures |out| == |names| ==> Elements(out) == Elements(names)
  {
    NoDupSize(names);
    NoDupSize(out);
    assert Elements(out) <= Elements(names);
    SubsetSize(Elements(out), Elements(names));
  }

  lemma {:induction false} SubsetSize<T>(a: set<T>, b: set<T>)
    requires a <= b
    ensures |a| <= |b| && (|a| == |b| ==> a == b)
    decreases |a|
  {
    if a != {} {
      var x :| x in a;
      SubsetSize(a - {x}, b - {x});
      assert a == a - {x} + {x} && b == b - {x} + {x};
    }
  }

  lemma {:induction false} ScanGrows(g: Graph, names: seq<string>, rest: seq<string>, out: seq<string>)
    requires Partial(names, out) && forall x :: x in rest ==> x in names
    ensures Partial(names, Scan(g, rest, out))
    ensures |out| <= |Scan(g, rest, out)| && Scan(g, rest, out)[..|out|] == out
    decreases |rest|
  {
    if rest != [] {
      ScanGrows(g, names, rest[1..], if Free(g, out, rest[0]) then out + [rest[0]] else out);
    }
  }

  /** Passes until every name is out, or a pass emits nothing and the rest is stuck. */
  ghost function Drain(g: Graph, names: seq<string>, out: seq<string>): Sorted
    requires Partial(names, out)
    decreases |names| - |out|
  {
    PartialSize(names, out);
    if |out| == |names| then Sorted(out, false)
    else
      ScanGrows(g, names, names, out);
      var next := Scan(g, names, out);
      PartialSize(names, next);
      if |next| == |out| then Sorted(out + Unemitted(names, out), true) else Drain(g, names, next)
  }

  // ---------------------------------------------------------------- permutation

  lemma {:induction false} UnemittedExact(names: seq<string>, out: seq<string>)
    ensures forall x :: x in Unemitted(names, out) <==> x in names && x !in out
    ensures NoDup(names) ==> NoDup(Unemitted(names, out))
    decreases |names|
  {
    if names != [] {
      UnemittedExact(names[1..], out);
    }
  }

  lemma Joined(a: seq<string>, b: seq<string>)
    requires NoDup(a) && NoDup(b) && forall x :: x in b ==> x !in a
    ensures NoDup(a + b) && Elements(a + b) == Elements(a) + Elements(b)
  {
    forall i, j | 0 <= i < j < |a + b|
      ensures (a + b)[i] != (a + b)[j]
    {
      if i < |a| <= j {
        assert b[j - |a|] in b && a[i] in a;
      }
    }
  }

  /** Every input name comes out exactly once, cycle or not. */
  lemma {:induction false} DrainPermutes(g: Graph, names: seq<string>, out: seq<string>)
    requires Partial(names, out)
    ensures NoDup(Drain(g, names, out).names)
    ensures Elements(Drain(g, names, out).names) == Elements(names)
    decreases |names| - |out|
  {
    PartialSize(names, out);
    if |out| < |names| {
      ScanGrows(g, names, names, out);
      var next := Scan(g, names, out);
      PartialSize(names, next);
      if |next| == |out| {
        UnemittedExact(names, out);
        Joined(out, Unemitted(names, out));
      } else {
        DrainPermutes(g, names, next);
      }
    }
  }

  // ---------------------------------------------------------------- dependencies first

  /** Everything out so far came after all that it references. */
  ghost predicate DepsFirst(g: Graph, out: seq<string>) {
    forall i :: 0 <= i < |out| && out[i] in g ==> forall d :: d in g[out[i]] ==> d in out[..i]
  }

  lemma {:induction false} ScanDepsFirst(g: Graph, rest: seq<string>, out: seq<string>)
    requires DepsFirst(g, out)
    ensures DepsFirst(g, Scan(g, rest, out))
    decreases |rest|
  {
    if rest != [] {
      var next := if Free(g, out, rest[0]) then out + [rest[0]] else out;
      forall i | 0 <= i < |next| && next[i] in g
        ensures forall d :: d in g[next[i]] ==> d in next[..i]
      {
        assert next[..i] == out[..i];
      }
      ScanDepsFirst(g, rest[1..], next);
    }
  }

  /** Without a cycle error, each name follows every other in-set name it references. */
  lemma {:induction false} DrainDepsFirst(g: Graph, names: seq<string>, out: seq<string>)
    requires Partial(names, out) && DepsFirst(g, out)
    ensures !Drain(g, names, out).cycle ==> DepsFirst(g, Drain(g, names, out).names)
    decreases |names| - |out|
  {
    PartialSize(names, out);
    if |out| < |names| {
      ScanGrows(g, names, names, out);
      ScanDepsFirst(g, names, out);
      var next := Scan(g, names, out);
      PartialSize(names, next);
      if |next| > |out| {
        DrainDepsFirst(g, names, next);
      }
    }
  }

  // ---------------------------------------------------------------- exactly the cycles

  ghost predicate Step(g: Graph, a: string, b: string) { a in g && b in g[a] }

  /** A walk along references. */
  ghost predicate Walk(g: Graph, p: seq<string>)
    decreases |p|
  {
    |p| <= 1 || (Step(g, p[0], p[1]) && Walk(g, p[1..]))
  }

  ghost predicate HasCycle(g: Graph) {
    exists p :: |p| >= 2 && p[0] == p[|p| - 1] && Walk(g, p)
  }

  ghost function Position(out: seq<string>, x: string): (k: nat)
    requires x in out
    ensures k < |out| && out[k] == x
  {
    var i :| 0 <= i < |out| && out[i] == x;
    i
  }

  /** Along a walk the positions in a dependencies-first list fall. */
  lemma {:induction false} WalkFalls(g: Graph, out: seq<string>, p: seq<string>)
    requires NoDup(out) && DepsFirst(g, out) && Walk(g, p) && |p| >= 2 && p[0] in out
    ensures p[|p| - 1] in out && Position(out, p[|p| - 1]) < Position(out, p[0])
    decreases |p|
  {
    var i := Position(out, p[0]);
    assert p[1] in out[..i];
    var j :| 0 <= j < i && out[j] == p[1];
    assert Position(out, p[1]) == j;
    if |p| > 2 {
      WalkFalls(g, out, p[1..]);
    }
  }

  lemma {:induction false} WalkSlice(g: Graph, p: seq<string>, i: nat, j: nat)
    requires Walk(g, p) && i <= j <= |p|
    ensures Walk(g, p[i..j])
    decreases |p|
  {
    if i > 0 {
      WalkSlice(g, p[1..], i - 1, j - 1);
      assert p[1..][i - 1..j - 1] == p[i..j];
    } else if j > 1 {
      WalkSlice(g, p[1..], 0, j - 1);
      assert p[0..j][1..] == p[1..][0..j - 1];
    }
  }

  lemma {:induction false} ScanIdle(g: Graph, rest: seq<string>, out: seq<string>)
    requires |Scan(g, rest, out)| == |out|
    ensures Scan(g, rest, out) == out && forall x :: x in rest ==> !Free(g, out, x)
    decreases |rest|
  {
    if rest != [] {
      ScanLonger(g, rest[1..], if Free(g, out, rest[0]) then out + [rest[0]] else out);
      ScanIdle(g, rest[1..], out);
    }
  }

  lemma {:induction false} ScanLonger(g: Graph, rest: seq<string>, out: seq<string>)
    ensures |out| <= |Scan(g, rest, out)|
    decreases |rest|
  {
    if rest != [] {
      ScanLonger(g, rest[1..], if Free(g, out, rest[0]) then out + [rest[0]] else out);
    }
  }

  /** The graph mentions only the names. */
  ghost predicate OnNames(g: Graph, names: seq<string>) {
    g.Keys == Elements(names) && forall n :: n in g ==> g[n] <= Elements(names)
  }

  ghost predicate Blocks(g: Graph, s: set<string>, n: string) { exists d :: d in s && Step(g, n, d) }

  ghost predicate Blocked(g: Graph, s: set<string>) { forall n :: n in s ==> Blocks(g, s, n) }

  /** From inside a blocked set one can walk as long as one likes without leaving it. */
  lemma {:induction false} LongWalk(g: Graph, s: set<string>, start: string, len: nat) returns (p: seq<string>)
    requires Blocked(g, s) && start in s && len >= 1
    ensures |p| == len && p[0] == start && Walk(g, p) && Elements(p) <= s
    decreases len
  {
    if len == 1 {
      p := [start];
    } else {
      assert Blocks(g, s, start);
      var d :| d in s && Step(g, start, d);
      var q := LongWalk(g, s, d, len - 1);
      p := [start] + q;
      assert p[1..] == q && Elements(p) == Elements(q) + {start};
    }
  }

  lemma Pigeonhole(p: seq<string>, s: set<string>) returns (i: nat, j: nat)
    requires Elements(p) <= s && |p| > |s|
    ensures i < j < |p| && p[i] == p[j]
  {
    if NoDup(p) {
      NoDupSize(p);
      SubsetSize(Elements(p), s);
    }
    i, j :| 0 <= i < j < |p| && p[i] == p[j];
  }

  /** More steps than there are names must come back to one of them. */
  lemma BlockedCycles(g: Graph, s: set<string>, start: string)
    requires Blocked(g, s) && start in s
    ensures HasCycle(g)
  {
    var p := LongWalk(g, s, start, |s| + 1);
    var i, j := Pigeonhole(p, s);
    WalkSlice(g, p, i, j + 1);
    CycleFound(g, p[i..j + 1]);
  }

  lemma CycleFound(g: Graph, p: seq<string>)
    requires |p| >= 2 && p[0] == p[|p| - 1] && Walk(g, p)
    ensures HasCycle(g)
  {
  }

  /** The cycle error is returned exactly when the references have a cycle. */
  lemma {:induction false} DrainCycleExact(g: Graph, names: seq<string>, out: seq<string>)
    requires Partial(names, out) && DepsFirst(g, out) && OnNames(g, names)
    ensures Drain(g, names, out).cycle <==> HasCycle(g)
    decreases |names| - |out|
  {
    PartialSize(names, out);
    if |out| == |names| {
      DepsFirstAcyclic(g, out);
    } else {
      ScanGrows(g, names, names, out);
      ScanDepsFirst(g, names, out);
      var next := Scan(g, names, out);
      PartialSize(names, next);
      if |next| == |out| {
        StuckCycles(g, names, out);
      } else {
        DrainCycleExact(g, names, next);
      }
    }
  }

  /** A pass that emits nothing leaves names that all wait for one another. */
  lemma StuckCycles(g: Graph, names: seq<string>, out: seq<string>)
    requires Partial(names, out) && OnNames(g, names) && |out| < |names|
    requires |Scan(g, names, out)| == |out|
    ensures HasCycle(g)
  {
    ScanIdle(g, names, out);
    var s := Elements(names) - Elements(out);
    forall n | n in s
      ensures Blocks(g, s, n)
    {
      assert !Free(g, out, n);
      var d :| d in g[n] && d !in out;
      assert Step(g, n, d);
    }
    var start := SomeLeft(names, out);
    BlockedCycles(g, s, start);
  }

  lemma SomeLeft(names: seq<string>, out: seq<string>) returns (n: string)
    requires Partial(names, out) && |out| < |names|
    ensures n in names && n !in out
  {
    NoDupSize(names);
    NoDupSize(out);
    if Elements(names) <= Elements(out) {
      SubsetSize(Elements(names), Elements(out));
    }
    n :| n in Elements(names) && n !in Elements(out);
  }

  lemma DepsFirstAcyclic(g: Graph, out: seq<string>)
    requires NoDup(out) && DepsFirst(g, out) && g.Keys == Elements(out)
    ensures !HasCycle(g)
  {
    forall p | |p| >= 2 && Walk(g, p)
      ensures p[0] != p[|p| - 1]
    {
      assert p[0] in g && p[0] in Elements(out);
      WalkFalls(g, out, p);
    }
  }

  // ---------------------------------------------------------------- the graph of a Blueprint list

  function TypesOf(bps: seq<Blueprint>): (r: seq<string>)
    ensures |r| == |bps| && forall i :: 0 <= i < |bps| ==> r[i] == bps[i].typ
  {
    seq(|bps|, i requires 0 <= i < |bps| => bps[i].typ)
  }

  predicate Counts(name: string, ref: string, inSet: set<string>) {
    ref != "" && ref in inSet && ref != name
  }

  /** The in-set references of a field list, one per field, self-references dropped. */
  function RefsOf(name: string, fields: seq<Field>, inSet: set<string>): seq<string> {
    if fields == [] then []
    else
      var ref := ReferencedType(fields[|fields| - 1].spec);
      RefsOf(name, fields[..|fields| - 1], inSet) + if Counts(name, ref, inSet) then [ref] else []
  }

  /** Some field refers to `r`. */
  ghost predicate Refers(fields: seq<Field>, r: string) {
    exists i :: 0 <= i < |fields| && ReferencedType(fields[i].spec) == r
  }

  lemma RefersSnoc(fields: seq<Field>, r: string)
    requires fields != []
    ensures var n := |fields| - 1; Refers(fields, r) <==> Refers(fields[..n], r) || ReferencedType(fields[n].spec) == r
  {
    var n := |fields| - 1;
    if Refers(fields, r) {
      var i :| 0 <= i < |fields| && ReferencedType(fields[i].spec) == r;
      assert i < n ==> ReferencedType(fields[..n][i].spec) == r;
    }
    if Refers(fields[..n], r) {
      var i :| 0 <= i < n && ReferencedType(fields[..n][i].spec) == r;
      assert ReferencedType(fields[i].spec) == r;
    }
  }

  lemma {:induction false} RefsExact(name: string, fields: seq<Field>, inSet: set<string>, r: string)
    ensures r in RefsOf(name, fields, inSet) <==> Counts(name, r, inSet) && Refers(fields, r)
    decreases |fields|
  {
    if fields != [] {
      RefersSnoc(fields, r);
      RefsExact(name, fields[..|fields| - 1], inSet, r);
    }
  }

  lemma RefsAll(name: string, fields: seq<Field>, inSet: set<string>)
    ensures forall r :: r in RefsOf(name, fields, inSet) <==> Counts(name, r, inSet) && Refers(fields, r)
  {
    forall r
      ensures r in RefsOf(name, fields, inSet) <==> Counts(name, r, inSet) && Refers(fields, r)
    {
      RefsExact(name, fields, inSet, r);
    }
  }

  /** Each type with its counted references. */
  function RefMap(bps: seq<Blueprint>, inSet: set<string>): (m: map<string, seq<string>>)
    ensures m.Keys == Elements(TypesOf(bps))
  {
    if bps == [] then map[]
    else
      var n := |bps| - 1;
      assert TypesOf(bps) == TypesOf(bps[..n]) + [bps[n].typ];
      RefMap(bps[..n], inSet)[bps[n].typ := RefsOf(bps[n].typ, bps[n].fields, inSet)]
  }

  function GraphOf(bps: seq<Blueprint>): (g: Graph)
    ensures g.Keys == Elements(TypesOf(bps))
  {
    var m := RefMap(bps, Elements(TypesOf(bps)));
    map n | n in m :: Elements(m[n])
  }

  ghost predicate DistinctTypes(bps: seq<Blueprint>) { NoDup(TypesOf(bps)) }

  lemma {:induction false} RefMapAt(bps: seq<Blueprint>, inSet: set<string>, i: nat)
    requires DistinctTypes(bps) && i < |bps|
    ensures bps[i].typ in RefMap(bps, inSet)
    ensures RefMap(bps, inSet)[bps[i].typ] == RefsOf(bps[i].typ, bps[i].fields, inSet)
    decreases |bps|
  {
    var n := |bps| - 1;
    if i < n {
      assert TypesOf(bps[..n]) == TypesOf(bps)[..n];
      RefMapAt(bps[..n], inSet, i);
      assert TypesOf(bps)[i] != TypesOf(bps)[n];
    }
  }

  lemma GraphOnNames(bps: seq<Blueprint>, names: seq<string>)
    requires DistinctTypes(bps) && Elements(names) == Elements(TypesOf(bps))
    ensures OnNames(GraphOf(bps), names)
  {
    var inSet := Elements(TypesOf(bps));
    forall n | n in GraphOf(bps)
      ensures GraphOf(bps)[n] <= Elements(names)
    {
      var i :| 0 <= i < |bps| && TypesOf(bps)[i] == n;
      RefMapAt(bps, inSet, i);
      RefsAll(n, bps[i].fields, inSet);
    }
  }

  // ---------------------------------------------------------------- alphabetical order

  predicate NameLess(a: string, b: string) { Less(NameBytes(a), NameBytes(b)) }

  function InsertName(n: string, ns: seq<string>): seq<string> {
    if ns == [] || !NameLess(ns[0], n) then [n] + ns else [ns[0]] + InsertName(n, ns[1..])
  }

  /** `sort.Strings`. */
  function SortNames(ns: seq<string>): seq<string> {
    if ns == [] then [] else InsertName(ns[0], SortNames(ns[1..]))
  }

  lemma {:induction false} InsertNameSame(n: string, ns: seq<string>)
    ensures Elements(InsertName(n, ns)) == Elements(ns) + {n} && |InsertName(n, ns)| == |ns| + 1
    ensures NoDup(ns) && n !in ns ==> NoDup(InsertName(n, ns))
    decreases |ns|
  {
    if ns == [] || !NameLess(ns[0], n) {
    } else {
      InsertNameSame(n, ns[1..]);
      assert Elements(ns) == Elements(ns[1..]) + {ns[0]};
      var r := InsertName(n, ns[1..]);
      assert Elements([ns[0]] + r) == {ns[0]} + Elements(r);
      if NoDup(ns) && n !in ns {
        assert ns[0] !in Elements(r);
      }
    }
  }

  lemma {:induction false} SortNamesSame(ns: seq<string>)
    ensures Elements(SortNames(ns)) == Elements(ns) && |SortNames(ns)| == |ns|
    ensures NoDup(ns) ==> NoDup(SortNames(ns))
    decreases |ns|
  {
    if ns != [] {
      SortNamesSame(ns[1..]);
      InsertNameSame(ns[0], SortNames(ns[1..]));
      assert Elements(ns) == Elements(ns[1..]) + {ns[0]};
      if NoDup(ns) {
        assert ns[0] !in Elements(ns[1..]);
      }
    }
  }

  /** What the ordering returns for a list of distinct Blueprints. */
  ghost function Ordering(bps: seq<Blueprint>): Sorted
    requires DistinctTypes(bps)
  {
    SortNamesSame(TypesOf(bps));
    Drain(GraphOf(bps), SortNames(TypesOf(bps)), [])
  }

  /**
   * The order is a permutation of the input; without the error every name follows the in-set
   * names it references; and the error is returned exactly when the references, less
   * self-references, have a cycle.
   */
  lemma OrderingCorrect(bps: seq<Blueprint>)
    requires DistinctTypes(bps)
    ensures NoDup(Ordering(bps).names) && Elements(Ordering(bps).names) == Elements(TypesOf(bps))
    ensures !Ordering(bps).cycle ==> DepsFirst(GraphOf(bps), Ordering(bps).names)
    ensures Ordering(bps).cycle <==> HasCycle(GraphOf(bps))
  {
    var g, names := GraphOf(bps), SortNames(TypesOf(bps));
    SortNamesSame(TypesOf(bps));
    GraphOnNames(bps, names);
    DrainPermutes(g, names, []);
    DrainDepsFirst(g, names, []);
    DrainCycleExact(g, names, []);
  }

  // ---------------------------------------------------------------- independence of input order

  ghost predicate Rising(ns: seq<string>) {
    forall i, j :: 0 <= i < j < |ns| ==> NameLess(ns[i], ns[j])
  }

  ghost predicate ByteNames(ns: seq<string>) { forall n :: n in ns ==> ByteName(n) }

  lemma NameLessTotal(a: string, b: string)
    requires ByteName(a) && ByteName(b) && a != b
    ensures NameLess(a, b) || NameLess(b, a)
  {
    NameRoundTrip(a);
    NameRoundTrip(b);
    LessTotal(NameBytes(a), NameBytes(b));
  }

  lemma {:induction false} InsertNameRises(n: string, ns: seq<string>)
    requires Rising(ns) && ByteNames(ns) && ByteName(n) && n !in ns
    ensures Rising(InsertName(n, ns))
    decreases |ns|
  {
    if ns != [] {
      if NameLess(ns[0], n) {
        InsertNameRises(n, ns[1..]);
        InsertNameSame(n, ns[1..]);
        var r := InsertName(n, ns[1..]);
        forall j | 0 <= j < |r|
          ensures NameLess(ns[0], r[j])
        {
          assert r[j] in Elements(r);
          if r[j] != n {
            assert r[j] in ns[1..];
          }
        }
      } else {
        NameLessTotal(ns[0], n);
        forall j | 0 < j < |ns|
          ensures NameLess(n, ns[j])
        {
          LessTransitive(NameBytes(n), NameBytes(ns[0]), NameBytes(ns[j]));
        }
      }
    }
  }

  lemma {:induction false} SortNamesRises(ns: seq<string>)
    requires NoDup(ns) && ByteNames(ns)
    ensures Rising(SortNames(ns))
    decreases |ns|
  {
    if ns != [] {
      SortNamesRises(ns[1..]);
      SortNamesSame(ns[1..]);
      var r := SortNames(ns[1..]);
      forall x | x in r
        ensures ByteName(x) && x != ns[0]
      {
        assert x in Elements(ns[1..]);
      }
      InsertNameRises(ns[0], r);
    }
  }

  lemma FirstIsLeast(a: seq<string>, b: seq<string>)
    requires Rising(a) && Rising(b) && a != [] && Elements(a) == Elements(b)
    ensures b != [] && a[0] == b[0]
  {
    assert a[0] in Elements(b);
    var i :| 0 <= i < |b| && b[i] == a[0];
    assert b[0] in Elements(a);
    var j :| 0 <= j < |a| && a[j] == b[0];
    if i > 0 && j > 0 {
      LessTransitive(NameBytes(a[0]), NameBytes(b[0]), NameBytes(a[0]));
      LessIrreflexive(NameBytes(a[0]));
    }
  }

  lemma RisingTail(a: seq<string>)
    requires Rising(a) && a != []
    ensures Rising(a[1..]) && Elements(a[1..]) == Elements(a) - {a[0]}
  {
    forall x | x in a[1..]
      ensures x != a[0]
    {
      LessIrreflexive(NameBytes(x));
    }
    assert Elements(a) == Elements(a[1..]) + {a[0]};
  }

  lemma {:induction false} RisingUnique(a: seq<string>, b: seq<string>)
    requires Rising(a) && Rising(b) && Elements(a) == Elements(b)
    ensures a == b
    decreases |a|
  {
    if a != [] {
      FirstIsLeast(a, b);
      RisingTail(a);
      RisingTail(b);
      RisingUnique(a[1..], b[1..]);
    } else if b != [] {
      FirstIsLeast(b, a);
    }
  }

  lemma SameGraph(a: seq<Blueprint>, b: seq<Blueprint>)
    requires DistinctTypes(a) && DistinctTypes(b) && Elements(TypesOf(a)) == Elements(TypesOf(b))
    requires forall x :: x in a ==> x in b
    ensures GraphOf(a) == GraphOf(b)
  {
    var inSet := Elements(TypesOf(a));
    forall n | n in GraphOf(a)
      ensures GraphOf(a)[n] == GraphOf(b)[n]
    {
      var i :| 0 <= i < |a| && TypesOf(a)[i] == n;
      RefMapOf(a, inSet, a[i]);
      RefMapOf(b, inSet, a[i]);
    }
  }

  lemma RefMapOf(bps: seq<Blueprint>, inSet: set<string>, b: Blueprint)
    requires DistinctTypes(bps) && b in bps
    ensures b.typ in RefMap(bps, inSet) && RefMap(bps, inSet)[b.typ] == RefsOf(b.typ, b.fields, inSet)
  {
    var i :| 0 <= i < |bps| && bps[i] == b;
    RefMapAt(bps, inSet, i);
  }

  lemma SameNames(a: seq<string>, b: seq<string>)
    requires NoDup(a) && NoDup(b) && Elements(a) == Elements(b) && ByteNames(a)
    ensures SortNames(a) == SortNames(b)
  {
    forall n | n in b
      ensures ByteName(n)
    {
      assert n in Elements(a);
    }
    SortNamesSame(a);
    SortNamesSame(b);
    SortNamesRises(a);
    SortNamesRises(b);
    RisingUnique(SortNames(a), SortNames(b));
  }

  /** The order does not depend on the order in which the Blueprints are given. */
  lemma OrderingInputFree(a: seq<Blueprint>, b: seq<Blueprint>)
    requires DistinctTypes(a) && DistinctTypes(b) && ByteNames(TypesOf(a))
    requires forall x :: x in a <==> x in b
    ensures Ordering(a) == Ordering(b)
  {
    SameTypes(a, b);
    SameTypes(b, a);
    SameGraph(a, b);
    SameNames(TypesOf(a), TypesOf(b));
  }

  lemma SameTypes(a: seq<Blueprint>, b: seq<Blueprint>)
    requires forall x :: x in a ==> x in b
    ensures Elements(TypesOf(a)) <= Elements(TypesOf(b))
  {
    forall n | n in Elements(TypesOf(a))
      ensures n in Elements(TypesOf(b))
    {
      var i :| 0 <= i < |a| && TypesOf(a)[i] == n;
      assert a[i] in b;
      var j :| 0 <= j < |b| && b[j] == a[i];
      assert TypesOf(b)[j] == n;
    }
  }

  // ---------------------------------------------------------------- who comes before whom

  /** Some walk along references from `n` meets a name twice. */
  ghost predicate LeadsRound(g: Graph, n: string) { exists p :: p != [] && p[0] == n && Walk(g, p) && !NoDup(p) }

  /** From a name that is out with all it references, no walk goes round. */
  lemma NotRound(g: Graph, out: seq<string>, p: seq<string>)
    requires NoDup(out) && DepsFirst(g, out) && p != [] && Walk(g, p) && p[0] in out
    ensures NoDup(p)
  {
    forall i, j | 0 <= i < j < |p|
      ensures p[i] != p[j]
    {
      WalkStays(g, out, p, i);
      WalkSlice(g, p, i, j + 1);
      WalkFalls(g, out, p[i..j + 1]);
    }
  }

  lemma WalkStays(g: Graph, out: seq<string>, p: seq<string>, i: nat)
    requires NoDup(out) && DepsFirst(g, out) && i < |p| && Walk(g, p) && p[0] in out
    ensures p[i] in out
  {
    if i > 0 {
      WalkSlice(g, p, 0, i + 1);
      WalkFalls(g, out, p[0..i + 1]);
    }
  }

  /** A name that waits for others that wait goes round. */
  lemma WaitsRound(g: Graph, s: set<string>, n: string)
    requires Blocked(g, s) && n in s
    ensures LeadsRound(g, n)
  {
    var p := LongWalk(g, s, n, |s| + 1);
    var i, j := Pigeonhole(p, s);
    assert !NoDup(p);
  }

  lemma StuckBlocked(g: Graph, names: seq<string>, out: seq<string>)
    requires Partial(names, out) && OnNames(g, names) && |Scan(g, names, out)| == |out|
    ensures Blocked(g, Elements(names) - Elements(out))
  {
    ScanIdle(g, names, out);
    var s := Elements(names) - Elements(out);
    forall n | n in s
      ensures Blocks(g, s, n)
    {
      assert !Free(g, out, n);
      var d :| d in g[n] && d !in out;
      assert Step(g, n, d);
    }
  }

  /** The order is `e`, all that does not go round, dependencies first, and then the rest as it was given. */
  lemma {:induction false} DrainShape(g: Graph, names: seq<string>, out: seq<string>) returns (e: seq<string>)
    requires Partial(names, out) && DepsFirst(g, out) && OnNames(g, names)
    ensures Drain(g, names, out).names == e + Unemitted(names, e)
    ensures NoDup(e) && DepsFirst(g, e) && forall n :: n in names ==> (n in e <==> !LeadsRound(g, n))
    decreases |names| - |out|
  {
    PartialSize(names, out);
    ScanGrows(g, names, names, out);
    ScanDepsFirst(g, names, out);
    var next := Scan(g, names, out);
    PartialSize(names, next);
    if |out| < |names| && |next| > |out| {
      e := DrainShape(g, names, next);
    } else {
      e := out;
      UnemittedExact(names, out);
      EndShape(g, names, out);
      assert |out| == |names| ==> Unemitted(names, out) == [];
    }
  }

  lemma EndShape(g: Graph, names: seq<string>, out: seq<string>)
    requires Partial(names, out) && DepsFirst(g, out) && OnNames(g, names)
    requires |out| == |names| || |Scan(g, names, out)| == |out|
    ensures forall n :: n in names ==> (n in out <==> !LeadsRound(g, n))
    ensures |out| == |names| ==> forall n :: n in names ==> n in out
  {
    PartialSize(names, out);
    forall n | n in names
      ensures n in out <==> !LeadsRound(g, n)
    {
      if n in out {
        forall p | p != [] && p[0] == n && Walk(g, p)
          ensures NoDup(p)
        {
          NotRound(g, out, p);
        }
      } else {
        assert n in Elements(names) && n !in Elements(out);
        StuckBlocked(g, names, out);
        WaitsRound(g, Elements(names) - Elements(out), n);
      }
    }
  }

  lemma {:induction false} UnemittedRises(names: seq<string>, out: seq<string>)
    requires Rising(names)
    ensures Rising(Unemitted(names, out))
    decreases |names|
  {
    if names != [] {
      UnemittedRises(names[1..], out);
      UnemittedExact(names[1..], out);
      var rest := Unemitted(names[1..], out);
      forall k | 0 <= k < |rest|
        ensures NameLess(names[0], rest[k])
      {
        assert rest[k] in rest && rest[k] in names[1..];
        var j :| 0 <= j < |names[1..]| && names[1..][j] == rest[k];
        assert names[j + 1] == rest[k];
      }
    }
  }

  /** In a rising list one name comes before another exactly when it is less. */
  lemma RisingPlaces(t: seq<string>, i: nat, r: string)
    requires Rising(t) && i < |t| && r in t && r != t[i]
    ensures r in t[..i] <==> NameLess(r, t[i])
  {
    var j :| 0 <= j < |t| && t[j] == r;
    if j > i && NameLess(r, t[i]) {
      LessTransitive(NameBytes(r), NameBytes(t[i]), NameBytes(r));
    }
    LessIrreflexive(NameBytes(r));
    if r in t[..i] {
      var k :| 0 <= k < i && t[k] == r;
    }
    if j < i {
      assert t[..i][j] == r;
    }
  }

  /**
   * A referenced name comes before the one that references it exactly when it does not lead
   * round, or is alphabetically less: the stuck names are appended in alphabetical order.
   */
  lemma OrderingPlaces(bps: seq<Blueprint>, i: nat, r: string)
    requires DistinctTypes(bps) && ByteNames(TypesOf(bps)) && i < |Ordering(bps).names|
    requires Step(GraphOf(bps), Ordering(bps).names[i], r) && r != Ordering(bps).names[i]
    ensures r in Ordering(bps).names[..i] <==> !LeadsRound(GraphOf(bps), r) || NameLess(r, Ordering(bps).names[i])
  {
    var g, names, all := GraphOf(bps), SortNames(TypesOf(bps)), Ordering(bps).names;
    SortNamesSame(TypesOf(bps));
    SortNamesRises(TypesOf(bps));
    GraphOnNames(bps, names);
    var e := DrainShape(g, names, []);
    UnemittedRises(names, e);
    UnemittedExact(names, e);
    assert r in Elements(names);
    ShapePlaces(g, names, e, all, i, r);
  }

  lemma ShapePlaces(g: Graph, names: seq<string>, e: seq<string>, all: seq<string>, i: nat, r: string)
    requires all == e + Unemitted(names, e) && i < |all| && NoDup(e) && DepsFirst(g, e) && Rising(Unemitted(names, e))
    requires forall n :: n in names ==> (n in e <==> !LeadsRound(g, n))
    requires forall x :: x in Unemitted(names, e) <==> x in names && x !in e
    requires Step(g, all[i], r) && r != all[i] && r in names
    ensures r in all[..i] <==> !LeadsRound(g, r) || NameLess(r, all[i])
  {
    var t := Unemitted(names, e);
    if i < |e| {
      assert r in e[..i] && all[..i] == e[..i];
    } else {
      assert all[..i] == e + t[..i - |e|];
      if r !in e {
        RisingPlaces(t, i - |e|, r);
      }
    }
  }

  // ---------------------------------------------------------------- the algorithm

  /** How many of the references are not out yet. */
  function Pending(refs: seq<string>, out: seq<string>): nat {
    if refs == [] then 0
    else Pending(refs[..|refs| - 1], out) + if refs[|refs| - 1] in out then 0 else 1
  }

  lemma {:induction false} PendingNone(refs: seq<string>, out: seq<string>)
    ensures Pending(refs, out) == 0 <==> forall r :: r in Elements(refs) ==> r in out
    decreases |refs|
  {
    if refs != [] {
      var n := |refs| - 1;
      PendingNone(refs[..n], out);
      assert Elements(refs) == Elements(refs[..n]) + {refs[n]};
    }
  }

  lemma {:induction false} PendingAll(refs: seq<string>)
    ensures Pending(refs, []) == |refs|
    decreases |refs|
  {
    if refs != [] {
      PendingAll(refs[..|refs| - 1]);
    }
  }

  /** Emitting a name settles each reference to it. */
  lemma {:induction false} PendingEmit(refs: seq<string>, out: seq<string>, n: string)
    requires n !in out
    ensures Pending(refs, out + [n]) == Pending(refs, out) - multiset(refs)[n]
    decreases |refs|
  {
    if refs != [] {
      var k := |refs| - 1;
      PendingEmit(refs[..k], out, n);
      assert refs == refs[..k] + [refs[k]];
    }
  }

  function Get(adj: map<string, seq<string>>, n: string): seq<string> { if n in adj then adj[n] else [] }

  /** The adjacency lists hold each reference once, reversed. */
  ghost predicate Reverses(adj: map<string, seq<string>>, m: map<string, seq<string>>) {
    && (forall r, n :: n in m ==> multiset(Get(adj, r))[n] == multiset(m[n])[r])
    && (forall r, n :: n in Get(adj, r) ==> n in m)
  }

  ghost predicate Degrees(inDeg: map<string, int>, m: map<string, seq<string>>, out: seq<string>) {
    inDeg.Keys == m.Keys && forall n :: n in m ==> inDeg[n] == Pending(m[n], out)
  }

  lemma RefMapSnoc(bps: seq<Blueprint>, inSet: set<string>, i: nat)
    requires i < |bps|
    ensures RefMap(bps[..i + 1], inSet) ==
            RefMap(bps[..i], inSet)[bps[i].typ := RefsOf(bps[i].typ, bps[i].fields, inSet)]
  {
    assert bps[..i + 1][..i] == bps[..i];
  }

  lemma FreshType(bps: seq<Blueprint>, inSet: set<string>, i: nat)
    requires i < |bps| && DistinctTypes(bps)
    ensures bps[i].typ !in RefMap(bps[..i], inSet)
  {
    forall j | 0 <= j < i
      ensures TypesOf(bps[..i])[j] != bps[i].typ
    {
      assert TypesOf(bps)[j] != TypesOf(bps)[i];
    }
  }

  /** The first loops: in-degrees and adjacency lists from the fields. */
  method BuildGraph(bps: seq<Blueprint>, inSet: set<string>) returns (inDeg: map<string, int>, adj: map<string, seq<string>>)
    requires DistinctTypes(bps)
    ensures Reverses(adj, RefMap(bps, inSet)) && Degrees(inDeg, RefMap(bps, inSet), [])
  {
    inDeg, adj := map[], map[];
    for i := 0 to |bps|
      invariant Reverses(adj, RefMap(bps[..i], inSet)) && Degrees(inDeg, RefMap(bps[..i], inSet), [])
    {
      FreshType(bps, inSet, i);
      RefMapSnoc(bps, inSet, i);
      inDeg, adj := AddBlueprint(bps[i], inSet, inDeg, adj, RefMap(bps[..i], inSet));
    }
    assert bps[..|bps|] == bps;
  }

  method AddBlueprint(b: Blueprint, inSet: set<string>, inDeg0: map<string, int>, adj0: map<string, seq<string>>,
                      ghost m: map<string, seq<string>>)
    returns (inDeg: map<string, int>, adj: map<string, seq<string>>)
    requires b.typ !in m && Reverses(adj0, m) && Degrees(inDeg0, m, [])
    ensures Reverses(adj, m[b.typ := RefsOf(b.typ, b.fields, inSet)])
    ensures Degrees(inDeg, m[b.typ := RefsOf(b.typ, b.fields, inSet)], [])
  {
    var name := b.typ;
    inDeg, adj := inDeg0[name := 0], adj0;
    ghost var refs: seq<string> := [];
    AddName(inDeg0, adj0, m, name);
    for j := 0 to |b.fields|
      invariant refs == RefsOf(name, b.fields[..j], inSet)
      invariant Reverses(adj, m[name := refs]) && Degrees(inDeg, m[name := refs], [])
    {
      var ref := ReferencedType(b.fields[j].spec);
      RefsSnoc(name, b.fields, inSet, j);
      if ref != "" && ref in inSet && ref != name {
        AddRef(inDeg, adj, m, name, refs, ref);
        adj := adj[ref := Get(adj, ref) + [name]];
        inDeg := inDeg[name := inDeg[name] + 1];
        refs := refs + [ref];
      }
    }
    assert b.fields[..|b.fields|] == b.fields;
  }

  lemma RefsSnoc(name: string, fields: seq<Field>, inSet: set<string>, j: nat)
    requires j < |fields|
    ensures var ref := ReferencedType(fields[j].spec);
            RefsOf(name, fields[..j + 1], inSet) ==
            if Counts(name, ref, inSet) then RefsOf(name, fields[..j], inSet) + [ref] else RefsOf(name, fields[..j], inSet)
  {
    assert fields[..j + 1][..j] == fields[..j];
  }

  lemma AddRef(inDeg: map<string, int>, adj: map<string, seq<string>>, m: map<string, seq<string>>, name: string,
               refs: seq<string>, ref: string)
    requires Reverses(adj, m[name := refs]) && Degrees(inDeg, m[name := refs], [])
    ensures name in inDeg
    ensures Reverses(adj[ref := Get(adj, ref) + [name]], m[name := refs + [ref]])
    ensures Degrees(inDeg[name := inDeg[name] + 1], m[name := refs + [ref]], [])
  {
    AddEdge(adj, m[name := refs], name, ref);
    AddDegree(inDeg, m[name := refs], name, ref);
    assert m[name := refs][name := refs + [ref]] == m[name := refs + [ref]];
  }

  lemma AddName(inDeg: map<string, int>, adj: map<string, seq<string>>, m: map<string, seq<string>>, name: string)
    requires Reverses(adj, m) && Degrees(inDeg, m, []) && name !in m
    ensures Reverses(adj, m[name := []]) && Degrees(inDeg[name := 0], m[name := []], [])
  {
    forall r
      ensures multiset(Get(adj, r))[name] == 0
    {
      assert name !in Get(adj, r);
    }
  }

  lemma AddDegree(inDeg: map<string, int>, m: map<string, seq<string>>, name: string, ref: string)
    requires Degrees(inDeg, m, []) && name in m
    ensures Degrees(inDeg[name := inDeg[name] + 1], m[name := m[name] + [ref]], [])
  {
    PendingAll(m[name]);
    PendingAll(m[name] + [ref]);
  }

  lemma AddEdge(adj: map<string, seq<string>>, m: map<string, seq<string>>, name: string, ref: string)
    requires Reverses(adj, m) && name in m
    ensures Reverses(adj[ref := Get(adj, ref) + [name]], m[name := m[name] + [ref]])
  {
    var a, c := adj[ref := Get(adj, ref) + [name]], m[name := m[name] + [ref]];
    forall r, n | n in c
      ensures multiset(Get(a, r))[n] == multiset(c[n])[r]
    {
      assert multiset(Get(adj, r))[n] == multiset(m[n])[r];
    }
    forall r, n | n in Get(a, r)
      ensures n in c
    {
      if n != name {
        assert n in Get(adj, r);
      }
    }
  }

  /** Emitting `n` lowers the in-degree of everything that references it. */
  method Release(inDeg0: map<string, int>, adj: map<string, seq<string>>, n: string,
                 ghost m: map<string, seq<string>>, ghost out: seq<string>) returns (inDeg: map<string, int>)
    requires Reverses(adj, m) && Degrees(inDeg0, m, out) && n !in out
    ensures Degrees(inDeg, m, out + [n])
  {
    inDeg := inDeg0;
    var ds := Get(adj, n);
    for k := 0 to |ds|
      invariant inDeg.Keys == m.Keys
      invariant forall x :: x in m ==> inDeg[x] == inDeg0[x] - multiset(ds[..k])[x]
    {
      assert ds[..k + 1] == ds[..k] + [ds[k]];
      assert ds[k] in Get(adj, n);
      inDeg := inDeg[ds[k] := inDeg[ds[k]] - 1];
    }
    assert ds[..|ds|] == ds;
    forall x | x in m
      ensures inDeg[x] == Pending(m[x], out + [n])
    {
      PendingEmit(m[x], out, n);
    }
  }

  /** One alphabetical pass. */
  method Pass(names: seq<string>, inDeg0: map<string, int>, adj: map<string, seq<string>>, out0: seq<string>,
              ghost m: map<string, seq<string>>, ghost g: Graph)
    returns (inDeg: map<string, int>, out: seq<string>, progress: bool)
    requires Reverses(adj, m) && Degrees(inDeg0, m, out0)
    requires Elements(names) == m.Keys == g.Keys && forall n :: n in m ==> g[n] == Elements(m[n])
    ensures out == Scan(g, names, out0) && Degrees(inDeg, m, out)
    ensures progress <==> |out| > |out0|
  {
    inDeg, out, progress := inDeg0, out0, false;
    assert names[0..] == names;
    for i := 0 to |names|
      invariant Degrees(inDeg, m, out) && |out| >= |out0| && (progress <==> |out| > |out0|)
      invariant Scan(g, names, out0) == Scan(g, names[i..], out)
    {
      var n := names[i];
      assert names[i..][1..] == names[i + 1..] && n in Elements(names);
      PendingNone(m[n], out);
      if n !in out && inDeg[n] == 0 {
        inDeg := Release(inDeg, adj, n, m, out);
        out, progress := out + [n], true;
      }
    }
  }

  /** `orderBlueprintsByReference`. */
  method OrderByReference(bps: seq<Blueprint>) returns (out: seq<string>, err: Option<Err>)
    requires DistinctTypes(bps)
    ensures out == Ordering(bps).names
    ensures err == if Ordering(bps).cycle then Some(Cycle) else None
  {
    var inSet := Elements(TypesOf(bps));
    var inDeg, adj := BuildGraph(bps, inSet);
    var names := SortNames(TypesOf(bps));
    SortNamesSame(TypesOf(bps));
    ghost var m, g := RefMap(bps, inSet), GraphOf(bps);
    out, err := [], None;
    while |out| < |names|
      invariant Partial(names, out) && Degrees(inDeg, m, out)
      invariant Drain(g, names, []) == Drain(g, names, out)
      decreases |names| - |out|
    {
      ScanGrows(g, names, names, out);
      PartialSize(names, Scan(g, names, out));
      var progress, next;
      inDeg, next, progress := Pass(names, inDeg, adj, out, m, g);
      if !progress {
        return out + Unemitted(names, out), Some(Cycle);
      }
      out := next;
    }
    PartialSize(names, out);
  }
}
