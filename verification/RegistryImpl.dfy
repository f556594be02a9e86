/** The mutable registry: entries that only grow, over a chain of parents. */
module RegistryImpl {
  import opened Wrappers
  import opened Schema
  import opened Registries

  class Blueprints {
    var entries: map<string, RegEntry>
    const parent: Blueprints?
    ghost const height: nat

    /** The chain of parents ends. */
    ghost predicate Linked()
      decreases height
    {
      parent != null ==> parent.height < height && parent.Linked()
    }

    ghost function Chain(): set<object>
      requires Linked()
      decreases height
    {
      {this} + if parent == null then {} else parent.Chain()
    }

    ghost function View(): Registry
      requires Linked()
      reads Chain()
      decreases height
    {
      Registry(entries, if parent == null then None else Some(parent.View()))
    }

    /** No parent is its own child, so a change here leaves the parents alone. */
    lemma ParentApart()
      requires Linked() && parent != null
      ensures this !in parent.Chain()
    {
      Higher(parent, this);
    }

    static lemma {:induction false} Higher(p: Blueprints, q: Blueprints)
      requires p.Linked() && p.height < q.height
      ensures q !in p.Chain()
      decreases p.height
    {
      if p.parent != null {
        Higher(p.parent, q);
      }
    }

    lemma {:induction false} ChainAllocated()
      requires Linked()
      ensures forall o :: o in Chain() ==> allocated(o)
      decreases height
    {
      if parent != null {
        parent.ChainAllocated();
      }
    }

    constructor (parent: Blueprints?)
      requires parent != null ==> parent.Linked()
      ensures Linked() && entries == map[] && this.parent == parent
    {
      this.parent := parent;
      entries := map[];
      height := if parent == null then 0 else parent.height + 1;
    }

    /** `has` walks the parent chain. */
    predicate Exists(name: string)
      requires Linked()
      reads Chain()
      ensures Exists(name) == Has(View(), name)
      decreases height
    {
      name in entries || (parent != null && parent.Exists(name))
    }

    /** `validateReferences`. */
    method CheckReferences(b: Blueprint) returns (ok: bool)
      requires Linked() && !b.IsAlias()
      ensures ok <==> Reachable(View(), b)
      ensures ValidBlueprint(b) ==> (ok <==> FieldsResolve(View(), b.fields))
    {
      if ValidBlueprint(b) { ReachableExactly(View(), b); }
      for i := 0 to |b.fields|
        invariant forall j :: 0 <= j < i && ReferencedType(b.fields[j].spec) != "" ==> Has(View(), ReferencedType(b.fields[j].spec))
      {
        var ref := ReferencedType(b.fields[i].spec);
        if ref != "" {
          if !Exists(ref) {
            NeedAt(b, i);
            return false;
          }
        }
      }
      return true;
    }

    /**
     * Files a valid Blueprint under its own new name once all it needs is there, or changes
     * nothing. `addressable` says whether the stored descriptor has an Object ID: that is asked
     * last, so a Blueprint without one is reported and stays.
     */
    method RegisterBlueprint(b: Blueprint, addressable: Blueprint -> bool) returns (err: Option<Err>)
      requires Linked()
      modifies this`entries
      ensures err == if RegisterErr(old(View()), b).Some? then RegisterErr(old(View()), b)
                     else if addressable(b) then None else Some(Unaddressable)
      ensures View() == RegisterHere(old(View()), b)
      ensures err == None ==> if b.IsAlias() then Has(old(View()), b.underlying) else FieldsResolve(old(View()), b.fields)
    {
      if parent != null { ParentApart(); }
      ChainAllocated();
      err := ValidateBlueprint(b);
      if err.Some? {
        assert View() == old(View());
        return;
      }
      assert View() == old(View());
      RegisterExact(View(), b);
      if Exists(b.typ) {
        return Some(Registered);
      }
      var ok;
      if b.IsAlias() {
        ok := Exists(b.underlying);
      } else {
        ok := CheckReferences(b);
        assert View() == old(View());
      }
      if !ok {
        return Some(Invalid);
      }
      entries := entries[b.typ := Runtime(b)];
      if !addressable(b) {
        return Some(Unaddressable);
      }
    }

    /** A prototype is filed under its name, with its codec and what can be derived from it. */
    ghost predicate Stored(p: Prototype)
      reads this
    {
      p.name in entries && entries[p.name] == Proto(p.kind, p.derived)
    }

    /**
     * All names are checked before any is inserted; insertion stops at the first that exists,
     * and what was inserted before it stays.
     */
    method AddAll(ps: seq<Prototype>) returns (err: Option<Err>)
      requires Linked()
      modifies this`entries
      ensures err == Some(Invalid) <==> exists i :: 0 <= i < |ps| && (ps[i].name == "" || ps[i].blueprintType != "")
      ensures View() == if AllAddable(ps) then AddHere(old(View()), ps) else old(View())
      ensures err == None ==> forall i :: 0 <= i < |ps| ==> Stored(ps[i])
    {
      if parent != null { ParentApart(); }
      for i := 0 to |ps|
        invariant forall j :: 0 <= j < i ==> Addable(ps[j])
        invariant View() == old(View())
      {
        if ps[i].name == "" || ps[i].blueprintType != "" {
          return Some(Invalid);
        }
      }
      assert ps[0..] == ps;
      for i := 0 to |ps|
        invariant AddHere(old(View()), ps) == AddHere(View(), ps[i..])
        invariant forall j :: 0 <= j < i ==> Stored(ps[j])
      {
        assert ps[i..][1..] == ps[i + 1..];
        if Exists(ps[i].name) {
          return Some(Registered);
        }
        entries := entries[ps[i].name := Proto(ps[i].kind, ps[i].derived)];
      }
      return None;
    }
  }
}
