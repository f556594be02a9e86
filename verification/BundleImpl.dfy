/** The bundle object: its list and index, and their codec on one mutable stream and ledger. */
module BundleImpl {
  import opened Wrappers
  import opened Bytes
  import opened Schema
  import opened Ledger
  import opened Streams
  import opened Codec
  import opened Bundles
  import opened ObjectIdentity
  import CodecWriter
  import CodecReader

  lemma InIndex(hash: Hasher, objects: seq<Val>, index: map<string, nat>, id: string)
    requires Indexed(hash, objects, index)
    ensures id in index <==> HasId(hash, objects, Some(id))
  {
    if HasId(hash, objects, Some(id)) {
      var i :| 0 <= i < |objects| && IdOf(hash, objects[i]) == Some(id);
    }
    if id in index {
      assert IdOf(hash, objects[index[id]]) == Some(id);
    }
  }

  /** `appendUnique`, and `append` on the fields of a bundle. */
  method AppendUnique(hash: Hasher, objects: seq<Val>, index: map<string, nat>, v: Val)
    returns (objects': seq<Val>, index': map<string, nat>, err: Option<Err>)
    requires Indexed(hash, objects, index)
    ensures Indexed(hash, objects', index')
    ensures err.None? <==> IsNew(hash, objects, v)
    ensures err.None? ==> objects' == objects + [v]
    ensures err.Some? ==> objects' == objects && index' == index
    ensures err.Some? ==> err.value == if IdOf(hash, v).None? then Unaddressable else Duplicate
    ensures Injective(hash) && Typed(v) && (forall i :: 0 <= i < |objects| ==> Typed(objects[i])) && IdOf(hash, v).Some? ==>
              (err == Some(Duplicate) <==> exists i :: 0 <= i < |objects| && SameWire(objects[i], v))
  {
    if Injective(hash) && Typed(v) && forall i :: 0 <= i < |objects| ==> Typed(objects[i]) {
      NewExactly(hash, objects, v);
    }
    var id := IdOf(hash, v);
    if id.None? {
      return objects, index, Some(Unaddressable);
    }
    InIndex(hash, objects, index, id.value);
    if id.value in index {
      return objects, index, Some(Duplicate);
    }
    IndexedSnoc(hash, objects, index, v);
    return objects + [v], index[id.value := |objects|], None;
  }

  /** The first `k` of `more` can be appended to `base` one after another. */
  ghost predicate NewInTurn(hash: Hasher, base: seq<Val>, more: seq<Val>, k: nat)
    requires k <= |more|
  {
    forall i :: 0 <= i < k ==> IsNew(hash, base + more[..i], more[i])
  }

  lemma PrefixSnoc<T>(base: seq<T>, more: seq<T>, i: nat)
    requires i < |more|
    ensures base + more[..i + 1] == base + more[..i] + [more[i]]
  {
  }

  lemma TurnSnoc(hash: Hasher, base: seq<Val>, more: seq<Val>, k: nat, at: seq<Val>)
    requires k < |more| && NewInTurn(hash, base, more, k) && at == base + more[..k] && IsNew(hash, at, more[k])
    ensures NewInTurn(hash, base, more, k + 1)
  {
    forall i | 0 <= i < k + 1
      ensures IsNew(hash, base + more[..i], more[i])
    {
      if i == k {
        assert base + more[..i] == at;
      }
    }
  }

  class Bundle {
    var objects: seq<Val>
    var index: map<string, nat>
    const hash: Hasher

    ghost predicate Valid()
      reads this
    {
      Indexed(hash, objects, index)
    }

    constructor (hash: Hasher)
      ensures Valid() && objects == [] && this.hash == hash
    {
      this.objects, this.index, this.hash := [], map[], hash;
    }

    method AppendOne(v: Val) returns (err: Option<Err>)
      requires Valid()
      modifies this
      ensures Valid()
      ensures err.None? <==> IsNew(hash, old(objects), v)
      ensures objects == if err.None? then old(objects) + [v] else old(objects)
      ensures err.Some? ==> index == old(index)
    {
      objects, index, err := AppendUnique(hash, objects, index, v);
    }

    /** The first `k` objects are new one after another and stay; the next one, if any, is refused. */
    method Append(more: seq<Val>) returns (err: Option<Err>, ghost k: nat)
      requires Valid()
      modifies this
      ensures Valid()
      ensures k <= |more| && objects == old(objects) + more[..k]
      ensures NewInTurn(hash, old(objects), more, k)
      ensures err.None? <==> k == |more|
      ensures err.Some? ==> !IsNew(hash, objects, more[k])
    {
      k, err := 0, None;
      assert objects + more[..0] == objects;
      for i := 0 to |more|
        invariant Valid() && err == None && k == i && objects == old(objects) + more[..i]
        invariant NewInTurn(hash, old(objects), more, i)
      {
        err := AppendOne(more[i]);
        if err.Some? {
          return;
        }
        PrefixSnoc(old(objects), more, i);
        TurnSnoc(hash, old(objects), more, i, old(objects) + more[..i]);
        k := k + 1;
      }
    }

    method Fetch(id: string) returns (v: Option<Val>)
      requires Valid()
      ensures v.None? <==> !HasId(hash, objects, Some(id))
      ensures v.Some? ==> IdOf(hash, v.value) == Some(id) && exists i :: 0 <= i < |objects| && objects[i] == v.value
    {
      InIndex(hash, objects, index, id);
      if id !in index {
        return None;
      }
      return Some(objects[index[id]]);
    }

    method WriteTo(w: ObjectWriter) returns (n: nat, err: Option<Err>)
      modifies w, w.b
      ensures WRes(CodecWriter.Now(w), err) == WriteBundle(objects, old(CodecWriter.Now(w)))
      ensures CodecWriter.Moved(w, n, err)
    {
      n := 0;
      err := w.b.Enter();
      if err.None? {
        n, err := CodecWriter.Put(w, BE(4, |objects|));
        if err.None? {
          var m;
          m, err := PutMembers(w, objects);
          n := n + m;
        }
      }
      w.b.Exit();
    }

    /** Members go into locals first; the bundle changes only when all of them were read. */
    method ReadFrom(reg: Registry, r: ObjectReader) returns (n: nat, err: Option<Err>)
      requires Valid() && PrimitivesCompiled(reg) && r.b.bytes <= MAX_BYTES
      modifies this, r, r.b
      ensures Valid()
      ensures match ReadBundle(reg, hash, old(CodecReader.Now(r)))
              case Got(vs, s) => CodecReader.Now(r) == s && err == None && objects == vs && n + |r.src| == old(|r.src|)
              case Lost(e, s) => CodecReader.Now(r) == s && err == Some(e) && objects == old(objects) && index == old(index)
    {
      n := 0;
      var all: seq<Val>, ids: map<string, nat> := [], map[];
      err := r.b.Enter();
      if err.None? {
        var b;
        b, err := CodecReader.Fill(r, 4);
        n := |b|;
        if err.None? {
          var m;
          all, ids, m, err := GetMembers(reg, hash, FromBE(b), r);
          n := n + m;
        }
      }
      r.b.Exit();
      if err.None? {
        objects, index := all, ids;
      }
    }
  }

  /** A block staged on the same ledger: type, payload, then the length and the bytes. */
  method PutMember(w: ObjectWriter, v: Val) returns (n: nat, err: Option<Err>)
    modifies w, w.b
    ensures WRes(CodecWriter.Now(w), err) == WriteMember(v, old(CodecWriter.Now(w)))
    ensures CodecWriter.Moved(w, n, err)
  {
    var raw := w.SubWriter();
    n, err := CodecWriter.PutLeaf(raw, Blob(1), Data(NameBytes(ObjectType(v))));
    if err.None? {
      n, err := CodecWriter.PutObject(raw, v);
    }
    if err.None? {
      n, err := CodecWriter.PutLeaf(w, Blob(4), Data(raw.out));
    }
  }

  method PutMembers(w: ObjectWriter, vs: seq<Val>) returns (n: nat, err: Option<Err>)
    modifies w, w.b
    ensures WRes(CodecWriter.Now(w), err) == WriteMembers(vs, old(CodecWriter.Now(w)))
    ensures CodecWriter.Moved(w, n, err)
  {
    n, err := 0, None;
    ghost var start := CodecWriter.Now(w);
    assert vs[0..] == vs;
    for i := 0 to |vs|
      invariant err == None && CodecWriter.Moved(w, n, err)
      invariant WriteMembers(vs, start) == WriteMembers(vs[i..], CodecWriter.Now(w))
    {
      assert vs[i..][1..] == vs[i + 1..];
      var m;
      m, err := PutMember(w, vs[i]);
      n := n + m;
      if err.Some? {
        return;
      }
    }
  }

  /** `Decode` of the bytes under a derived reader. */
  method GetNamed(reg: Registry, r: ObjectReader) returns (v: Val, n: nat, err: Option<Err>)
    requires PrimitivesCompiled(reg) && r.b.bytes <= MAX_BYTES
    modifies r, r.b
    ensures CodecReader.Did(r, old(|r.src|), v, n, err, ReadNamed(reg, old(CodecReader.Now(r))))
  {
    var name;
    name, n, err := CodecReader.GetTag(r);
    v := NilIface;
    if err.None? {
      var m;
      v, m, err := CodecReader.GetObject(reg, name, r);
      n := n + m;
    }
  }

  method GetMember(reg: Registry, r: ObjectReader) returns (v: Val, n: nat, err: Option<Err>)
    requires PrimitivesCompiled(reg) && r.b.bytes <= MAX_BYTES
    modifies r, r.b
    ensures CodecReader.Did(r, old(|r.src|), v, n, err, ReadMember(reg, old(CodecReader.Now(r))))
  {
    var p;
    p, n, err := CodecReader.GetLeaf(r, Blob(4));
    v := NilIface;
    if err.None? {
      var sub := r.Sub(p.s);
      sub.made := r.made;
      var m;
      v, m, err := GetNamed(reg, sub);
      r.made := sub.made;
    }
  }

  method GetNext(reg: Registry, hash: Hasher, objects: seq<Val>, index: map<string, nat>, r: ObjectReader)
    returns (objects': seq<Val>, index': map<string, nat>, n: nat, err: Option<Err>)
    requires PrimitivesCompiled(reg) && r.b.bytes <= MAX_BYTES && Indexed(hash, objects, index)
    modifies r, r.b
    ensures CodecReader.Did(r, old(|r.src|), objects', n, err, ReadNext(reg, hash, objects, old(CodecReader.Now(r))))
    ensures Indexed(hash, objects', index')
  {
    objects', index' := objects, index;
    var v;
    v, n, err := GetMember(reg, r);
    if err.None? {
      objects', index', err := AppendUnique(hash, objects, index, v);
    }
  }

  /** `all` is what remains to be read, `n` members after `done`. */
  ghost predicate Remains(all: Got<seq<Val>>, reg: Registry, hash: Hasher, n: nat, done: seq<Val>, st: RState)
    requires PrimitivesCompiled(reg) && st.led.bytes <= MAX_BYTES
  {
    all == ReadMembers(reg, hash, n, done, st)
  }

  lemma NextRemains(all: Got<seq<Val>>, reg: Registry, hash: Hasher, n: nat, done: seq<Val>, st: RState,
                    done': seq<Val>, st': RState)
    requires PrimitivesCompiled(reg) && st.led.bytes <= MAX_BYTES && Remains(all, reg, hash, n + 1, done, st)
    requires ReadNext(reg, hash, done, st) == Got(done', st')
    ensures Remains(all, reg, hash, n, done', st')
  {
  }

  lemma SameRemains(all: Got<seq<Val>>, reg: Registry, hash: Hasher, n: nat, m: nat, done: seq<Val>, st: RState)
    requires PrimitivesCompiled(reg) && st.led.bytes <= MAX_BYTES && n == m && Remains(all, reg, hash, n, done, st)
    ensures Remains(all, reg, hash, m, done, st)
  {
  }

  lemma Advance(all: Got<seq<Val>>, reg: Registry, hash: Hasher, n: nat, done: seq<Val>, st: RState,
                n': nat, done': seq<Val>, st': RState)
    requires PrimitivesCompiled(reg) && st.led.bytes <= MAX_BYTES && n == n' + 1 && Remains(all, reg, hash, n, done, st)
    requires ReadNext(reg, hash, done, st) == Got(done', st')
    ensures Remains(all, reg, hash, n', done', st')
  {
    SameRemains(all, reg, hash, n, n' + 1, done, st);
    NextRemains(all, reg, hash, n', done, st, done', st');
  }

  lemma NextFails(all: Got<seq<Val>>, reg: Registry, hash: Hasher, n: nat, done: seq<Val>, st: RState)
    requires PrimitivesCompiled(reg) && st.led.bytes <= MAX_BYTES && Remains(all, reg, hash, n, done, st)
    ensures n == 0 ==> all == Got(done, st)
    ensures var r := ReadNext(reg, hash, done, st); n > 0 && r.Lost? ==> all == Lost(r.err, r.st)
  {
  }

  method GetMembers(reg: Registry, hash: Hasher, count: nat, r: ObjectReader)
    returns (objects: seq<Val>, index: map<string, nat>, n: nat, err: Option<Err>)
    requires PrimitivesCompiled(reg) && r.b.bytes <= MAX_BYTES
    modifies r, r.b
    ensures CodecReader.Did(r, old(|r.src|), objects, n, err, ReadMembers(reg, hash, count, [], old(CodecReader.Now(r))))
    ensures Indexed(hash, objects, index)
  {
    objects, index, n, err := [], map[], 0, None;
    ghost var st, left := CodecReader.Now(r), count;
    ghost var all := ReadMembers(reg, hash, left, objects, st);
    for i := 0 to count
      invariant err == None && n + |r.src| == old(|r.src|) && st == CodecReader.Now(r) && left == count - i
      invariant r.b.bytes <= MAX_BYTES && Indexed(hash, objects, index)
      invariant Remains(all, reg, hash, left, objects, st)
    {
      ghost var done := objects;
      NextFails(all, reg, hash, left, done, st);
      var m;
      objects, index, m, err := GetNext(reg, hash, objects, index, r);
      n := n + m;
      if err.Some? {
        return;
      }
      ghost var less := left - 1;
      Advance(all, reg, hash, left, done, st, less, objects, CodecReader.Now(r));
      st, left := CodecReader.Now(r), less;
    }
    NextFails(all, reg, hash, left, objects, st);
  }
}
