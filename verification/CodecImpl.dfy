/** The writers of the codec, step by step on one mutable stream and ledger. */
module CodecWriter {
  import opened Wrappers
  import opened Bytes
  import opened Schema
  import opened Ledger
  import opened Streams
  import opened Codec

  ghost function Now(w: ObjectWriter): WState
    reads w, w.b
  {
    WState(w.out, w.b.View())
  }

  /** `n` is what a successful call reports: the bytes it moved. */
  twostate predicate Moved(w: ObjectWriter, n: nat, err: Option<Err>)
    reads w
  {
    err.None? ==> |w.out| == old(|w.out|) + n
  }

  method Put(w: ObjectWriter, bs: seq<byte>) returns (n: nat, err: Option<Err>)
    modifies w, w.b
    ensures WRes(Now(w), err) == Emit(bs, old(Now(w))) && Moved(w, n, err)
  {
    if |bs| == 0 {
      assert w.out + bs == w.out;
      return 0, None;
    }
    err := w.Write(bs);
    n := |bs|;
  }

  method PutLeaf(w: ObjectWriter, k: Kind, p: Payload) returns (n: nat, err: Option<Err>)
    modifies w, w.b
    ensures WRes(Now(w), err) == WriteLeaf(k, p, old(Now(w))) && Moved(w, n, err)
  {
    if LeafErr(k, p).Some? {
      return 0, LeafErr(k, p);
    }
    if k.Opaque? {
      err := w.b.Nest(LeafOpens(k, p));
      if err.Some? {
        return 0, err;
      }
    }
    n, err := Put(w, LeafPrefix(k, p));
    if err.None? {
      var m;
      m, err := Put(w, LeafBody(k, p));
      n := n + m;
    }
  }

  method PutSlot(w: ObjectWriter, slot: Slot, v: Val) returns (n: nat, err: Option<Err>)
    modifies w, w.b
    ensures WRes(Now(w), err) == WriteSlot(slot, v, old(Now(w))) && Moved(w, n, err)
    decreases v, 4
  {
    match slot
    case FieldSlot(spec) => n, err := PutField(w, spec, v);
    case ElemSlot(t) => n, err := PutElem(w, t, v);
  }

  /** `writeField`. */
  method PutField(w: ObjectWriter, spec: Spec, v: Val) returns (n: nat, err: Option<Err>)
    modifies w, w.b
    ensures WRes(Now(w), err) == WriteSlot(FieldSlot(spec), v, old(Now(w))) && Moved(w, n, err)
    decreases v, 3
  {
    var m := 0;
    if spec.Ptr? {
      var absent := IsAbsent(v);
      n, err := Put(w, [if absent then 0 else 1]);
      if err.None? && !absent {
        m, err := PutObject(w, v);
        n := n + m;
      }
    } else if !spec.AnyObject? {
      n, err := PutObject(w, v);
    } else if v.NilIface? {
      return 0, Some(NilValue);
    } else if IsAbsent(v) {
      n, err := PutLeaf(w, Blob(1), Data(NameBytes("")));
    } else {
      n, err := EncodeTo(w, v);
    }
  }

  /** `ptrValue.WriteTo` and `interfaceValue.WriteTo` in their frames. */
  method PutElem(w: ObjectWriter, t: string, v: Val) returns (n: nat, err: Option<Err>)
    modifies w, w.b
    ensures WRes(Now(w), err) == WriteSlot(ElemSlot(t), v, old(Now(w))) && Moved(w, n, err)
    decreases v, 3
  {
    n := 0;
    err := w.b.Enter();
    if err.None? {
      if t == "" {
        n, err := PutIface(w, v);
      } else {
        var absent := v.NilIface? || v.NilPtr?;
        n, err := Put(w, [if absent then 0 else 1]);
        if err.None? && !absent {
          var m;
          m, err := PutObject(w, v);
          n := n + m;
        }
      }
    }
    w.b.Exit();
  }

  method PutIface(w: ObjectWriter, v: Val) returns (n: nat, err: Option<Err>)
    modifies w, w.b
    ensures WRes(Now(w), err) == WriteIface(v, old(Now(w))) && Moved(w, n, err)
    decreases v, 2
  {
    if IsAbsent(v) {
      n, err := Put(w, [0]);
      return;
    }
    if ObjectType(v) == "" {
      return 0, Some(Untyped);
    }
    n, err := PutLeaf(w, Blob(1), Data(NameBytes(ObjectType(v))));
    if err.Some? {
      return;
    }
    err := w.b.Enter();
    if err.None? {
      var m;
      m, err := PutObject(w, v);
      n := n + m;
    }
    w.b.Exit();
  }

  method PutRow(w: ObjectWriter, row: Row, vals: seq<Val>) returns (n: nat, err: Option<Err>)
    requires RowFits(row, |vals|)
    modifies w, w.b
    ensures WRes(Now(w), err) == WriteRow(row, vals, old(Now(w))) && Moved(w, n, err)
    decreases vals, 0
  {
    n, err := 0, None;
    ghost var start := Now(w);
    assert vals[0..] == vals && RowFrom(row, 0) == row;
    for i := 0 to |vals|
      invariant err == None && Moved(w, n, err)
      invariant WriteRow(row, vals, start) == WriteRow(RowFrom(row, i), vals[i..], Now(w))
    {
      var slot := match row
        case FieldRow(fields) => FieldSlot(fields[i].spec)
        case ElemRow(t) => ElemSlot(t);
      assert vals[i..][1..] == vals[i + 1..] && HeadSlot(RowFrom(row, i)) == slot && TailRow(RowFrom(row, i)) == RowFrom(row, i + 1);
      var m;
      m, err := PutSlot(w, slot, vals[i]);
      n := n + m;
      if err.Some? {
        return;
      }
    }
  }

  /** `WriteTo` of objects and carriers; a frame unwinds on every path. */
  method PutObject(w: ObjectWriter, v: Val) returns (n: nat, err: Option<Err>)
    modifies w, w.b
    ensures WRes(Now(w), err) == WriteObj(v, old(Now(w))) && Moved(w, n, err)
    decreases v, 1
  {
    n := 0;
    var m := 0;
    match v
    case NilIface => return 0, Some(NilValue);
    case NilPtr => return 0, Some(NilValue);
    case Leaf(_, k, p) => n, err := PutLeaf(w, k, p);
    case Alias(_, k, p) => n, err := PutLeaf(w, k, p);
    case Struct(bp, fields) =>
      if |fields| != |bp.fields| {
        return 0, Some(NilValue);
      }
      err := w.b.Enter();
      if err.None? {
        n, err := PutRow(w, FieldRow(bp.fields), fields);
      }
      w.b.Exit();
    case SliceV(t, items) =>
      err := w.b.Enter();
      if err.None? {
        n, err := Put(w, BE(4, |items|));
        if err.None? {
          m, err := PutRow(w, ElemRow(t), items);
          n := n + m;
        }
      }
      w.b.Exit();
    case ArrayV(t, items) =>
      err := w.b.Enter();
      if err.None? {
        n, err := PutRow(w, ElemRow(t), items);
      }
      w.b.Exit();
    case MapV(width, t, entries) =>
      err := w.b.Enter();
      if err.None? {
        n, err := Put(w, BE(4, |entries|));
        if err.None? {
          m, err := PutEntries(w, width, t, entries);
          n := n + m;
        }
      }
      w.b.Exit();
  }

  /** A map after its count: everything is staged before anything goes out. */
  method PutEntries(w: ObjectWriter, width: nat, t: string, entries: seq<Entry>) returns (n: nat, err: Option<Err>)
    modifies w, w.b
    ensures WRes(Now(w), err) == (match Stage(width, t, entries)
                                  case StageErr(e) => WRes(old(Now(w)), Some(e))
                                  case Staged(pairs) => EmitPairs(Sort(pairs), old(Now(w))))
    ensures Moved(w, n, err)
    decreases entries, 1
  {
    var staged := PutStaged(width, t, entries);
    match staged
    case StageErr(e) => return 0, Some(e);
    case Staged(pairs) => n, err := PutPairs(w, Sort(pairs));
  }

  function PairsBefore(done: seq<Pair>, rest: Staging): Staging {
    match rest
    case Staged(ps) => Staged(done + ps)
    case StageErr(e) => StageErr(e)
  }

  /** The staging loop: one key buffer and one value buffer, on a ledger of its own, per entry. */
  method PutStaged(width: nat, t: string, entries: seq<Entry>) returns (r: Staging)
    ensures r == Stage(width, t, entries)
    decreases entries, 0
  {
    var pairs: seq<Pair> := [];
    assert entries[0..] == entries;
    for i := 0 to |entries|
      invariant Stage(width, t, entries) == PairsBefore(pairs, Stage(width, t, entries[i..]))
    {
      assert entries[i..][1..] == entries[i + 1..];
      var key := KeyWire(width, entries[i].key);
      if key.None? {
        return StageErr(TooLarge);
      }
      var val, err := PutStagedValue(t, entries[i]);
      if err.Some? {
        return StageErr(err.value);
      }
      var p := Pair(key.value, val);
      ghost var rest := Stage(width, t, entries[i + 1..]);
      assert rest.Staged? ==> pairs + ([p] + rest.pairs) == pairs + [p] + rest.pairs;
      pairs := pairs + [p];
    }
    assert pairs + [] == pairs;
    return Staged(pairs);
  }

  method PutStagedValue(t: string, e: Entry) returns (val: seq<byte>, err: Option<Err>)
    ensures err == WriteStaged(t, e).err
    ensures val == WriteStaged(t, e).st.out
    decreases e, 0
  {
    var own := new Budget();
    var w := new ObjectWriter(own);
    var n;
    n, err := PutSlot(w, ElemSlot(t), e.val);
    val := w.out;
  }

  method PutPairs(w: ObjectWriter, pairs: seq<Pair>) returns (n: nat, err: Option<Err>)
    modifies w, w.b
    ensures WRes(Now(w), err) == EmitPairs(pairs, old(Now(w))) && Moved(w, n, err)
  {
    n, err := 0, None;
    ghost var start := Now(w);
    assert pairs[0..] == pairs;
    for i := 0 to |pairs|
      invariant err == None && Moved(w, n, err)
      invariant EmitPairs(pairs, start) == EmitPairs(pairs[i..], Now(w))
    {
      assert pairs[i..][1..] == pairs[i + 1..];
      var m;
      m, err := Put(w, pairs[i].key);
      n := n + m;
      if err.Some? {
        return;
      }
      m, err := Put(w, pairs[i].val);
      n := n + m;
      if err.Some? {
        return;
      }
    }
  }

  /** `Encode` on a writer: a plain one gets a fresh ledger before the call. */
  method EncodeTo(w: ObjectWriter, v: Val) returns (n: nat, err: Option<Err>)
    modifies w, w.b
    ensures WRes(Now(w), err) == Encode(v, old(Now(w))) && Moved(w, n, err)
    decreases v, 2
  {
    if ObjectType(v) == "" {
      return 0, Some(Untyped);
    }
    n, err := PutLeaf(w, Blob(1), Data(NameBytes(ObjectType(v))));
    if err.None? {
      var m;
      m, err := PutObject(w, v);
      n := n + m;
    }
  }
}

/** The readers of the codec, step by step on one mutable stream and ledger. */
module CodecReader {
  import opened Wrappers
  import opened Bytes
  import opened Schema
  import opened Ledger
  import opened Streams
  import opened Codec
  import Construct

  const CHUNK := 0x1_0000

  ghost function Now(r: ObjectReader): RState
    reads r, r.b
  {
    RState(r.src, r.b.View(), r.made)
  }

  /**
   * A call on `r` returned `v` and `err` after consuming `n` bytes, as `want` says; `n` is
   * exact when the call succeeds.
   */
  ghost predicate Did<T>(r: ObjectReader, before: nat, v: T, n: nat, err: Option<Err>, want: Got<T>)
    reads r, r.b
  {
    && Now(r) == want.st
    && (match want
        case Got(x, _) => err == None && v == x && n + |r.src| == before
        case Lost(e, _) => err == Some(e))
  }

  /** The state after taking the prefix `p` of the input. */
  ghost function Taken(st: RState, p: seq<byte>, rest: seq<byte>): RState {
    RState(rest, st.led.(bytes := st.led.bytes + |p|), st.made)
  }

  lemma FullWhole(st: RState, p: seq<byte>, rest: seq<byte>)
    requires st.inp == p + rest && st.led.bytes + |p| <= MAX_BYTES
    ensures ReadFull(|p|, st) == Got(p, Taken(st, p, rest))
  {
    assert st.inp[..|p|] == p && st.inp[|p|..] == rest;
  }

  lemma FullPart(want: nat, st: RState, p: seq<byte>, rest: seq<byte>)
    requires st.inp == p + rest && |p| < want && st.led.bytes + |p| <= MAX_BYTES
    requires st.led.bytes + |p| == MAX_BYTES || rest == []
    ensures ReadFull(want, st) ==
            Lost(if st.led.bytes + |p| == MAX_BYTES then Limit else ShortRead, Taken(st, p, rest))
  {
    assert st.inp[|p|..] == rest;
  }

  /** `io.ReadFull`: whatever sizes the source delivers, the outcome is that of `ReadFull`. */
  method Fill(r: ObjectReader, want: nat) returns (p: seq<byte>, err: Option<Err>)
    requires r.b.bytes <= MAX_BYTES
    modifies r`src, r.b`bytes
    ensures Did(r, old(|r.src|), p, |p|, err, ReadFull(want, old(Now(r))))
    ensures old(r.src) == p + r.src && r.b.bytes == old(r.b.bytes) + |p| <= MAX_BYTES
    ensures if err.None? then |p| == want
            else |p| < want && (r.b.bytes == MAX_BYTES || r.src == []) &&
                 err.value == (if r.b.bytes == MAX_BYTES then Limit else ShortRead)
  {
    p, err := [], None;
    while |p| < want && err.None?
      invariant |p| <= want && old(r.src) == p + r.src
      invariant r.b.bytes == old(r.b.bytes) + |p| <= MAX_BYTES
      invariant err.Some? ==> |p| < want && err.value == (if r.b.bytes == MAX_BYTES then Limit else ShortRead)
      invariant err.Some? ==> r.b.bytes == MAX_BYTES || r.src == []
      decreases want - |p|, if err.None? then 1 else 0
    {
      var more;
      more, err := r.Read(want - |p|);
      p := p + more;
    }
    if err.None? {
      FullWhole(old(Now(r)), p, r.src);
    } else {
      FullPart(want, old(Now(r)), p, r.src);
    }
  }

  /** The memory of a length-prefixed read: what is allocated, and how much of it has arrived. */
  class GrowBuffer {
    var buf: array<byte>
    var got: nat

    /** Never more than one chunk is allocated ahead of the bytes that arrived. */
    ghost predicate Valid()
      reads this
    {
      got <= buf.Length <= got + CHUNK
    }

    ghost function Received(): seq<byte>
      requires Valid()
      reads this, buf
    {
      buf[..got]
    }

    constructor ()
      ensures Valid() && got == 0 && buf.Length == 0 && fresh(buf)
    {
      buf := new byte[0];
      got := 0;
    }

    /** `append(buf, make([]byte, n)...)` on a full buffer. */
    method Grow(n: nat)
      requires Valid() && got == buf.Length && n <= CHUNK
      modifies this`buf
      ensures Valid() && fresh(buf) && buf.Length == got + n && Received() == old(Received())
    {
      var was := buf;
      buf := new byte[got + n](i requires 0 <= i < got + n reads this, was => if i < was.Length then was[i] else 0);
    }

    /** `io.ReadFull` into the part of the buffer that is still empty, a delivery at a time. */
    method Receive(r: ObjectReader) returns (err: Option<Err>)
      requires Valid() && r.b.bytes <= MAX_BYTES
      modifies this`got, buf, r`src, r.b`bytes
      ensures Valid() && got >= old(got) && Received()[..old(got)] == old(Received())
      ensures old(r.src) == Received()[old(got)..] + r.src
      ensures r.b.bytes == old(r.b.bytes) + (got - old(got)) <= MAX_BYTES
      ensures if err.None? then got == buf.Length
              else got < buf.Length && (r.b.bytes == MAX_BYTES || r.src == []) &&
                   err.value == (if r.b.bytes == MAX_BYTES then Limit else ShortRead)
    {
      err := None;
      ghost var start := got;
      while got < buf.Length && err.None?
        invariant Valid() && got >= start && buf[..start] == old(buf[..got])
        invariant old(r.src) == buf[start..got] + r.src
        invariant r.b.bytes == old(r.b.bytes) + (got - start) <= MAX_BYTES
        invariant err.Some? ==> got < buf.Length && err.value == (if r.b.bytes == MAX_BYTES then Limit else ShortRead)
        invariant err.Some? ==> r.b.bytes == MAX_BYTES || r.src == []
        decreases buf.Length - got, if err.None? then 1 else 0
      {
        var more;
        more, err := r.Read(buf.Length - got);
        Store(more);
      }
    }

    /** The bytes of one delivery go where the last ones ended. */
    method Store(more: seq<byte>)
      requires Valid() && got + |more| <= buf.Length
      modifies this`got, buf
      ensures Valid() && got == old(got) + |more| && Received() == old(Received()) + more
    {
      ghost var was := buf[..got];
      forall i | 0 <= i < |more| {
        buf[got + i] := more[i];
      }
      got := got + |more|;
      assert buf[..got] == was + more;
    }
  }

  /**
   * `readNBytes`: one chunk is allocated at a time, so at every step, and when the call ends in
   * an error too, the memory is at most one chunk more than the bytes consumed; and the outcome
   * is that of one `ReadFull`. A length within one chunk takes one buffer of that length, as
   * String8 and String16 read theirs.
   */
  method FillBounded(r: ObjectReader, want: nat) returns (b: GrowBuffer, err: Option<Err>)
    requires r.b.bytes <= MAX_BYTES
    modifies r`src, r.b`bytes
    ensures fresh(b) && fresh(b.buf) && b.Valid() && b.got + |r.src| == old(|r.src|)
    ensures Did(r, old(|r.src|), b.Received(), b.got, err, ReadFull(want, old(Now(r))))
    ensures want <= CHUNK ==> b.buf.Length == want
  {
    b := new GrowBuffer();
    err := None;
    while b.got < want
      invariant fresh(b) && fresh(b.buf) && b.Valid() && b.got == b.buf.Length <= want && err == None
      invariant want <= CHUNK ==> b.got in {0, want}
      invariant old(r.src) == b.Received() + r.src && r.b.bytes == old(r.b.bytes) + b.got <= MAX_BYTES
    {
      ghost var had, left := b.Received(), r.src;
      b.Grow(Min(want - b.got, CHUNK));
      err := b.Receive(r);
      Joined(old(r.src), had, left, b.Received(), r.src);
      if err.Some? {
        FullPart(want, old(Now(r)), b.Received(), r.src);
        return;
      }
    }
    FullWhole(old(Now(r)), b.Received(), r.src);
  }

  lemma Joined(src: seq<byte>, had: seq<byte>, left: seq<byte>, has: seq<byte>, rest: seq<byte>)
    requires src == had + left && |had| <= |has| && has[..|had|] == had && left == has[|had|..] + rest
    ensures src == has + rest
  {
    assert has == had + has[|had|..];
  }

  /** The prefix, then the payload; `b` is the memory the payload took, whatever the prefix claimed. */
  method GetBlob(r: ObjectReader, w: nat) returns (p: Payload, n: nat, err: Option<Err>, b: GrowBuffer)
    requires r.b.bytes <= MAX_BYTES
    modifies r, r.b
    ensures Did(r, old(|r.src|), p, n, err, ReadLeaf(Blob(w), old(Now(r))))
    ensures fresh(b) && b.Valid() && b.buf.Length <= old(|r.src|) - |r.src| + CHUNK
    ensures err.None? ==> p == Data(b.Received())
  {
    b := new GrowBuffer();
    var prefix;
    prefix, err := Fill(r, w);
    p, n := Num(0), |prefix|;
    if err.None? {
      b, err := FillBounded(r, FromBE(prefix));
      p, n := Data(b.buf[..b.got]), n + b.got;
    }
  }

  /** Bytes that are there and within the budget are taken. */
  method Draw(r: ObjectReader, n: nat)
    requires r.b.bytes + n <= MAX_BYTES && n <= |r.src|
    modifies r, r.b
    ensures Now(r) == Take(n, old(Now(r))) && n + |r.src| == old(|r.src|)
  {
    var p, err := Fill(r, n);
  }

  /** The read of a compile-time struct: its bytes and frames within what is left of both budgets. */
  method GetStruct(r: ObjectReader, c: StructCodec) returns (p: Payload, n: nat, err: Option<Err>)
    requires r.b.bytes <= MAX_BYTES
    modifies r, r.b
    ensures Did(r, old(|r.src|), p, n, err, ReadStruct(c, old(Now(r))))
  {
    var room := Min(|r.src|, MAX_BYTES - r.b.bytes);
    var d := c.dec(r.src[..room]);
    p, n := Num(0), Min(d.n, room);
    if d.Refused? || d.n > room {
      Draw(r, n);
      return p, n, Some(Malformed);
    }
    err := r.b.Nest(c.reopens(d.value));
    if err.Some? {
      return p, 0, err;
    }
    Draw(r, n);
    p := Num(d.value);
  }

  method GetLeaf(r: ObjectReader, k: Kind) returns (p: Payload, n: nat, err: Option<Err>)
    requires r.b.bytes <= MAX_BYTES
    modifies r, r.b
    ensures Did(r, old(|r.src|), p, n, err, ReadLeaf(k, old(Now(r))))
  {
    var b: seq<byte>;
    match k
    case Uint(w) =>
      b, err := Fill(r, w);
      p, n := Num(FromBE(b)), |b|;
    case Blob(w) =>
      var memory;
      p, n, err, memory := GetBlob(r, w);
    case Bool =>
      b, err := Fill(r, 1);
      p, n := Num(if err.None? && b[0] != 0 then 1 else 0), |b|;
    case Raw(size) =>
      b, err := Fill(r, size);
      p, n := Data(b), |b|;
    case Empty => return Num(0), 0, None;
    case Opaque(c) => p, n, err := GetStruct(r, c);
  }

  method GetTag(r: ObjectReader) returns (name: string, n: nat, err: Option<Err>)
    requires r.b.bytes <= MAX_BYTES
    modifies r, r.b
    ensures Did(r, old(|r.src|), name, n, err, ReadTag(old(Now(r))))
  {
    var p;
    p, n, err := GetLeaf(r, Blob(1));
    name := if err.None? then NameOf(p.s) else "";
  }

  method GetFlag(r: ObjectReader) returns (present: bool, n: nat, err: Option<Err>)
    requires r.b.bytes <= MAX_BYTES
    modifies r, r.b
    ensures Did(r, old(|r.src|), present, n, err, ReadFlag(old(Now(r))))
  {
    var b;
    b, err := Fill(r, 1);
    n, present := |b|, false;
    if err.None? {
      if b[0] > 1 {
        err := Some(BadFlag);
      }
      present := b[0] == 1;
    }
  }

  method GetKey(r: ObjectReader, width: nat) returns (k: Key, n: nat, err: Option<Err>)
    requires r.b.bytes <= MAX_BYTES
    modifies r, r.b
    ensures Did(r, old(|r.src|), k, n, err, ReadKey(width, old(Now(r))))
  {
    if width == 0 {
      var p;
      p, n, err := GetLeaf(r, Blob(2));
      k := StrKey(if err.None? then p.s else []);
    } else {
      var b;
      b, err := Fill(r, width);
      k, n := UintKey(FromBE(b)), |b|;
    }
  }

  /** `New(name)` and the `ReadFrom` of what it made. */
  method GetObject(reg: Registry, name: string, r: ObjectReader) returns (v: Val, n: nat, err: Option<Err>)
    requires PrimitivesCompiled(reg) && r.b.bytes <= MAX_BYTES
    modifies r, r.b
    ensures Did(r, old(|r.src|), v, n, err, ReadObj(reg, name, old(Now(r))))
    decreases Room(r.b.View()), 0, 0
  {
    n := 0;
    var zero := Construct.Make(reg, name);
    var p;
    match zero {
      case Leaf(_, k, _) =>
        p, n, err := GetLeaf(r, k);
        v := Leaf(name, k, p);
      case Alias(bp, k, _) =>
        p, n, err := GetLeaf(r, k);
        v := Alias(bp, k, p);
      case Struct(bp, _) =>
        var vals: seq<Val> := [];
        err := r.b.Enter();
        if err.None? {
          vals, n, err := GetRow(reg, FieldRow(bp.fields), |bp.fields|, r);
        }
        r.b.Exit();
        v := Struct(bp, vals);
      case _ =>
        v, err := NilIface, Some(NotFound);
    }
  }

  /** `readPolymorphic`, and the inside of `interfaceValue.ReadFrom`. */
  method GetTagged(reg: Registry, absent: Val, r: ObjectReader) returns (v: Val, n: nat, err: Option<Err>)
    requires PrimitivesCompiled(reg) && r.b.bytes <= MAX_BYTES
    modifies r, r.b
    ensures Did(r, old(|r.src|), v, n, err, ReadTagged(reg, absent, old(Now(r))))
    decreases Room(r.b.View()), 1, 0
  {
    var name;
    name, n, err := GetTag(r);
    if err.Some? || name == "" || name == NIL_NAME {
      v := absent;
      return;
    }
    var m;
    v, m, err := GetObject(reg, name, r);
    n := n + m;
  }

  /** `readRuntimeBlueprintPtr`, the PtrSpec branch of `readField`, and the inside of `ptrValue.ReadFrom`. */
  method GetFlagged(reg: Registry, t: string, absent: Val, r: ObjectReader) returns (v: Val, n: nat, err: Option<Err>)
    requires PrimitivesCompiled(reg) && r.b.bytes <= MAX_BYTES
    modifies r, r.b
    ensures Did(r, old(|r.src|), v, n, err, ReadFlagged(reg, t, absent, old(Now(r))))
    decreases Room(r.b.View()), 1, 0
  {
    var present;
    present, n, err := GetFlag(r);
    v := absent;
    if err.None? && present {
      var m;
      v, m, err := GetObject(reg, t, r);
      n := n + m;
    }
  }

  method GetElem(reg: Registry, t: string, r: ObjectReader) returns (v: Val, n: nat, err: Option<Err>)
    requires PrimitivesCompiled(reg) && r.b.bytes <= MAX_BYTES
    modifies r, r.b
    ensures Did(r, old(|r.src|), v, n, err, ReadElem(reg, t, old(Now(r))))
    decreases Room(r.b.View()), 2, 0
  {
    if IsRuntime(reg, t) {
      v, n, err := GetFlagged(reg, t, NilPtr, r);
      return;
    }
    v, n := NilPtr, 0;
    err := r.b.Enter();
    if err.None? {
      if t == "" {
        v, n, err := GetTagged(reg, NilIface, r);
      } else {
        v, n, err := GetFlagged(reg, t, NilPtr, r);
      }
    }
    r.b.Exit();
  }

  /** `readField`. */
  method GetField(reg: Registry, spec: Spec, r: ObjectReader) returns (v: Val, n: nat, err: Option<Err>)
    requires PrimitivesCompiled(reg) && r.b.bytes <= MAX_BYTES
    modifies r, r.b
    ensures Did(r, old(|r.src|), v, n, err, ReadField(reg, spec, old(Now(r))))
    decreases Room(r.b.View()), 5, 0
  {
    match spec
    case Primitive(t) => v, n, err := GetObject(reg, t, r);
    case Ref(t) => v, n, err := GetObject(reg, t, r);
    case Ptr(t) => v, n, err := GetFlagged(reg, t, NIL_MARKER, r);
    case AnyObject => v, n, err := GetTagged(reg, NIL_MARKER, r);
    case Slice(_) => v, n, err := GetContainer(reg, spec, r);
    case Array(_, _) => v, n, err := GetContainer(reg, spec, r);
    case Map(_, _) => v, n, err := GetContainer(reg, spec, r);
  }

  method GetContainer(reg: Registry, spec: Spec, r: ObjectReader) returns (v: Val, n: nat, err: Option<Err>)
    requires spec.Slice? || spec.Array? || spec.Map?
    requires PrimitivesCompiled(reg) && r.b.bytes <= MAX_BYTES
    modifies r, r.b
    ensures Did(r, old(|r.src|), v, n, err, ReadContainer(reg, spec, old(Now(r))))
    decreases Room(r.b.View()), 4, 1
  {
    v, n := NilIface, 0;
    if !Construct.ElemResolves(reg, spec.elem) {
      return v, 0, Some(NotFound);
    }
    if !KeyAllowed(spec) {
      return v, 0, Some(Invalid);
    }
    if IsRuntime(reg, spec.elem) {
      v, n, err := GetCarrier(reg, spec, r);
      return;
    }
    err := r.b.Enter();
    if err.None? {
      v, n, err := GetCarrier(reg, spec, r);
    }
    r.b.Exit();
  }

  method GetCarrier(reg: Registry, spec: Spec, r: ObjectReader) returns (v: Val, n: nat, err: Option<Err>)
    requires spec.Slice? || spec.Array? || spec.Map?
    requires PrimitivesCompiled(reg) && r.b.bytes <= MAX_BYTES
    modifies r, r.b
    ensures Did(r, old(|r.src|), v, n, err, ReadCarrier(reg, spec, old(Now(r))))
    decreases Room(r.b.View()), 4, 0
  {
    var vals;
    if spec.Array? {
      vals, n, err := GetRow(reg, ElemRow(spec.elem), spec.length, r);
      v := ArrayV(spec.elem, vals);
      return;
    }
    var b;
    b, err := Fill(r, 4);
    v, n := NilIface, |b|;
    if err.Some? {
      return;
    }
    var m;
    if spec.Slice? {
      vals, m, err := GetRow(reg, ElemRow(spec.elem), FromBE(b), r);
      v, n := SliceV(spec.elem, vals), n + m;
    } else {
      var width := Construct.KeyWidth(spec.key);
      var entries;
      ghost var listed;
      entries, m, err, listed := GetEntries(reg, width, spec.elem, FromBE(b), r);
      v, n := MapV(width, spec.elem, entries), n + m;
    }
  }

  ghost function Before<T>(done: seq<T>, rest: Got<seq<T>>): Got<seq<T>> {
    match rest
    case Got(vs, s) => Got(done + vs, s)
    case Lost(e, s) => Lost(e, s)
  }

  ghost function Counted(slot: Slot, r: Got<Val>): Got<Val> {
    match r
    case Got(v, s) => Got(v, Made(slot, s))
    case Lost(e, s) => Lost(e, s)
  }

  /** One slot of a row; a container element is counted when it is complete. */
  method GetSlot(reg: Registry, slot: Slot, r: ObjectReader) returns (v: Val, n: nat, err: Option<Err>)
    requires PrimitivesCompiled(reg) && r.b.bytes <= MAX_BYTES
    modifies r, r.b
    ensures Did(r, old(|r.src|), v, n, err, Counted(slot, ReadSlot(reg, slot, old(Now(r)))))
    decreases Room(r.b.View()), if slot.FieldSlot? then 6 else 3, 0
  {
    match slot
    case FieldSlot(spec) =>
      v, n, err := GetField(reg, spec, r);
    case ElemSlot(t) =>
      v, n, err := GetElem(reg, t, r);
      if err.None? {
        r.made := r.made + 1;
      }
  }

  /** The loop over the fields of a struct or the elements of a container. */
  method GetRow(reg: Registry, row: Row, count: nat, r: ObjectReader) returns (vals: seq<Val>, n: nat, err: Option<Err>)
    requires PrimitivesCompiled(reg) && r.b.bytes <= MAX_BYTES && RowFits(row, count)
    modifies r, r.b
    ensures Did(r, old(|r.src|), vals, n, err, ReadRow(reg, row, count, old(Now(r))))
    decreases Room(r.b.View()), if row.FieldRow? then 7 else 3, count + 1
  {
    vals, n, err := [], 0, None;
    ghost var at, left, st := row, count, Now(r);
    ghost var all := ReadRow(reg, row, count, st);
    assert RowFrom(row, 0) == row;
    assert all.Got? ==> [] + all.value == all.value;
    for i := 0 to count
      invariant err == None && n + |r.src| == old(|r.src|) && st == Now(r)
      invariant at == RowFrom(row, i) && left == count - i && RowFits(at, left)
      invariant r.b.bytes <= MAX_BYTES && r.b.depth == old(r.b.depth)
      invariant RowLeft(all, vals, reg, at, left, st)
    {
      var slot := match row
        case FieldRow(fields) => FieldSlot(fields[i].spec)
        case ElemRow(t) => ElemSlot(t);
      assert HeadSlot(at) == slot && TailRow(at) == RowFrom(row, i + 1);
      RowEnds(all, vals, reg, at, left, st);
      var v, m;
      v, m, err := GetSlot(reg, slot, r);
      n := n + m;
      if err.Some? {
        return;
      }
      ghost var less, now := left - 1, Now(r);
      RowNext(all, vals, reg, at, left, st, v, less, now);
      at, left, st := TailRow(at), less, now;
      vals := vals + [v];
    }
    RowEnds(all, vals, reg, at, left, st);
  }

  /** `all` is `done` and what `n` more slots of `row` give. */
  ghost predicate RowLeft(all: Got<seq<Val>>, done: seq<Val>, reg: Registry, row: Row, n: nat, st: RState)
    requires PrimitivesCompiled(reg) && st.led.bytes <= MAX_BYTES && RowFits(row, n)
  {
    all == Before(done, ReadRow(reg, row, n, st))
  }

  lemma RowNext(all: Got<seq<Val>>, done: seq<Val>, reg: Registry, row: Row, n: nat, st: RState, v: Val, m: nat, now: RState)
    requires PrimitivesCompiled(reg) && st.led.bytes <= MAX_BYTES && RowFits(row, n) && n == m + 1
    requires RowLeft(all, done, reg, row, n, st)
    requires Counted(HeadSlot(row), ReadSlot(reg, HeadSlot(row), st)) == Got(v, now)
    ensures RowLeft(all, done + [v], reg, TailRow(row), m, now)
  {
    BeforeLast(done, v, ReadRow(reg, TailRow(row), m, now));
  }

  lemma RowEnds(all: Got<seq<Val>>, done: seq<Val>, reg: Registry, row: Row, n: nat, st: RState)
    requires PrimitivesCompiled(reg) && st.led.bytes <= MAX_BYTES && RowFits(row, n) && RowLeft(all, done, reg, row, n, st)
    ensures n == 0 ==> all == Got(done, st)
    ensures n > 0 ==> var r := ReadSlot(reg, HeadSlot(row), st); r.Lost? ==> all == Lost(r.err, r.st)
  {
    assert done + [] == done;
  }

  method GetEntry(reg: Registry, width: nat, t: string, r: ObjectReader) returns (e: Entry, n: nat, err: Option<Err>)
    requires PrimitivesCompiled(reg) && r.b.bytes <= MAX_BYTES
    modifies r, r.b
    ensures Did(r, old(|r.src|), e, n, err, ReadEntry(reg, width, t, old(Now(r))))
    decreases Room(r.b.View()), 3, 0
  {
    var k, v, m;
    k, n, err := GetKey(r, width);
    e := Entry(k, NilPtr);
    if err.Some? {
      return;
    }
    v, m, err := GetElem(reg, t, r);
    e, n := Entry(k, v), n + m;
    if err.None? {
      r.made := r.made + 1;
    }
  }

  /** The loop over map entries: each is set in the map as it arrives. */
  method GetEntries(reg: Registry, width: nat, t: string, count: nat, r: ObjectReader)
    returns (entries: seq<Entry>, n: nat, err: Option<Err>, ghost listed: seq<Entry>)
    requires PrimitivesCompiled(reg) && r.b.bytes <= MAX_BYTES
    modifies r, r.b
    ensures Did(r, old(|r.src|), listed, n, err, ReadEntries(reg, width, t, count, old(Now(r))))
    ensures entries == PutAll([], listed)
    decreases Room(r.b.View()), 3, count + 1
  {
    entries, n, err, listed := [], 0, None, [];
    ghost var all := ReadEntries(reg, width, t, count, Now(r));
    assert all.Got? ==> [] + all.value == all.value;
    for i := 0 to count
      invariant err == None && n + |r.src| == old(|r.src|)
      invariant r.b.bytes <= MAX_BYTES && r.b.depth == old(r.b.depth)
      invariant entries == PutAll([], listed)
      invariant all == Before(listed, ReadEntries(reg, width, t, count - i, Now(r)))
    {
      var e, m;
      e, m, err := GetEntry(reg, width, t, r);
      n := n + m;
      if err.Some? {
        return;
      }
      entries := Put(entries, e.key, e.val);
      PutAllLast([], listed, e);
      BeforeLast(listed, e, ReadEntries(reg, width, t, count - i - 1, Now(r)));
      listed := listed + [e];
    }
    assert listed + [] == listed;
  }

  lemma BeforeLast<T>(done: seq<T>, x: T, rest: Got<seq<T>>)
    ensures Before(done, Before([x], rest)) == Before(done + [x], rest)
  {
    assert rest.Got? ==> done + ([x] + rest.value) == done + [x] + rest.value;
  }

  lemma {:induction false} PutAllLast(acc: seq<Entry>, es: seq<Entry>, e: Entry)
    ensures PutAll(acc, es + [e]) == Put(PutAll(acc, es), e.key, e.val)
    decreases |es|
  {
    if es == [] {
      assert (es + [e])[1..] == [];
    } else {
      assert (es + [e])[1..] == es[1..] + [e];
      PutAllLast(Put(acc, es[0].key, es[0].val), es[1..], e);
    }
  }

  /**
   * `Decode`: the tag is read before a ledger is attached, the object on a fresh one. `n` is
   * the bytes consumed when it succeeds.
   */
  method DecodeBytes(reg: Registry, inp: seq<byte>) returns (v: Val, n: nat, rest: seq<byte>, err: Option<Err>)
    requires PrimitivesCompiled(reg)
    ensures match Decode(reg, inp)
            case Got(x, s) => err == None && v == x && rest == s.inp && n + |rest| == |inp|
            case Lost(e, _) => err == Some(e)
  {
    var l := if |inp| == 0 then 0 else inp[0] as int;
    if |inp| < 1 + l {
      return NilIface, |inp|, [], Some(ShortRead);
    }
    var b := new Budget();
    var r := new ObjectReader(inp[1 + l..], b);
    var m;
    v, m, err := GetObject(reg, NameOf(inp[1..1 + l]), r);
    n, rest := 1 + l + m, r.src;
  }
}
