/** The decoder on arbitrary bytes, malformed ones included: total, and bounded by what arrives. */
module CodecBounds {
  import opened Wrappers
  import opened Bytes
  import opened Schema
  import opened Ledger
  import opened Codec
  import Construct

  /**
   * Every read, on every input, leaves a suffix of it, charges exactly the bytes it took,
   * never passes the byte budget, restores the depth, and completes no more container
   * elements than it took bytes; `spare` of those bytes belong to no element.
   */
  ghost predicate Advances(s: RState, t: RState, spare: nat) {
    && |t.inp| <= |s.inp|
    && t.inp == s.inp[|s.inp| - |t.inp|..]
    && t.led.bytes == s.led.bytes + (|s.inp| - |t.inp|) <= MAX_BYTES
    && t.led.depth == s.led.depth
    && s.led.frames <= t.led.frames
    && s.made <= t.made && t.made - s.made + spare <= |s.inp| - |t.inp|
  }

  lemma AdvancesTrans(s: RState, t: RState, u: RState, a: nat, b: nat)
    requires Advances(s, t, a) && Advances(t, u, b)
    ensures Advances(s, u, a + b)
  {
    var k := |s.inp| - |t.inp|;
    assert u.inp == s.inp[k..][|t.inp| - |u.inp|..] == s.inp[|s.inp| - |u.inp|..];
  }

  /** A frame changes the depth and the frame count on the way in, and only the depth on the way out. */
  lemma FrameAdvances<T>(st: RState, r: Got<T>, spare: nat)
    requires Entered(st.led) && Advances(EnterR(st), r.st, spare)
    ensures Advances(st, ExitR(r).st, spare)
  {
  }

  lemma RefusedAdvances(st: RState)
    requires st.led.bytes <= MAX_BYTES
    ensures Advances(st, st.(led := Exit(Enter(st.led))), 0)
  {
    assert st.inp[0..] == st.inp;
  }

  lemma StaysPut(st: RState)
    requires st.led.bytes <= MAX_BYTES
    ensures Advances(st, st, 0)
  {
    assert st.inp[0..] == st.inp;
  }

  lemma FullAdvances(n: nat, st: RState)
    requires st.led.bytes <= MAX_BYTES
    ensures Advances(st, ReadFull(n, st).st, 0)
    ensures ReadFull(n, st).Got? ==> Advances(st, ReadFull(n, st).st, n)
  {
  }

  lemma BlobAdvances(w: nat, st: RState)
    requires st.led.bytes <= MAX_BYTES
    ensures Advances(st, ReadLeaf(Blob(w), st).st, if ReadLeaf(Blob(w), st).Got? then w else 0)
  {
    FullAdvances(w, st);
    var r := ReadFull(w, st);
    if r.Got? {
      FullAdvances(FromBE(r.value), r.st);
      AdvancesTrans(st, r.st, ReadFull(FromBE(r.value), r.st).st, w, 0);
    }
  }

  lemma StructAdvances(c: StructCodec, st: RState)
    requires st.led.bytes <= MAX_BYTES
    ensures Advances(st, ReadStruct(c, st).st, 0)
  {
  }

  lemma LeafAdvances(k: Kind, st: RState)
    requires st.led.bytes <= MAX_BYTES
    ensures Advances(st, ReadLeaf(k, st).st, 0)
    ensures ReadLeaf(k, st).Got? && k.Blob? ==> Advances(st, ReadLeaf(k, st).st, k.lenWidth)
  {
    match k
    case Blob(w) => BlobAdvances(w, st);
    case Opaque(c) => StructAdvances(c, st);
    case _ => FixedAdvances(k, st);
  }

  lemma FixedAdvances(k: Kind, st: RState)
    requires st.led.bytes <= MAX_BYTES && !k.Blob? && !k.Opaque?
    ensures Advances(st, ReadLeaf(k, st).st, 0)
  {
    match k
    case Uint(w) => FullAdvances(w, st);
    case Bool => FullAdvances(1, st);
    case Raw(n) => FullAdvances(n, st);
    case Empty => StaysPut(st);
  }

  lemma TagAdvances(st: RState)
    requires st.led.bytes <= MAX_BYTES
    ensures Advances(st, ReadTag(st).st, if ReadTag(st).Got? then 1 else 0)
  {
    LeafAdvances(Blob(1), st);
  }

  lemma FlagAdvances(st: RState)
    requires st.led.bytes <= MAX_BYTES
    ensures Advances(st, ReadFlag(st).st, if ReadFlag(st).Got? then 1 else 0)
  {
    FullAdvances(1, st);
  }

  lemma KeyAdvances(w: nat, st: RState)
    requires st.led.bytes <= MAX_BYTES
    ensures Advances(st, ReadKey(w, st).st, 0)
  {
    if w == 0 {
      LeafAdvances(Blob(2), st);
    } else {
      FullAdvances(w, st);
    }
  }

  lemma {:induction false} ObjAdvances(reg: Registry, name: string, st: RState)
    requires PrimitivesCompiled(reg) && st.led.bytes <= MAX_BYTES
    ensures Advances(st, ReadObj(reg, name, st).st, 0)
    decreases Room(st.led), 0, 0
  {
    match Resolve(reg, name)
    case None => StaysPut(st);
    case Some(LeafShape(k)) => LeafAdvances(k, st);
    case Some(AliasShape(_, k)) => LeafAdvances(k, st);
    case Some(StructShape(bp)) =>
      if Entered(st.led) {
        RowAdvances(reg, FieldRow(bp.fields), |bp.fields|, EnterR(st));
        FrameAdvances(st, ReadRow(reg, FieldRow(bp.fields), |bp.fields|, EnterR(st)), 0);
      } else {
        RefusedAdvances(st);
      }
  }

  lemma {:induction false} TaggedAdvances(reg: Registry, absent: Val, st: RState)
    requires PrimitivesCompiled(reg) && st.led.bytes <= MAX_BYTES
    ensures var r := ReadTagged(reg, absent, st);
            Advances(st, r.st, if r.Got? then 1 else 0)
    decreases Room(st.led), 1, 0
  {
    TagAdvances(st);
    var r := ReadTag(st);
    if r.Got? && r.value != "" && r.value != NIL_NAME {
      ObjAdvances(reg, r.value, r.st);
      AdvancesTrans(st, r.st, ReadObj(reg, r.value, r.st).st, 1, 0);
    }
  }

  lemma {:induction false} FlaggedAdvances(reg: Registry, t: string, absent: Val, st: RState)
    requires PrimitivesCompiled(reg) && st.led.bytes <= MAX_BYTES
    ensures var r := ReadFlagged(reg, t, absent, st);
            Advances(st, r.st, if r.Got? then 1 else 0)
    decreases Room(st.led), 1, 0
  {
    FlagAdvances(st);
    var r := ReadFlag(st);
    if r.Got? && r.value {
      ObjAdvances(reg, t, r.st);
      AdvancesTrans(st, r.st, ReadObj(reg, t, r.st).st, 1, 0);
    }
  }

  /** An element takes at least one byte beyond what its own elements take. */
  lemma {:induction false} ElemAdvances(reg: Registry, t: string, st: RState)
    requires PrimitivesCompiled(reg) && st.led.bytes <= MAX_BYTES
    ensures var r := ReadElem(reg, t, st);
            Advances(st, r.st, if r.Got? then 1 else 0)
    decreases Room(st.led), 2, 0
  {
    if IsRuntime(reg, t) {
      FlaggedAdvances(reg, t, NilPtr, st);
    } else if !Entered(st.led) {
      RefusedAdvances(st);
    } else if t == "" {
      TaggedAdvances(reg, NilIface, EnterR(st));
      var r := ReadTagged(reg, NilIface, EnterR(st));
      FrameAdvances(st, r, if r.Got? then 1 else 0);
    } else {
      FlaggedAdvances(reg, t, NilPtr, EnterR(st));
      var r := ReadFlagged(reg, t, NilPtr, EnterR(st));
      FrameAdvances(st, r, if r.Got? then 1 else 0);
    }
  }

  lemma {:induction false} FieldAdvances(reg: Registry, spec: Spec, st: RState)
    requires PrimitivesCompiled(reg) && st.led.bytes <= MAX_BYTES
    ensures Advances(st, ReadField(reg, spec, st).st, 0)
    decreases Room(st.led), 5, 0
  {
    match spec
    case Primitive(t) => ObjAdvances(reg, t, st);
    case Ref(t) => ObjAdvances(reg, t, st);
    case Ptr(t) => FlaggedAdvances(reg, t, NIL_MARKER, st);
    case AnyObject => TaggedAdvances(reg, NIL_MARKER, st);
    case Slice(_) => ContainerAdvances(reg, spec, st);
    case Array(_, _) => ContainerAdvances(reg, spec, st);
    case Map(_, _) => ContainerAdvances(reg, spec, st);
  }

  lemma {:induction false} ContainerAdvances(reg: Registry, spec: Spec, st: RState)
    requires spec.Slice? || spec.Array? || spec.Map?
    requires PrimitivesCompiled(reg) && st.led.bytes <= MAX_BYTES
    ensures Advances(st, ReadContainer(reg, spec, st).st, 0)
    decreases Room(st.led), 4, 2
  {
    if !Construct.ElemResolves(reg, spec.elem) || !KeyAllowed(spec) {
      StaysPut(st);
    } else if !IsRuntime(reg, spec.elem) && !Entered(st.led) {
      RefusedAdvances(st);
    } else {
      FramedAdvances(reg, spec, st);
    }
  }

  lemma {:induction false} FramedAdvances(reg: Registry, spec: Spec, st: RState)
    requires spec.Slice? || spec.Array? || spec.Map?
    requires PrimitivesCompiled(reg) && st.led.bytes <= MAX_BYTES
    ensures IsRuntime(reg, spec.elem) ==> Advances(st, ReadCarrier(reg, spec, st).st, 0)
    ensures Entered(st.led) ==> Advances(st, ExitR(ReadCarrier(reg, spec, EnterR(st))).st, 0)
    decreases Room(st.led), 4, 1
  {
    if IsRuntime(reg, spec.elem) {
      CarrierAdvances(reg, spec, st);
    }
    if Entered(st.led) {
      CarrierAdvances(reg, spec, EnterR(st));
      FrameAdvances(st, ReadCarrier(reg, spec, EnterR(st)), 0);
    }
  }

  lemma {:induction false} CarrierAdvances(reg: Registry, spec: Spec, st: RState)
    requires spec.Slice? || spec.Array? || spec.Map?
    requires PrimitivesCompiled(reg) && st.led.bytes <= MAX_BYTES
    ensures Advances(st, ReadCarrier(reg, spec, st).st, 0)
    decreases Room(st.led), 4, 0
  {
    var row := ElemRow(spec.elem);
    CarrierState(reg, spec, st);
    if spec.Array? {
      RowAdvances(reg, row, spec.length, st);
    } else {
      FullAdvances(4, st);
      var c := ReadCount(st);
      if c.Got? {
        var w := Construct.KeyWidth(if spec.Map? then spec.key else "");
        if spec.Slice? {
          RowAdvances(reg, row, c.value, c.st);
        } else {
          EntriesAdvance(reg, w, spec.elem, c.value, c.st);
        }
        AdvancesTrans(st, c.st, ReadCarrier(reg, spec, st).st, 0, 0);
      }
    }
  }

  /** Where a carrier leaves the stream. */
  lemma CarrierState(reg: Registry, spec: Spec, st: RState)
    requires spec.Slice? || spec.Array? || spec.Map?
    requires PrimitivesCompiled(reg) && st.led.bytes <= MAX_BYTES
    ensures spec.Array? ==> ReadCarrier(reg, spec, st).st == ReadRow(reg, ElemRow(spec.elem), spec.length, st).st
    ensures !spec.Array? && ReadCount(st).Lost? ==> ReadCarrier(reg, spec, st).st == ReadCount(st).st
    ensures spec.Slice? && ReadCount(st).Got? ==>
              ReadCarrier(reg, spec, st).st == ReadRow(reg, ElemRow(spec.elem), ReadCount(st).value, ReadCount(st).st).st
    ensures spec.Map? && ReadCount(st).Got? ==>
              ReadCarrier(reg, spec, st).st ==
              ReadEntries(reg, Construct.KeyWidth(spec.key), spec.elem, ReadCount(st).value, ReadCount(st).st).st
  {
  }

  lemma {:induction false} SlotAdvances(reg: Registry, slot: Slot, st: RState)
    requires PrimitivesCompiled(reg) && st.led.bytes <= MAX_BYTES
    ensures var r := ReadSlot(reg, slot, st); Advances(st, r.st, 0) && (r.Got? ==> Advances(st, Made(slot, r.st), 0))
    decreases Room(st.led), if slot.FieldSlot? then 6 else 3, 0
  {
    match slot
    case FieldSlot(spec) => FieldAdvances(reg, spec, st);
    case ElemSlot(t) => ElemAdvances(reg, t, st);
  }

  /** The bytes an element spares pay for counting it. */
  lemma {:induction false} RowAdvances(reg: Registry, row: Row, n: nat, st: RState)
    requires PrimitivesCompiled(reg) && st.led.bytes <= MAX_BYTES && RowFits(row, n)
    ensures Advances(st, ReadRow(reg, row, n, st).st, 0)
    decreases Room(st.led), if row.FieldRow? then 7 else 3, n
  {
    if n == 0 {
      StaysPut(st);
    } else {
      SlotAdvances(reg, HeadSlot(row), st);
      var r := ReadSlot(reg, HeadSlot(row), st);
      if r.Got? {
        var s := Made(HeadSlot(row), r.st);
        RowAdvances(reg, TailRow(row), n - 1, s);
        AdvancesTrans(st, s, ReadRow(reg, TailRow(row), n - 1, s).st, 0, 0);
      }
    }
  }

  lemma {:induction false} EntryAdvances(reg: Registry, w: nat, t: string, st: RState)
    requires PrimitivesCompiled(reg) && st.led.bytes <= MAX_BYTES
    ensures Advances(st, ReadEntry(reg, w, t, st).st, 0)
    decreases Room(st.led), 3, 0
  {
    KeyAdvances(w, st);
    var k := ReadKey(w, st);
    if k.Got? {
      ElemAdvances(reg, t, k.st);
      var r := ReadElem(reg, t, k.st);
      AdvancesTrans(st, k.st, r.st, 0, if r.Got? then 1 else 0);
    }
  }

  lemma {:induction false} EntriesAdvance(reg: Registry, w: nat, t: string, n: nat, st: RState)
    requires PrimitivesCompiled(reg) && st.led.bytes <= MAX_BYTES
    ensures Advances(st, ReadEntries(reg, w, t, n, st).st, 0)
    decreases Room(st.led), 3, n + 1
  {
    if n == 0 {
      StaysPut(st);
    } else {
      EntryAdvances(reg, w, t, st);
      var r := ReadEntry(reg, w, t, st);
      if r.Got? {
        EntriesAdvance(reg, w, t, n - 1, r.st);
        AdvancesTrans(st, r.st, ReadEntries(reg, w, t, n - 1, r.st).st, 0, 0);
      }
    }
  }

  /**
   * `Decode` of any bytes whatever: the ledger ends at depth 0 with at most MAX_BYTES
   * charged, and no more slice, array and map elements were completed than bytes consumed.
   */
  lemma DecodeBounded(reg: Registry, inp: seq<byte>)
    requires PrimitivesCompiled(reg)
    ensures var st := Decode(reg, inp).st;
            && |st.inp| <= |inp| && st.inp == inp[|inp| - |st.inp|..]
            && st.led.depth == 0 && st.led.bytes <= MAX_BYTES
            && st.made <= st.led.bytes <= |inp| - |st.inp|
  {
    var n := if |inp| == 0 then 0 else inp[0] as int;
    if |inp| >= 1 + n {
      var start := RState(inp[1 + n..], FRESH, 0);
      ObjAdvances(reg, NameOf(inp[1..1 + n]), start);
      SuffixOfSuffix(inp, 1 + n, |Decode(reg, inp).st.inp|);
    }
  }

  lemma SuffixOfSuffix(s: seq<byte>, n: nat, k: nat)
    requires n + k <= |s|
    ensures s[n..][|s| - n - k..] == s[|s| - k..]
  {
  }
}
