/**
 * The per-call resource ledger: depth, frames and bytes, shared by every reader and writer
 * derived from one codec entry.
 */
module Ledger {
  import opened Bytes

  const MAX_DEPTH := 64
  const MAX_FRAMES := 0x10_0000
  const MAX_BYTES := 0x1000_0000

  datatype Counters = Counters(depth: nat, frames: nat, bytes: nat)

  const FRESH := Counters(0, 0, 0)

  predicate Within(c: Counters) {
    c.depth <= MAX_DEPTH && c.frames <= MAX_FRAMES && c.bytes <= MAX_BYTES
  }

  /** `budget.enter`: counts the frame, and says whether its body may run. */
  function Enter(c: Counters): Counters {
    if c.depth + 1 > MAX_DEPTH then c.(depth := c.depth + 1)
    else c.(depth := c.depth + 1, frames := c.frames + 1)
  }

  predicate Entered(c: Counters) { Enter(c).depth <= MAX_DEPTH && Enter(c).frames <= MAX_FRAMES }

  function Exit(c: Counters): Counters
    requires c.depth > 0
  {
    c.(depth := c.depth - 1)
  }

  /** Frames opened one within or after another: how deep they nest, and how many. */
  datatype Need = Need(peak: nat, frames: nat)

  const FREE := Need(0, 0)

  /** The frames of `need` all run on a ledger `c`, and what they leave of it. */
  predicate Nests(c: Counters, need: Need) {
    c.depth + need.peak <= MAX_DEPTH && c.frames + need.frames <= MAX_FRAMES
  }

  function Nested(c: Counters, need: Need): Counters { c.(frames := c.frames + need.frames) }

  // ---------------------------------------------------------------- safety over every session

  /**
   * One thing a codec does with its ledger: read through one of its readers (the source
   * under it hands over `give` bytes at most), derive a reader over a sub-payload, or run
   * a frame around a list of such acts.
   */
  datatype Act =
    | Read(reader: nat, want: nat, give: nat)
    | Sub(payload: seq<byte>)
    | Frame(body: seq<Act>)

  /**
   * All readers on one ledger, the bytes they have handed over together, the frames whose
   * body is running, and the most of them there have been at once.
   */
  datatype Session = Session(led: Counters, readers: seq<seq<byte>>, handed: nat, open: nat, peak: nat)

  datatype Ran = Ran(s: Session, ok: bool)

  function Min(a: int, b: int): int { if a <= b then a else b }

  function RunAct(a: Act, s: Session): (r: Ran)
    ensures r.s.led.depth == s.led.depth
    decreases a
  {
    match a
    case Sub(p) => Ran(s.(readers := s.readers + [p]), true)
    case Read(r, want, give) =>
      if s.led.bytes >= MAX_BYTES then Ran(s, false)
      else if r >= |s.readers| then Ran(s, true)
      else
        var n := Min(Min(want, MAX_BYTES - s.led.bytes), Min(give, |s.readers[r]|));
        Ran(s.(led := s.led.(bytes := s.led.bytes + n), readers := s.readers[r := s.readers[r][n..]],
               handed := s.handed + n), true)
    case Frame(body) =>
      if !Entered(s.led) then Ran(s.(led := Exit(Enter(s.led))), false)
      else
        var open := s.open + 1;
        var r := RunActs(body, s.(led := Enter(s.led), open := open, peak := if open > s.peak then open else s.peak));
        Ran(r.s.(led := Exit(r.s.led), open := s.open), r.ok)
  }

  /** Acts in order; the first error ends the list. */
  function RunActs(acts: seq<Act>, s: Session): (r: Ran)
    ensures r.s.led.depth == s.led.depth
    decreases acts
  {
    if acts == [] then Ran(s, true)
    else
      var r := RunAct(acts[0], s);
      if r.ok then RunActs(acts[1..], r.s) else r
  }

  ghost predicate Safe(s: Session) {
    && s.handed == s.led.bytes <= MAX_BYTES
    && s.open == s.led.depth <= MAX_DEPTH
    && s.peak <= MAX_DEPTH
  }

  /**
   * Over any tree of frames and derived readers, with or without an error: the readers
   * together hand over what the ledger was charged, at most MAX_BYTES; the depth is the
   * number of open frames, never more than 64 while a body runs; and it is back where it was.
   */
  lemma {:induction false} SessionSafe(acts: seq<Act>, s: Session)
    requires Safe(s)
    ensures var t := RunActs(acts, s).s;
            Safe(t) && t.open == s.open && s.handed <= t.handed
    decreases acts
  {
    if acts != [] {
      ActSafe(acts[0], s);
      var r := RunAct(acts[0], s);
      if r.ok {
        SessionSafe(acts[1..], r.s);
      }
    }
  }

  lemma {:induction false} ActSafe(a: Act, s: Session)
    requires Safe(s)
    ensures var t := RunAct(a, s).s;
            Safe(t) && t.open == s.open && s.handed <= t.handed
    decreases a
  {
    match a
    case Frame(body) =>
      if Entered(s.led) {
        var open := s.open + 1;
        SessionSafe(body, s.(led := Enter(s.led), open := open, peak := if open > s.peak then open else s.peak));
      }
    case _ =>
  }

  /** A read somewhere in the tree. */
  predicate HasRead(acts: seq<Act>)
    decreases acts
  {
    acts != [] && (ActReads(acts[0]) || HasRead(acts[1..]))
  }

  predicate ActReads(a: Act)
    decreases a
  {
    match a
    case Read(_, _, _) => true
    case Sub(_) => false
    case Frame(body) => HasRead(body)
  }

  /** Nothing more was handed over: the readers there were are as they were, and no byte was charged. */
  predicate Untouched(s: Session, t: Session) {
    && t.handed == s.handed && t.led.bytes == s.led.bytes
    && |s.readers| <= |t.readers| && t.readers[..|s.readers|] == s.readers
  }

  lemma UntouchedTrans(s: Session, t: Session, u: Session)
    requires Untouched(s, t) && Untouched(t, u)
    ensures Untouched(s, u)
  {
    assert u.readers[..|s.readers|] == u.readers[..|t.readers|][..|s.readers|];
  }

  /**
   * Once the byte budget is spent, no tree of frames and derived readers gets another byte out
   * of any reader, and a tree with a read anywhere in it ends in an error.
   */
  lemma {:induction false} SpentRefuses(acts: seq<Act>, s: Session)
    requires s.led.bytes >= MAX_BYTES
    ensures Untouched(s, RunActs(acts, s).s)
    ensures HasRead(acts) ==> !RunActs(acts, s).ok
    decreases acts
  {
    if acts != [] {
      SpentRefusesAct(acts[0], s);
      var r := RunAct(acts[0], s);
      if r.ok {
        SpentRefuses(acts[1..], r.s);
        UntouchedTrans(s, r.s, RunActs(acts[1..], r.s).s);
      }
    }
  }

  lemma {:induction false} SpentRefusesAct(a: Act, s: Session)
    requires s.led.bytes >= MAX_BYTES
    ensures Untouched(s, RunAct(a, s).s)
    ensures ActReads(a) ==> !RunAct(a, s).ok
    decreases a
  {
    match a
    case Frame(body) =>
      if Entered(s.led) {
        var open := s.open + 1;
        SpentRefuses(body, s.(led := Enter(s.led), open := open, peak := if open > s.peak then open else s.peak));
      }
    case _ =>
  }
}

/** The mutable ledger and the reader and writer that share it. */
module Streams {
  import opened Wrappers
  import opened Bytes
  import opened Ledger

  class Budget {
    var depth: nat
    var frames: nat
    var bytes: nat

    ghost function View(): Counters
      reads this
    {
      Counters(depth, frames, bytes)
    }

    constructor ()
      ensures View() == FRESH
    {
      depth, frames, bytes := 0, 0, 0;
    }

    method Enter() returns (err: Option<Err>)
      modifies this
      ensures View() == Ledger.Enter(old(View()))
      ensures err == if Entered(old(View())) then None else Some(Limit)
    {
      depth := depth + 1;
      if depth > MAX_DEPTH {
        return Some(Limit);
      }
      frames := frames + 1;
      if frames > MAX_FRAMES {
        return Some(Limit);
      }
      return None;
    }

    method Exit()
      requires depth > 0
      modifies this
      ensures View() == Ledger.Exit(old(View()))
    {
      depth := depth - 1;
    }

    /** The frames that a compile-time codec opens and leaves, seen from outside. */
    method Nest(need: Need) returns (err: Option<Err>)
      modifies this`frames
      ensures err == if Nests(old(View()), need) then None else Some(Limit)
      ensures View() == if err.None? then Nested(old(View()), need) else old(View())
    {
      if depth + need.peak > MAX_DEPTH || frames + need.frames > MAX_FRAMES {
        return Some(Limit);
      }
      frames := frames + need.frames;
      return None;
    }

    method Charge(n: nat) returns (err: Option<Err>)
      modifies this`bytes
      ensures bytes == old(bytes) + n
      ensures err == if n > 0 && bytes > MAX_BYTES then Some(Limit) else None
    {
      if n == 0 {
        return None;
      }
      bytes := bytes + n;
      return if bytes > MAX_BYTES then Some(Limit) else None;
    }
  }

  /**
   * `src` is what the source under the reader has yet to deliver; `made` counts the container
   * elements completed through this reader.
   */
  class ObjectReader {
    var src: seq<byte>
    ghost var made: nat
    const b: Budget

    constructor (src: seq<byte>, b: Budget)
      ensures this.src == src && this.b == b && made == 0
    {
      this.src := src;
      made := 0;
      this.b := b;
    }

    /** A reader over a sub-payload that shares this reader's ledger. */
    method Sub(p: seq<byte>) returns (r: ObjectReader)
      ensures fresh(r) && r.b == b && r.src == p && r.made == 0
    {
      r := new ObjectReader(p, b);
    }

    /**
     * Hands over at most the bytes the budget still allows; the source may deliver fewer
     * than asked for, but at least one while it has any.
     */
    method Read(want: nat) returns (p: seq<byte>, err: Option<Err>)
      requires b.bytes <= MAX_BYTES && want > 0
      modifies this`src, b`bytes
      ensures old(src) == p + src && |p| <= want
      ensures b.bytes == old(b.bytes) + |p| <= MAX_BYTES
      ensures old(b.bytes) == MAX_BYTES ==> p == [] && err == Some(Limit)
      ensures old(b.bytes) < MAX_BYTES && old(src) == [] ==> p == [] && err == Some(ShortRead)
      ensures old(b.bytes) < MAX_BYTES && old(src) != [] ==> p != [] && err == None
    {
      var room := MAX_BYTES - b.bytes;
      if room <= 0 {
        return [], Some(Limit);
      }
      if src == [] {
        return [], Some(ShortRead);
      }
      var cap := Min(Min(want, room), |src|);
      var n :| 1 <= n <= cap;
      p, src := src[..n], src[n..];
      err := b.Charge(n);
    }
  }

  class ObjectWriter {
    var out: seq<byte>
    const b: Budget

    constructor (b: Budget)
      ensures out == [] && this.b == b
    {
      this.out := [];
      this.b := b;
    }

    /** A writer over a staging buffer that shares this writer's ledger. */
    method SubWriter() returns (w: ObjectWriter)
      ensures fresh(w) && w.b == b && w.out == []
    {
      w := new ObjectWriter(b);
    }

    method Write(p: seq<byte>) returns (err: Option<Err>)
      modifies this`out, b`bytes
      ensures out == old(out) + p && b.bytes == old(b.bytes) + |p|
      ensures err == if |p| > 0 && b.bytes > MAX_BYTES then Some(Limit) else None
    {
      out := out + p;
      err := b.Charge(|p|);
    }
  }
}
