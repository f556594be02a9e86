/**
 * A buffered writer with a background flusher. `Buffer` is what the lock guards; a `State`
 * adds the flusher's place in its loop, the callers asleep in `Sync`, the bytes the output
 * has taken, and the history of accepted and handed-back chunks.
 */
module AsyncWriter {
  import opened Wrappers
  import opened Bytes

  type Chunk = seq<byte>

  datatype Failure = Overflow | Closed | Output(code: nat)

  datatype Buffer = Buffer(chunks: seq<Chunk>, size: int, used: int, err: Option<Failure>, closed: bool)

  // ---------------------------------------------------------------- critical sections

  function WriteError(b: Buffer, p: Chunk): Option<Failure> {
    if b.err.Some? then b.err
    else if b.closed then Some(Closed)
    else if |p| > b.size - b.used then Some(Overflow)
    else None
  }

  function Enqueue(b: Buffer, p: Chunk): Buffer { b.(chunks := b.chunks + [p], used := b.used + |p|) }

  function Dequeue(b: Buffer): Buffer {
    if b.chunks == [] then b else b.(chunks := b.chunks[1..], used := b.used - |b.chunks[0]|)
  }

  /** The writer object; each method is one critical section. */
  class Writer {
    var chunks: seq<Chunk>
    var bufferSize: int
    var used: int
    var writeErr: Option<Failure>
    var closed: bool

    ghost function View(): Buffer
      reads this
    {
      Buffer(chunks, bufferSize, used, writeErr, closed)
    }

    constructor (bufferSize: int)
      ensures View() == Buffer([], bufferSize, 0, None, false)
    {
      this.chunks, this.bufferSize, this.used, this.writeErr, this.closed := [], bufferSize, 0, None, false;
    }

    method Write(p: Chunk) returns (n: nat, err: Option<Failure>)
      modifies this
      ensures err == WriteError(old(View()), p)
      ensures err.None? ==> n == |p| && View() == Enqueue(old(View()), p) && used <= bufferSize
      ensures err.Some? ==> n == 0 && View() == old(View())
    {
      if writeErr.Some? {
        return 0, writeErr;
      }
      if closed {
        return 0, Some(Closed);
      }
      if |p| > bufferSize - used {
        return 0, Some(Overflow);
      }
      chunks := chunks + [p];
      used := used + |p|;
      return |p|, None;
    }

    method Close()
      modifies this
      ensures View() == old(View()).(closed := true)
    {
      closed := true;
    }

    method TakeFirst() returns (chunk: Chunk)
      modifies this
      ensures View() == Dequeue(old(View()))
      ensures chunk == if old(chunks) == [] then [] else old(chunks)[0]
    {
      if |chunks| == 0 {
        return [];
      }
      chunk := chunks[0];
      chunks := chunks[1..];
      used := used - |chunk|;
    }
  }

  // ---------------------------------------------------------------- steps

  /** Where the flusher is between two critical sections. */
  datatype Flusher =
    | Looking                // about to look at the queue
    | Asleep                 // in cond.Wait
    | Writing(rest: Chunk)   // the chunk at the head, less what the output took
    | Written                // all of it is out; about to dequeue
    | HandingBack(chunk: Chunk)
    | Failing(code: nat)     // the output failed; the error is not recorded yet
    | Closing                // in the deferred function, before the output is closed
    | Announcing             // the output is closed; about to wake everyone
    | Exited

  datatype State = State(
    b: Buffer,
    flusher: Flusher,
    syncers: map<nat, bool>,   // callers in Sync; true while asleep
    output: seq<byte>,
    outputClosed: bool,
    accepted: seq<Chunk>,
    handedBack: seq<Chunk>)

  datatype Action =
    | Write(p: Chunk)
    | Close
    | Resize(size: int)
    | SyncCall(id: nat)
    | SyncCheck(id: nat)
    | Look
    | Out(n: nat)
    | OutFails(n: nat, code: nat)
    | Pop
    | HandBack
    | SetError
    | CloseOutput
    | Announce

  function Init(size: int): State { State(Buffer([], size, 0, None, false), Looking, map[], [], false, [], []) }

  /** `cond.Broadcast`. */
  function Broadcast(s: State): State {
    s.(flusher := if s.flusher == Asleep then Looking else s.flusher, syncers := map i | i in s.syncers :: false)
  }

  /** When the rest of the head chunk is out, the inner loop is over. */
  function Rest(rest: Chunk): Flusher { if rest == [] then Written else Writing(rest) }

  datatype SyncOutcome = SyncNil | SyncErr(f: Failure) | SyncWaits

  function SyncResult(b: Buffer): SyncOutcome {
    if b.err.Some? then SyncErr(b.err.value) else if b.chunks == [] then SyncNil else SyncWaits
  }

  function Next(s: State, a: Action): Option<State> {
    match a
    case Write(p) =>
      if WriteError(s.b, p).Some? then Some(s)
      else Some(Broadcast(s.(b := Enqueue(s.b, p), accepted := s.accepted + [p])))
    case Close => Some(Broadcast(s.(b := s.b.(closed := true))))
    case Resize(size) => Some(s.(b := s.b.(size := size)))
    case SyncCall(id) => if id in s.syncers then None else Some(s.(syncers := s.syncers[id := false]))
    case SyncCheck(id) =>
      if id in s.syncers && !s.syncers[id] then
        Some(s.(syncers := if SyncResult(s.b) == SyncWaits then s.syncers[id := true] else s.syncers - {id}))
      else None
    case Look =>
      if s.flusher != Looking then None
      else Some(s.(flusher := if s.b.chunks != [] then Rest(s.b.chunks[0]) else if s.b.closed then Closing else Asleep))
    case Out(n) =>
      if s.flusher.Writing? && n <= |s.flusher.rest| then
        Some(s.(output := s.output + s.flusher.rest[..n], flusher := Rest(s.flusher.rest[n..])))
      else None
    case OutFails(n, code) =>
      if s.flusher.Writing? && n <= |s.flusher.rest| then
        Some(s.(output := s.output + s.flusher.rest[..n], flusher := Failing(code)))
      else None
    case Pop =>
      if s.flusher != Written then None
      else
        var chunk := if s.b.chunks == [] then [] else s.b.chunks[0];
        Some(Broadcast(s.(b := Dequeue(s.b), flusher := HandingBack(chunk))))
    case HandBack =>
      if s.flusher.HandingBack? then Some(s.(handedBack := s.handedBack + [s.flusher.chunk], flusher := Looking)) else None
    case SetError =>
      if s.flusher.Failing? then Some(s.(b := s.b.(err := Some(Output(s.flusher.code))), flusher := Closing)) else None
    case CloseOutput => if s.flusher == Closing then Some(s.(outputClosed := true, flusher := Announcing)) else None
    case Announce => if s.flusher == Announcing then Some(Broadcast(s).(flusher := Exited)) else None
  }

  function Run(s: State, acts: seq<Action>): Option<State> {
    if acts == [] then Some(s)
    else
      match Run(s, acts[..|acts| - 1])
      case None => None
      case Some(t) => Next(t, acts[|acts| - 1])
  }

  // ---------------------------------------------------------------- what every step keeps

  function Sum(cs: seq<Chunk>): nat { if cs == [] then 0 else |cs[0]| + Sum(cs[1..]) }

  function Concat(cs: seq<Chunk>): seq<byte> { if cs == [] then [] else cs[0] + Concat(cs[1..]) }

  lemma {:induction false} ConcatSnoc(cs: seq<Chunk>, c: Chunk)
    ensures Concat(cs + [c]) == Concat(cs) + c && Sum(cs + [c]) == Sum(cs) + |c|
    decreases |cs|
  {
    if cs == [] {
      assert cs + [c] == [c] && [c][1..] == [] && Concat([c]) == c + [];
    } else {
      assert (cs + [c])[1..] == cs[1..] + [c];
      ConcatSnoc(cs[1..], c);
      assert cs[0] + (Concat(cs[1..]) + c) == cs[0] + Concat(cs[1..]) + c;
    }
  }

  lemma {:induction false} ConcatPlus(a: seq<Chunk>, b: seq<Chunk>)
    ensures Concat(a + b) == Concat(a) + Concat(b)
    decreases |a|
  {
    if a == [] {
      assert a + b == b;
    } else {
      assert (a + b)[1..] == a[1..] + b;
      ConcatPlus(a[1..], b);
    }
  }

  predicate Broken(s: State) { s.flusher.Failing? || s.b.err.Some? }

  /** Chunks are queued in the order of acceptance, behind those already dequeued. */
  predicate Queue(s: State) {
    && |s.b.chunks| <= |s.accepted|
    && s.b.chunks == s.accepted[Gone(s)..]
    && s.b.used == Sum(s.b.chunks)
  }

  function Gone(s: State): int { |s.accepted| - |s.b.chunks| }

  /** What the output holds beyond the dequeued chunks is the part of the head that is out. */
  predicate Delivered(s: State)
    requires 0 <= Gone(s)
  {
    var before := Concat(s.accepted[..Gone(s)]);
    && |before| <= |s.output| && s.output[..|before|] == before
    && var part := s.output[|before|..];
       match s.flusher
       case Writing(rest) => s.b.chunks != [] && rest != [] && part + rest == s.b.chunks[0]
       case Written => s.b.chunks != [] && part == s.b.chunks[0]
       case _ => if Broken(s) then s.b.chunks != [] && part <= s.b.chunks[0] else part == []
  }

  /** Chunks are handed back in order, and never before they are out. */
  predicate Returned(s: State)
    requires 0 <= Gone(s)
  {
    var held := if s.flusher.HandingBack? then 1 else 0;
    && |s.handedBack| + held == Gone(s)
    && s.handedBack == s.accepted[..|s.handedBack|]
    && (s.flusher.HandingBack? ==> s.flusher.chunk == s.accepted[|s.handedBack|])
  }

  /** An exit without an error follows an empty queue after Close; nobody sleeps through a change. */
  predicate Wakes(s: State) {
    var leaving := s.flusher == Closing || s.flusher == Announcing || s.flusher == Exited;
    && (leaving && s.b.err.None? ==> s.b.chunks == [] && s.b.closed)
    && (s.b.err.Some? ==> leaving)
    && (s.flusher == Asleep ==> s.b.chunks == [] && !s.b.closed)
    && (s.flusher == Exited ==> forall i :: i in s.syncers ==> !s.syncers[i])
    && (forall i :: i in s.syncers && s.syncers[i] ==> s.b.chunks != [])
  }

  predicate Inv(s: State) { Queue(s) && Delivered(s) && Returned(s) && Wakes(s) }

  lemma InitInv(size: int)
    ensures Inv(Init(size))
  {
  }

  lemma WriteKeeps(s: State, p: Chunk)
    requires Inv(s)
    ensures Inv(Next(s, Write(p)).value)
  {
    if WriteError(s.b, p).None? {
      var t := Next(s, Write(p)).value;
      ConcatSnoc(s.b.chunks, p);
      assert t.accepted[..Gone(t)] == s.accepted[..Gone(s)];
      assert t.b.chunks == t.accepted[Gone(t)..];
      assert t.accepted[..|t.handedBack|] == s.accepted[..|s.handedBack|];
    }
  }

  lemma PopKeeps(s: State)
    requires Inv(s) && s.flusher == Written
    ensures Inv(Next(s, Pop).value)
  {
    var t := Next(s, Pop).value;
    var k, c := Gone(s), s.b.chunks[0];
    assert s.accepted[k] == c && s.accepted[..k + 1] == s.accepted[..k] + [c];
    ConcatSnoc(s.accepted[..k], c);
    assert s.output == s.output[..|Concat(s.accepted[..k])|] + s.output[|Concat(s.accepted[..k])|..];
    assert t.b.chunks == t.accepted[k + 1..];
  }

  lemma Grows(output: seq<byte>, rest: seq<byte>, n: nat, before: nat)
    requires n <= |rest| && before <= |output|
    ensures var more := output + rest[..n];
            more[..before] == output[..before] && more[before..] + rest[n..] == output[before..] + rest
  {
    assert rest == rest[..n] + rest[n..];
  }

  lemma OutKeeps(s: State, a: Action)
    requires Inv(s) && (a.Out? || a.OutFails?) && Next(s, a).Some?
    ensures Inv(Next(s, a).value)
  {
    var before := |Concat(s.accepted[..Gone(s)])|;
    var rest := s.flusher.rest;
    var t := Next(s, a).value;
    Grows(s.output, rest, a.n, before);
    if a.Out? && rest[a.n..] == [] {
      assert t.output[before..] + [] == t.output[before..];
    }
  }

  lemma HandBackKeeps(s: State)
    requires Inv(s) && s.flusher.HandingBack?
    ensures Inv(Next(s, HandBack).value)
  {
    var n := |s.handedBack|;
    assert s.accepted[..n + 1] == s.accepted[..n] + [s.accepted[n]];
  }

  predicate CallerStep(a: Action) { a.Close? || a.Resize? || a.SyncCall? || a.SyncCheck? }

  /** Steps that leave the queue, the histories and the flusher's work alone. */
  lemma Untouched(s: State, t: State)
    requires Queue(s) && Delivered(s) && Returned(s)
    requires t.b.chunks == s.b.chunks && t.b.used == s.b.used && t.b.err == s.b.err
    requires t.output == s.output && t.accepted == s.accepted && t.handedBack == s.handedBack
    requires t.flusher == s.flusher || (s.flusher == Asleep && t.flusher == Looking)
    ensures Queue(t) && Delivered(t) && Returned(t)
  {
  }

  lemma CallerKeeps(s: State, a: Action)
    requires Inv(s) && Next(s, a).Some? && CallerStep(a)
    ensures Inv(Next(s, a).value)
  {
    Untouched(s, Next(s, a).value);
  }

  lemma LookKeeps(s: State)
    requires Inv(s) && Next(s, Look).Some?
    ensures Inv(Next(s, Look).value)
  {
    var part := s.output[|Concat(s.accepted[..Gone(s)])|..];
    if s.b.chunks != [] {
      assert part + s.b.chunks[0] == s.b.chunks[0];
    }
  }

  lemma EndKeeps(s: State, a: Action)
    requires Inv(s) && Next(s, a).Some? && (a.SetError? || a.CloseOutput? || a.Announce?)
    ensures Inv(Next(s, a).value)
  {
  }

  lemma StepKeeps(s: State, a: Action)
    requires Inv(s) && Next(s, a).Some?
    ensures Inv(Next(s, a).value)
  {
    match a
    case Write(p) => WriteKeeps(s, p);
    case Pop => PopKeeps(s);
    case Out(_) => OutKeeps(s, a);
    case OutFails(_, _) => OutKeeps(s, a);
    case HandBack => HandBackKeeps(s);
    case Look => LookKeeps(s);
    case SetError => EndKeeps(s, a);
    case CloseOutput => EndKeeps(s, a);
    case Announce => EndKeeps(s, a);
    case _ => CallerKeeps(s, a);
  }

  /** The invariant holds in every interleaving of writers, closers, syncers and the flusher. */
  lemma {:induction false} RunKeeps(size: int, acts: seq<Action>)
    ensures Run(Init(size), acts).Some? ==> Inv(Run(Init(size), acts).value)
    decreases |acts|
  {
    if acts == [] {
      InitInv(size);
    } else if Run(Init(size), acts).Some? {
      RunKeeps(size, acts[..|acts| - 1]);
      StepKeeps(Run(Init(size), acts[..|acts| - 1]).value, acts[|acts| - 1]);
    }
  }

  // ---------------------------------------------------------------- the main results

  ghost predicate Reachable(s: State) { exists size, acts :: Run(Init(size), acts) == Some(s) }

  lemma ReachableInv(s: State)
    requires Reachable(s)
    ensures Inv(s)
  {
    var size, acts :| Run(Init(size), acts) == Some(s);
    RunKeeps(size, acts);
  }

  /** The counter is exact, and the output is a prefix of the accepted bytes in order of acceptance. */
  lemma OutputIsPrefix(s: State)
    requires Reachable(s)
    ensures s.b.used == Sum(s.b.chunks)
    ensures s.output <= Concat(s.accepted)
  {
    ReachableInv(s);
    var k := Gone(s);
    var before := Concat(s.accepted[..k]);
    assert s.accepted == s.accepted[..k] + s.b.chunks;
    ConcatPlus(s.accepted[..k], s.b.chunks);
    var part := s.output[|before|..];
    assert s.output == before + part;
    if s.b.chunks != [] {
      assert part <= s.b.chunks[0] by {
        if s.flusher.Writing? {
          assert s.b.chunks[0] == part + s.flusher.rest;
        }
      }
      assert part <= Concat(s.b.chunks);
    }
  }

  /** An empty queue without an error means that everything accepted so far is out. */
  lemma EmptyMeansDelivered(s: State)
    requires Reachable(s) && s.b.chunks == []
    ensures s.output == Concat(s.accepted)
  {
    ReachableInv(s);
    assert s.accepted[..Gone(s)] == s.accepted;
    assert s.output == s.output[..|Concat(s.accepted)|] + s.output[|Concat(s.accepted)|..];
  }

  /** When Sync returns nil, all chunks accepted by then are delivered. */
  lemma SyncNilDelivers(s: State)
    requires Reachable(s) && SyncResult(s.b) == SyncNil
    ensures s.output == Concat(s.accepted)
  {
    EmptyMeansDelivered(s);
  }

  /** A flusher that exits without an error has delivered all chunks, and no more will be accepted. */
  lemma ExitDelivers(s: State, p: Chunk)
    requires Reachable(s) && s.flusher == Exited && s.b.err.None?
    ensures s.output == Concat(s.accepted) && WriteError(s.b, p) == Some(Closed)
  {
    ReachableInv(s);
    EmptyMeansDelivered(s);
  }

  /** Delivered bytes are never taken back, and chunks are accepted only at the end. */
  lemma HistoryGrows(s: State, a: Action)
    requires Next(s, a).Some?
    ensures s.output <= Next(s, a).value.output && s.accepted <= Next(s, a).value.accepted
    ensures s.handedBack <= Next(s, a).value.handedBack
  {
  }

  lemma PrefixTrans(a: seq<byte>, b: seq<byte>, c: seq<byte>)
    requires a <= b && b <= c
    ensures a <= c
  {
  }

  /** A chunk goes back to its owner once, in order, and only when its bytes are out. */
  lemma HandedBackIsOut(s: State)
    requires Reachable(s)
    ensures s.handedBack <= s.accepted && Concat(s.handedBack) <= s.output
  {
    ReachableInv(s);
    var n, k := |s.handedBack|, Gone(s);
    ConcatPlus(s.handedBack, s.accepted[n..k]);
    assert s.accepted[..k] == s.handedBack + s.accepted[n..k];
    PrefixTrans(Concat(s.handedBack), Concat(s.accepted[..k]), s.output);
  }

  /** Nobody is left asleep: not the flusher with work to do, nor a caller in Sync after the flusher exits. */
  lemma NobodyOversleeps(s: State)
    requires Reachable(s)
    ensures s.flusher == Asleep ==> s.b.chunks == [] && !s.b.closed
    ensures forall i :: i in s.syncers && s.syncers[i] ==> s.flusher != Exited && s.flusher != Asleep
  {
    ReachableInv(s);
  }

  /** After a failure nothing more is accepted, sent or forgiven, and Sync reports it. */
  lemma FailureSticks(s: State, a: Action, p: Chunk)
    requires Reachable(s) && s.b.err.Some? && Next(s, a).Some?
    ensures WriteError(s.b, p) == s.b.err && SyncResult(s.b) == SyncErr(s.b.err.value)
    ensures var t := Next(s, a).value; t.b.err == s.b.err && t.accepted == s.accepted && t.output == s.output
  {
    ReachableInv(s);
  }

  predicate PastOutput(f: Flusher) { f == Announcing || f == Exited }

  lemma {:induction false} ClosedWhenPast(size: int, acts: seq<Action>)
    ensures Run(Init(size), acts).Some? ==>
              var s := Run(Init(size), acts).value; s.outputClosed <==> PastOutput(s.flusher)
    decreases |acts|
  {
    if acts != [] {
      ClosedWhenPast(size, acts[..|acts| - 1]);
    }
  }

  /** The output is closed once the flusher is done with it, before the exit, and takes no byte after that. */
  lemma OutputClosedLast(s: State, a: Action)
    requires Reachable(s) && Next(s, a).Some?
    ensures s.flusher == Exited ==> s.outputClosed
    ensures s.outputClosed ==> Next(s, a).value.output == s.output && Next(s, a).value.outputClosed
    ensures s.outputClosed && s.b.err.None? ==> s.output == Concat(s.accepted)
  {
    var size, acts :| Run(Init(size), acts) == Some(s);
    ClosedWhenPast(size, acts);
    ReachableInv(s);
    if s.outputClosed && s.b.err.None? {
      EmptyMeansDelivered(s);
    }
  }
}
