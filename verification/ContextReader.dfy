/**
 * A cancelable buffered reader. A read that outlives its caller goes on in the background
 * and leaves its bytes in the buffer. `Guarded` is what the lock guards; a `State` adds the
 * background goroutines, the callers that wait, and the history of the source.
 */
module ContextReader {
  import opened Wrappers
  import opened Bytes

  const READ_BUFFER := 16 * 1024

  /** The buffer, the channel of the read in progress, and the source's error. */
  datatype Guarded = Guarded(buf: seq<byte>, ch: Option<nat>, err: Option<nat>)

  // ---------------------------------------------------------------- critical sections

  /** What one pass of `ReadContext` through the lock ends in; `Wait` names the channel to wait on. */
  datatype Pass = Data(bytes: seq<byte>) | Error(err: nat) | Wait(ch: nat, start: bool)

  /** `newCh` is the identity of the channel that `make` returns, should it be called. */
  function Enter(g: Guarded, want: nat, newCh: nat): (Guarded, Pass) {
    if |g.buf| > 0 then
      var n := if want < |g.buf| then want else |g.buf|;
      (g.(buf := g.buf[n..]), Data(g.buf[..n]))
    else if g.err.Some? then (g, Error(g.err.value))
    else if g.ch.None? then (g.(ch := Some(newCh)), Wait(newCh, true))
    else (g, Wait(g.ch.value, false))
  }

  /** The end of a background read. */
  function Commit(g: Guarded, bytes: seq<byte>, err: Option<nat>): Guarded { Guarded(g.buf + bytes, None, err) }

  /** The reader object; each method is one critical section. */
  class Reader {
    var buf: seq<byte>
    var ch: Option<nat>
    var err: Option<nat>

    ghost function View(): Guarded
      reads this
    {
      Guarded(buf, ch, err)
    }

    constructor ()
      ensures View() == Guarded([], None, None)
    {
      buf, ch, err := [], None, None;
    }

    method EnterRead(p: array<byte>, newCh: nat) returns (n: nat, pass: Pass)
      modifies this, p
      ensures (View(), pass) == Enter(old(View()), p.Length, newCh)
      ensures n <= p.Length && p[n..] == old(p[n..])
      ensures if pass.Data? then p[..n] == pass.bytes else n == 0
    {
      n := 0;
      if |buf| > 0 {
        n := if p.Length < |buf| then p.Length else |buf|;
        pass := Data(buf[..n]);
        forall i | 0 <= i < n {
          p[i] := buf[i];
        }
        buf := buf[n..];
      } else if err.Some? {
        pass := Error(err.value);
      } else if ch.None? {
        ch := Some(newCh);
        pass := Wait(newCh, true);
      } else {
        pass := Wait(ch.value, false);
      }
    }

    method Finish(b: array<byte>, n: nat, e: Option<nat>)
      requires n <= b.Length
      modifies this
      ensures View() == Commit(old(View()), b[..n], e)
    {
      err := e;
      assert n == 0 ==> buf + b[..n] == buf;
      if n > 0 {
        buf := buf + b[..n];
      }
      ch := None;
    }
  }

  // ---------------------------------------------------------------- steps

  /** A background goroutine: before, between and after its read and its commit. */
  datatype Background = Reading | Holding(bytes: seq<byte>, err: Option<nat>) | Closing

  /** A caller: about to take the lock, or waiting on a channel or its context. */
  datatype Caller = Entering(want: nat) | Waiting(want: nat, ch: nat)

  datatype State = State(
    g: Guarded,
    background: map<nat, Background>,
    closed: set<nat>,
    channels: nat,
    callers: map<nat, Caller>,
    source: seq<byte>,         // bytes the source has delivered
    failed: Option<nat>,       // the source's error, once reported
    returned: seq<byte>,       // bytes handed to callers, in lock order
    errors: seq<nat>)          // errors handed to callers

  datatype Action =
    | Call(id: nat, want: nat)
    | Pass(id: nat)
    | Wake(id: nat)
    | Cancel(id: nat)
    | SourceRead(ch: nat, bytes: seq<byte>, err: Option<nat>)
    | Finish(ch: nat)
    | CloseChannel(ch: nat)

  const INIT := State(Guarded([], None, None), map[], {}, 0, map[], [], None, [], [])

  function Next(s: State, a: Action): Option<State> {
    match a
    case Call(id, want) => if id in s.callers then None else Some(s.(callers := s.callers[id := Entering(want)]))
    case Pass(id) =>
      if id !in s.callers || !s.callers[id].Entering? then None
      else
        var want := s.callers[id].want;
        var (g, pass) := Enter(s.g, want, s.channels);
        (match pass
         case Data(bytes) => Some(s.(g := g, callers := s.callers - {id}, returned := s.returned + bytes))
         case Error(e) => Some(s.(g := g, callers := s.callers - {id}, errors := s.errors + [e]))
         case Wait(ch, start) =>
           var t := s.(g := g, callers := s.callers[id := Waiting(want, ch)]);
           Some(if start then t.(background := s.background[ch := Reading], channels := s.channels + 1) else t))
    case Wake(id) =>
      if id in s.callers && s.callers[id].Waiting? && s.callers[id].ch in s.closed then
        Some(s.(callers := s.callers[id := Entering(s.callers[id].want)]))
      else None
    case Cancel(id) =>
      if id in s.callers && s.callers[id].Waiting? then Some(s.(callers := s.callers - {id})) else None
    case SourceRead(ch, bytes, err) =>
      if ch in s.background && s.background[ch] == Reading && |bytes| <= READ_BUFFER then
        Some(s.(background := s.background[ch := Holding(bytes, err)], source := s.source + bytes, failed := err))
      else None
    case Finish(ch) =>
      if ch in s.background && s.background[ch].Holding? then
        var h := s.background[ch];
        Some(s.(g := Commit(s.g, h.bytes, h.err), background := s.background[ch := Closing]))
      else None
    case CloseChannel(ch) =>
      if ch in s.background && s.background[ch] == Closing then
        Some(s.(background := s.background - {ch}, closed := s.closed + {ch}))
      else None
  }

  function Run(s: State, acts: seq<Action>): Option<State> {
    if acts == [] then Some(s)
    else
      match Run(s, acts[..|acts| - 1])
      case None => None
      case Some(t) => Next(t, acts[|acts| - 1])
  }

  // ---------------------------------------------------------------- what every step keeps

  /** The channel in the field is that of the one read in progress. */
  predicate OneRead(s: State) {
    && (forall c :: c in s.background ==> c < s.channels && c !in s.closed)
    && (forall c :: c in s.closed ==> c < s.channels)
    && (forall c :: c in s.background && s.background[c] != Closing ==> s.g.ch == Some(c))
    && (s.g.ch.Some? ==> s.g.ch.value in s.background && s.background[s.g.ch.value] != Closing)
  }

  /** Bytes of the source not yet in the buffer: those the read in progress holds. */
  function Held(s: State): seq<byte> {
    if s.g.ch.Some? && s.g.ch.value in s.background && s.background[s.g.ch.value].Holding?
    then s.background[s.g.ch.value].bytes else []
  }

  predicate Conserved(s: State) { s.source == s.returned + s.g.buf + Held(s) }

  /** The source's error waits with the read that got it, then stays; nothing is read after it. */
  predicate ErrorLast(s: State) {
    && (s.g.err.Some? ==> s.g.ch.None?)
    && (if s.g.ch.Some? && s.g.ch.value in s.background && s.background[s.g.ch.value].Holding?
        then s.failed == s.background[s.g.ch.value].err else s.failed == s.g.err)
    && (forall i :: 0 <= i < |s.errors| ==> s.g.err == Some(s.errors[i]))
    && (s.errors != [] ==> s.g.err.Some? && s.g.buf == [])
  }

  /** A caller waits on a channel that is closed or whose goroutine will close it. */
  predicate Waiters(s: State) {
    forall id :: id in s.callers && s.callers[id].Waiting? ==>
      s.callers[id].ch in s.closed || s.callers[id].ch in s.background
  }

  predicate Inv(s: State) { OneRead(s) && Conserved(s) && ErrorLast(s) && Waiters(s) }

  lemma PassKeeps(s: State, id: nat)
    requires Inv(s) && Next(s, Pass(id)).Some?
    ensures Inv(Next(s, Pass(id)).value)
  {
    var t := Next(s, Pass(id)).value;
    var (g, pass) := Enter(s.g, s.callers[id].want, s.channels);
    if pass.Data? {
      assert s.returned + s.g.buf == s.returned + pass.bytes + g.buf;
    }
  }

  lemma SourceKeeps(s: State, a: Action)
    requires Inv(s) && a.SourceRead? && Next(s, a).Some?
    ensures Inv(Next(s, a).value)
  {
    assert s.returned + s.g.buf + [] == s.returned + s.g.buf;
  }

  lemma FinishKeeps(s: State, c: nat)
    requires Inv(s) && Next(s, Finish(c)).Some?
    ensures Inv(Next(s, Finish(c)).value)
  {
    var h := s.background[c];
    assert s.returned + s.g.buf + h.bytes == s.returned + (s.g.buf + h.bytes) + [];
  }

  lemma OtherKeeps(s: State, a: Action)
    requires Inv(s) && !a.Pass? && !a.SourceRead? && !a.Finish? && Next(s, a).Some?
    ensures Inv(Next(s, a).value)
  {
  }

  /** The invariant holds in every interleaving of callers, cancellations and background reads. */
  lemma {:induction false} RunKeeps(acts: seq<Action>)
    ensures Run(INIT, acts).Some? ==> Inv(Run(INIT, acts).value)
    decreases |acts|
  {
    if acts != [] && Run(INIT, acts).Some? {
      var a := acts[|acts| - 1];
      RunKeeps(acts[..|acts| - 1]);
      var s := Run(INIT, acts[..|acts| - 1]).value;
      match a
      case Pass(id) => PassKeeps(s, id);
      case SourceRead(_, _, _) => SourceKeeps(s, a);
      case Finish(c) => FinishKeeps(s, c);
      case _ => OtherKeeps(s, a);
    }
  }

  // ---------------------------------------------------------------- the main results

  ghost predicate Reachable(s: State) { exists acts :: Run(INIT, acts) == Some(s) }

  lemma ReachableInv(s: State)
    requires Reachable(s)
    ensures Inv(s)
  {
    var acts :| Run(INIT, acts) == Some(s);
    RunKeeps(acts);
  }

  /** At most one goroutine has a read of the source outstanding. */
  lemma OneOutstanding(s: State, c: nat, d: nat)
    requires Reachable(s)
    requires c in s.background && d in s.background && s.background[c] == Reading && s.background[d] == Reading
    ensures c == d
  {
    ReachableInv(s);
  }

  /** What callers got is a prefix of the source; the rest is in the buffer or with the read in progress. */
  lemma NothingLost(s: State)
    requires Reachable(s)
    ensures s.returned <= s.source && s.source == s.returned + s.g.buf + Held(s)
  {
    ReachableInv(s);
  }

  /** A caller gets the source's own error, and only when every byte of the source was returned. */
  lemma ErrorComesLast(s: State, id: nat)
    requires Reachable(s) && Next(s, Pass(id)).Some? && |Next(s, Pass(id)).value.errors| > |s.errors|
    ensures var t := Next(s, Pass(id)).value;
            t.failed == Some(t.errors[|t.errors| - 1]) && t.returned == t.source
  {
    ReachableInv(s);
    assert s.returned + [] + [] == s.returned;
  }

  /** After an error is returned the source is read no more. */
  lemma NoReadAfterError(s: State, c: nat)
    requires Reachable(s) && s.errors != []
    ensures !(c in s.background && s.background[c] == Reading)
  {
    ReachableInv(s);
  }

  /** Nobody waits in vain: the channel is closed, or its goroutine is still to close it. */
  lemma WaitersWake(s: State, id: nat)
    requires Reachable(s) && id in s.callers && s.callers[id].Waiting?
    ensures Next(s, Wake(id)).Some? || s.callers[id].ch in s.background
  {
    ReachableInv(s);
  }

  /** A caller gets as many bytes as are there and fit, and waits only when there are none and no error. */
  lemma PassTakesAll(s: State, id: nat)
    requires Reachable(s) && id in s.callers && s.callers[id].Entering?
    ensures Next(s, Pass(id)).Some?
    ensures var t, want := Next(s, Pass(id)).value, s.callers[id].want;
            if s.g.buf != [] then
              t.returned == s.returned + s.g.buf[..if want < |s.g.buf| then want else |s.g.buf|] && id !in t.callers
            else if s.g.err.Some? then t.errors == s.errors + [s.g.err.value] && id !in t.callers
            else id in t.callers && t.callers[id].Waiting? && t.g.ch == Some(t.callers[id].ch)
  {
    ReachableInv(s);
  }
}
