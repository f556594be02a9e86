/**
 * One-shot resolution of an incoming query: any number of goroutines accept or reject, one
 * waits, and the op's own goroutine ends with a deferred reject. Each action is one atomic
 * step: a compare-and-swap, a critical section, a channel operation or a timer.
 */
module IncomingQuery {
  import opened Wrappers

  /** The goroutine that runs the op, the one in `await`, and those the op spawned. */
  datatype Who = OpRoutine | Awaiter | Helper(id: nat)

  /** The caller gets the write half of a pipe, or a refusal. */
  datatype Response = Writer(pipe: nat) | Refusal(code: nat)

  /** A call that won the compare-and-swap and has not returned yet. */
  datatype Phase = Storing(pipe: nat) | Sending(response: Response)

  datatype Win = Win(who: Who, response: Response)

  /** What `AcceptRaw` returned: a connection over a pipe, or an error connection. */
  datatype Conn = Live(who: Who, pipe: nat) | Dead(who: Who)

  datatype OpState = Running | Panicked | Abandoning | ClosingRead(pipe: nat) | ClosingRemote | Leaving | Left | Ended

  datatype AwaitState = Waiting | Received(response: Response) | GivingUp(canceled: bool) | Refusing(canceled: bool) | Refused(code: nat)

  datatype State = State(
    resolved: bool,
    slot: seq<Response>,
    accepted: Option<nat>,
    pipes: nat,
    readClosed: set<nat>,
    remoteClosed: bool,
    busy: map<Who, Phase>,
    op: OpState,
    await: AwaitState,
    wins: seq<Win>,
    conns: seq<Conn>,
    panicked: bool,
    silent: bool,           // the op returned before anyone had answered
    taken: Option<nat>)     // the read half that `abandon` found under the lock

  const CAPACITY := 1
  const DEFAULT_CODE: nat := 1
  const CANCELED: nat := 3
  const INTERNAL_ERROR: nat := 4
  const TIMEOUT: nat := 6
  const INIT := State(false, [], None, 0, {}, false, map[], Running, Waiting, [], [], false, false, None)

  // ---------------------------------------------------------------- steps

  datatype Action =
    | Accept(who: Who)
    | Reject(who: Who, code: nat)
    | Store(who: Who)
    | Send(who: Who)
    | Receive
    | GiveUp(canceled: bool)
    | AwaitReject
    | AwaitReturn
    | OpReturn(panic: bool)
    | PanicReject
    | TakeAccepted
    | CloseRead
    | CloseRemote
    | DeferredReject
    | OpEnd

  /** May `who` start a call of its own choosing? */
  predicate Free(s: State, who: Who) {
    who !in s.busy && who != Awaiter && (who == OpRoutine ==> s.op == Running)
  }

  function TryReject(s: State, who: Who, code: nat): State {
    if s.resolved then s
    else
      var r := Refusal(if code == 0 then DEFAULT_CODE else code);
      s.(resolved := true, busy := s.busy[who := Sending(r)], wins := s.wins + [Win(who, r)])
  }

  function TryAccept(s: State, who: Who): State {
    if s.resolved then s.(conns := s.conns + [Dead(who)])
    else
      s.(resolved := true, pipes := s.pipes + 1, busy := s.busy[who := Storing(s.pipes)],
         wins := s.wins + [Win(who, Writer(s.pipes))])
  }

  /** The state after an action, if it can happen; `remote` says whether there is a remote writer. */
  function Next(remote: bool, s: State, a: Action): Option<State> {
    match a
    case Accept(who) => if Free(s, who) then Some(TryAccept(s, who)) else None
    case Reject(who, code) => if Free(s, who) then Some(TryReject(s, who, code)) else None
    case Store(who) =>
      if who in s.busy && s.busy[who].Storing? then
        var p := s.busy[who].pipe;
        Some(s.(accepted := Some(p), busy := s.busy[who := Sending(Writer(p))]))
      else None
    case Send(who) =>
      if who in s.busy && s.busy[who].Sending? && |s.slot| < CAPACITY then
        var r := s.busy[who].response;
        Some(s.(slot := s.slot + [r], busy := s.busy - {who},
                conns := s.conns + if r.Writer? then [Live(who, r.pipe)] else []))
      else None
    case Receive =>
      if s.await == Waiting && s.slot != [] then Some(s.(await := Received(s.slot[0]), slot := s.slot[1..])) else None
    case GiveUp(canceled) => if s.await == Waiting then Some(s.(await := GivingUp(canceled))) else None
    case AwaitReject =>
      if s.await.GivingUp? then
        var code := if s.await.canceled then DEFAULT_CODE else TIMEOUT;
        Some(TryReject(s, Awaiter, code).(await := Refusing(s.await.canceled)))
      else None
    case AwaitReturn =>
      if s.await.Refusing? && Awaiter !in s.busy then Some(s.(await := Refused(if s.await.canceled then CANCELED else TIMEOUT))) else None
    case OpReturn(panic) =>
      if s.op == Running && OpRoutine !in s.busy then
        Some(s.(op := if panic then Panicked else Leaving, panicked := panic, silent := !s.resolved))
      else None
    case PanicReject =>
      if s.op == Panicked then Some(TryReject(s, OpRoutine, INTERNAL_ERROR).(op := Abandoning)) else None
    case TakeAccepted =>
      if s.op == Abandoning && OpRoutine !in s.busy then
        Some(s.(accepted := None, taken := s.accepted, op := if s.accepted.Some? then ClosingRead(s.accepted.value) else Leaving))
      else None
    case CloseRead =>
      if s.op.ClosingRead? then Some(s.(readClosed := s.readClosed + {s.op.pipe}, op := ClosingRemote)) else None
    case CloseRemote =>
      if s.op == ClosingRemote then Some(s.(remoteClosed := s.remoteClosed || remote, op := Leaving)) else None
    case DeferredReject =>
      if s.op == Leaving then Some(TryReject(s, OpRoutine, INTERNAL_ERROR).(op := Left)) else None
    case OpEnd => if s.op == Left && OpRoutine !in s.busy then Some(s.(op := Ended)) else None
  }

  function Run(remote: bool, s: State, acts: seq<Action>): Option<State> {
    if acts == [] then Some(s)
    else
      match Run(remote, s, acts[..|acts| - 1])
      case None => None
      case Some(t) => Next(remote, t, acts[|acts| - 1])
  }

  // ---------------------------------------------------------------- what every step keeps

  /** Where the winner's response is: still with the winner, in the slot, or received. */
  predicate Delivery(s: State) {
    if s.wins == [] then
      s.busy.Keys == {} && s.slot == [] && !s.await.Received?
    else
      var w := s.wins[0];
      && s.busy.Keys <= {w.who}
      && if w.who in s.busy then
           && s.slot == [] && !s.await.Received?
           && (s.busy[w.who] == Sending(w.response) || (w.response.Writer? && s.busy[w.who] == Storing(w.response.pipe)))
         else if s.slot != [] then s.slot == [w.response] && !s.await.Received?
         else s.await == Received(w.response)
  }

  /** The stored read half is the winner's; it leaves the field only when the op tears it down. */
  predicate Halves(s: State) {
    var stored := s.wins != [] && s.wins[0].response.Writer? && !(s.wins[0].who in s.busy && s.busy[s.wins[0].who].Storing?);
    && (s.accepted.Some? ==> stored && s.accepted.value == s.wins[0].response.pipe)
    && (stored && s.op in {Running, Panicked, Abandoning} ==> s.accepted.Some?)
    && (s.op.ClosingRead? ==> stored && s.op.pipe == s.wins[0].response.pipe)
  }

  /** A connection over a pipe was handed out by the winning accept alone. */
  predicate Conns(s: State) {
    forall i :: 0 <= i < |s.conns| && s.conns[i].Live? ==>
      s.wins != [] && s.wins[0] == Win(s.conns[i].who, Writer(s.conns[i].pipe))
  }

  predicate OpAccepted(s: State) { s.wins != [] && s.wins[0].who == OpRoutine && s.wins[0].response.Writer? }

  /** Past the teardown of an op that panicked after accepting. */
  predicate TornDown(remote: bool, s: State) {
    OpAccepted(s) && s.panicked ==>
      && (s.op in {ClosingRemote, Leaving, Left, Ended} ==> s.wins[0].response.pipe in s.readClosed)
      && (s.op in {Leaving, Left, Ended} ==> remote ==> s.remoteClosed)
  }

  /** A refusal has a reason; the op's own goroutine, once the op has returned, knows only one. */
  predicate Reasons(s: State) {
    s.wins != [] && s.wins[0].response.Refusal? ==>
      s.wins[0].response.code > 0 && (s.silent && s.wins[0].who == OpRoutine ==> s.wins[0].response.code == INTERNAL_ERROR)
  }

  predicate Inv(remote: bool, s: State) {
    && |s.wins| == (if s.resolved then 1 else 0)
    && Delivery(s) && Halves(s) && Conns(s) && TornDown(remote, s) && Reasons(s)
    && (s.silent ==> s.op != Running && !OpAccepted(s))
    && (s.op in {Left, Ended} ==> s.resolved)
    && (OpRoutine in s.busy ==> s.op == Running || (s.op in {Abandoning, Left} && s.busy[OpRoutine].Sending?))
    && (s.wins != [] && s.wins[0].who == Awaiter ==> s.wins[0].response.Refusal?)
    && (s.await.Refusing? || s.await.Refused? ==> s.resolved)
  }

  lemma InitInv(remote: bool)
    ensures Inv(remote, INIT)
  {
  }

  predicate CallStep(a: Action) { a.Accept? || a.Reject? || a.Store? || a.Send? }

  predicate AwaitStep(a: Action) { a.Receive? || a.GiveUp? || a.AwaitReject? || a.AwaitReturn? }

  lemma CallKeeps(remote: bool, s: State, a: Action)
    requires Inv(remote, s) && CallStep(a) && Next(remote, s, a).Some?
    ensures Inv(remote, Next(remote, s, a).value)
  {
  }

  lemma AwaitKeeps(remote: bool, s: State, a: Action)
    requires Inv(remote, s) && AwaitStep(a) && Next(remote, s, a).Some?
    ensures Inv(remote, Next(remote, s, a).value)
  {
  }

  lemma OpRejectKeeps(remote: bool, s: State, a: Action)
    requires Inv(remote, s) && (a.PanicReject? || a.DeferredReject?) && Next(remote, s, a).Some?
    ensures Inv(remote, Next(remote, s, a).value)
  {
  }

  lemma OpKeeps(remote: bool, s: State, a: Action)
    requires Inv(remote, s) && Next(remote, s, a).Some?
    requires a.OpReturn? || a.TakeAccepted? || a.CloseRead? || a.CloseRemote? || a.OpEnd?
    ensures Inv(remote, Next(remote, s, a).value)
  {
  }

  /** Every state of every interleaving satisfies the invariant. */
  lemma {:induction false} RunKeeps(remote: bool, acts: seq<Action>)
    ensures Run(remote, INIT, acts).Some? ==> Inv(remote, Run(remote, INIT, acts).value)
    decreases |acts|
  {
    if acts != [] && Run(remote, INIT, acts).Some? {
      var init, a := acts[..|acts| - 1], acts[|acts| - 1];
      RunKeeps(remote, init);
      var s := Run(remote, INIT, init).value;
      if CallStep(a) {
        CallKeeps(remote, s, a);
      } else if AwaitStep(a) {
        AwaitKeeps(remote, s, a);
      } else if a.PanicReject? || a.DeferredReject? {
        OpRejectKeeps(remote, s, a);
      } else {
        OpKeeps(remote, s, a);
      }
    }
  }

  // ---------------------------------------------------------------- what is closed, and who holds a connection

  /** The op's goroutine is past the lock in `abandon`, or on the way out without it. */
  predicate Looked(op: OpState) { !op.Running? && !op.Panicked? && !op.Abandoning? }

  predicate AcceptWon(s: State) { s.wins != [] && s.wins[0].response.Writer? }

  predicate Stored(s: State) {
    AcceptWon(s) && !(s.wins[0].who in s.busy && s.busy[s.wins[0].who].Storing?)
  }

  /** What is closed is what `abandon` found; a stored read half is in the field until it is found. */
  predicate Closed(remote: bool, s: State) {
    && s.readClosed == (if s.taken.Some? && !s.op.ClosingRead? then {s.taken.value} else {})
    && s.remoteClosed == (remote && s.taken.Some? && !s.op.ClosingRead? && s.op != ClosingRemote)
    && (s.op == Panicked || s.op == Abandoning ==> s.panicked)
    && (s.op.ClosingRead? ==> s.taken == Some(s.op.pipe)) && (s.op == ClosingRemote ==> s.taken.Some?)
    && (s.taken.Some? ==> s.panicked && Looked(s.op) && s.wins != [] &&
                          s.wins[0].response == Writer(s.taken.value))
    && (s.taken.Some? <==> Stored(s) && s.accepted.None?)
  }

  /** Once its call has returned, the winning accept holds a connection. */
  predicate Handed(s: State) {
    s.wins != [] && s.wins[0].response.Writer? && s.wins[0].who !in s.busy ==>
      Live(s.wins[0].who, s.wins[0].response.pipe) in s.conns
  }

  predicate Outcome(remote: bool, s: State) { Inv(remote, s) && Closed(remote, s) && Handed(s) }

  lemma CallHanded(remote: bool, s: State, a: Action)
    requires Outcome(remote, s) && CallStep(a) && Next(remote, s, a).Some?
    ensures Handed(Next(remote, s, a).value)
  {
  }

  lemma StartClosed(remote: bool, s: State, a: Action)
    requires Outcome(remote, s) && (a.Accept? || a.Reject?) && Next(remote, s, a).Some?
    ensures Closed(remote, Next(remote, s, a).value)
  {
  }

  lemma StoreClosed(remote: bool, s: State, a: Action)
    requires Outcome(remote, s) && a.Store? && Next(remote, s, a).Some?
    ensures Closed(remote, Next(remote, s, a).value)
  {
  }

  lemma SendClosed(remote: bool, s: State, a: Action)
    requires Outcome(remote, s) && a.Send? && Next(remote, s, a).Some?
    ensures Closed(remote, Next(remote, s, a).value)
  {
  }

  lemma CallClosed(remote: bool, s: State, a: Action)
    requires Outcome(remote, s) && CallStep(a) && Next(remote, s, a).Some?
    ensures Closed(remote, Next(remote, s, a).value)
  {
    if a.Store? {
      StoreClosed(remote, s, a);
    } else if a.Send? {
      SendClosed(remote, s, a);
    } else {
      StartClosed(remote, s, a);
    }
  }

  lemma AwaitClosed(remote: bool, s: State, a: Action)
    requires Outcome(remote, s) && AwaitStep(a) && Next(remote, s, a).Some?
    ensures Closed(remote, Next(remote, s, a).value)
  {
  }

  lemma AwaitHanded(remote: bool, s: State, a: Action)
    requires Outcome(remote, s) && AwaitStep(a) && Next(remote, s, a).Some?
    ensures Handed(Next(remote, s, a).value)
  {
  }

  lemma OpHanded(remote: bool, s: State, a: Action)
    requires Outcome(remote, s) && !CallStep(a) && !AwaitStep(a) && Next(remote, s, a).Some?
    ensures Handed(Next(remote, s, a).value)
  {
  }

  lemma OpRejectClosed(remote: bool, s: State, a: Action)
    requires Outcome(remote, s) && (a.PanicReject? || a.DeferredReject?) && Next(remote, s, a).Some?
    ensures Closed(remote, Next(remote, s, a).value)
  {
  }

  lemma OpClosed(remote: bool, s: State, a: Action)
    requires Outcome(remote, s) && Next(remote, s, a).Some?
    requires a.OpReturn? || a.TakeAccepted? || a.CloseRead? || a.CloseRemote? || a.OpEnd?
    ensures Closed(remote, Next(remote, s, a).value)
  {
  }

  lemma {:induction false} RunOutcome(remote: bool, acts: seq<Action>)
    ensures Run(remote, INIT, acts).Some? ==> Outcome(remote, Run(remote, INIT, acts).value)
    decreases |acts|
  {
    RunKeeps(remote, acts);
    if acts != [] && Run(remote, INIT, acts).Some? {
      var init, a := acts[..|acts| - 1], acts[|acts| - 1];
      RunOutcome(remote, init);
      var s := Run(remote, INIT, init).value;
      if CallStep(a) {
        CallHanded(remote, s, a);
        CallClosed(remote, s, a);
      } else if AwaitStep(a) {
        AwaitClosed(remote, s, a);
        AwaitHanded(remote, s, a);
      } else {
        OpHanded(remote, s, a);
        if a.PanicReject? || a.DeferredReject? {
          OpRejectClosed(remote, s, a);
        } else {
          OpClosed(remote, s, a);
        }
      }
    }
  }

  // ---------------------------------------------------------------- the main results

  ghost predicate Reachable(remote: bool, s: State) { exists acts :: Run(remote, INIT, acts) == Some(s) }

  lemma ReachableInv(remote: bool, s: State)
    requires Reachable(remote, s)
    ensures Inv(remote, s)
  {
    var acts :| Run(remote, INIT, acts) == Some(s);
    RunKeeps(remote, acts);
  }

  /** One call wins in every run, and from then on it stays the winner. */
  lemma OneWinner(remote: bool, s: State, a: Action)
    requires Reachable(remote, s) && Next(remote, s, a).Some?
    ensures |s.wins| == if s.resolved then 1 else 0
    ensures s.resolved ==> Next(remote, s, a).value.resolved && Next(remote, s, a).value.wins == s.wins
  {
    ReachableInv(remote, s);
  }

  /** A winner's send finds the slot empty: it never blocks. */
  lemma SendNeverBlocks(remote: bool, s: State, who: Who)
    requires Reachable(remote, s) && who in s.busy && s.busy[who].Sending?
    ensures Next(remote, s, Send(who)).Some?
  {
    ReachableInv(remote, s);
  }

  /** The awaiting side gets a writer only if it is the other half of the winning accept's pipe. */
  lemma WriterIsTheWinners(remote: bool, s: State, p: nat)
    requires Reachable(remote, s) && s.await == Received(Writer(p))
    ensures |s.wins| == 1 && s.wins[0].response == Writer(p)
    ensures forall i :: 0 <= i < |s.conns| && s.conns[i].Live? ==> s.conns[i] == Live(s.wins[0].who, p)
  {
    ReachableInv(remote, s);
  }

  /** Once the awaiting side's own rejection won, every accept gets an error connection. */
  lemma AfterOwnRejection(remote: bool, s: State, who: Who)
    requires Reachable(remote, s) && s.wins != [] && s.wins[0].who == Awaiter
    ensures forall i :: 0 <= i < |s.conns| ==> s.conns[i].Dead?
    ensures Free(s, who) ==> Next(remote, s, Accept(who)) == Some(s.(conns := s.conns + [Dead(who)]))
  {
    ReachableInv(remote, s);
  }

  /**
   * When the op's goroutine has ended the query is resolved: for an op that never answered, by
   * an internal error, unless another goroutine or the caller was faster. If the op panicked
   * after accepting on that goroutine, the read half is closed, and the remote writer too.
   */
  lemma EndedResolves(remote: bool, s: State)
    requires Reachable(remote, s) && s.op == Ended
    ensures s.resolved && |s.wins| == 1
    ensures s.silent && s.wins[0].who == OpRoutine ==> s.wins[0].response == Refusal(INTERNAL_ERROR)
    ensures s.panicked && OpAccepted(s) ==> s.wins[0].response.pipe in s.readClosed && (remote ==> s.remoteClosed)
  {
    ReachableInv(remote, s);
  }

  /** While the caller waits on a resolved query, the winner or the caller itself has a step to take. */
  lemma ResolvedReachesCaller(remote: bool, s: State)
    requires Reachable(remote, s) && s.resolved && s.await == Waiting
    ensures |s.wins| == 1
    ensures var who := s.wins[0].who;
            || Next(remote, s, Store(who)).Some? || Next(remote, s, Send(who)).Some?
            || Next(remote, s, Receive) == Some(s.(slot := [], await := Received(s.wins[0].response)))
  {
    ReachableInv(remote, s);
    assert s.slot != [] ==> s.slot[1..] == [];
  }

  // ---------------------------------------------------------------- exactly when it promises more

  lemma ReachableOutcome(remote: bool, s: State)
    requires Reachable(remote, s)
    ensures Outcome(remote, s)
  {
    var acts :| Run(remote, INIT, acts) == Some(s);
    RunOutcome(remote, acts);
  }

  lemma {:induction false} RunConcat(remote: bool, s: State, a: seq<Action>, b: seq<Action>)
    requires Run(remote, s, a).Some?
    ensures Run(remote, s, a + b) == Run(remote, Run(remote, s, a).value, b)
    decreases |b|
  {
    if b == [] {
      assert a + b == a;
    } else {
      assert (a + b)[..|a + b| - 1] == a + b[..|b| - 1];
      RunConcat(remote, s, a, b[..|b| - 1]);
    }
  }

  lemma ReachRun(remote: bool, s: State, acts: seq<Action>)
    requires Reachable(remote, s) && Run(remote, s, acts).Some?
    ensures Reachable(remote, Run(remote, s, acts).value)
  {
    var before :| Run(remote, INIT, before) == Some(s);
    RunConcat(remote, INIT, before, acts);
    assert Run(remote, INIT, before + acts) == Run(remote, s, acts);
  }

  /** From a resolved state on the winner stays. */
  lemma {:induction false} WinnerStays(remote: bool, s: State, acts: seq<Action>)
    requires Reachable(remote, s) && s.resolved && Run(remote, s, acts).Some?
    ensures var t := Run(remote, s, acts).value; t.resolved && t.wins == s.wins
    decreases |acts|
  {
    if acts != [] {
      var init := acts[..|acts| - 1];
      WinnerStays(remote, s, init);
      ReachRun(remote, s, init);
      OneWinner(remote, Run(remote, s, init).value, acts[|acts| - 1]);
    }
  }

  lemma ReachNext(remote: bool, s: State, a: Action)
    requires Reachable(remote, s) && Next(remote, s, a).Some?
    ensures Run(remote, s, [a]) == Next(remote, s, a) && Reachable(remote, Next(remote, s, a).value)
  {
    assert [a][..0] == [];
    ReachRun(remote, s, [a]);
  }

  /**
   * What the caller receives is what the winner said: the code of a winning reject, 1 for no
   * code, and the pipe of a winning accept, whatever happens in between.
   */
  lemma WinnerReachesCaller(remote: bool, s: State, a: Action, acts: seq<Action>, t: State)
    requires Reachable(remote, s) && !s.resolved && (a.Accept? || a.Reject?) && Next(remote, s, a).Some?
    requires Run(remote, Next(remote, s, a).value, acts) == Some(t) && t.await.Received?
    ensures a.Reject? ==> t.await.response == Refusal(if a.code == 0 then 1 else a.code)
    ensures a.Accept? ==> t.await.response == Writer(s.pipes)
  {
    ReachableInv(remote, s);
    var u := Next(remote, s, a).value;
    ReachNext(remote, s, a);
    ReachRun(remote, u, acts);
    ReachableInv(remote, t);
    WinnerStays(remote, u, acts);
  }

  /** A call that comes after the winner changes nothing; an accept gets an error connection. */
  lemma LoserChangesNothing(remote: bool, s: State, who: Who, code: nat)
    requires Reachable(remote, s) && s.resolved && Free(s, who)
    ensures Next(remote, s, Reject(who, code)) == Some(s)
    ensures Next(remote, s, Accept(who)) == Some(s.(conns := s.conns + [Dead(who)]))
  {
  }

  /** A caller that gave up stays on its way out, for the reason it had. */
  predicate Leaves(canceled: bool, w: AwaitState) {
    w == GivingUp(canceled) || w == Refusing(canceled) || w == Refused(if canceled then 3 else 6)
  }

  lemma {:induction false} GivesUpFor(remote: bool, s: State, canceled: bool, acts: seq<Action>)
    requires Next(remote, s, GiveUp(canceled)).Some?
    requires Run(remote, Next(remote, s, GiveUp(canceled)).value, acts).Some?
    ensures Leaves(canceled, Run(remote, Next(remote, s, GiveUp(canceled)).value, acts).value.await)
    decreases |acts|
  {
    if acts != [] {
      var u := Next(remote, s, GiveUp(canceled)).value;
      GivesUpFor(remote, s, canceled, acts[..|acts| - 1]);
      LeavesOn(remote, Run(remote, u, acts[..|acts| - 1]).value, acts[|acts| - 1], canceled);
    }
  }

  lemma LeavesOn(remote: bool, s: State, a: Action, canceled: bool)
    requires Leaves(canceled, s.await) && Next(remote, s, a).Some?
    ensures Leaves(canceled, Next(remote, s, a).value.await)
  {
  }

  lemma LookedOnce(remote: bool, s: State, a: Action)
    requires Looked(s.op) && Next(remote, s, a).Some?
    ensures Looked(Next(remote, s, a).value.op) && Next(remote, s, a).value.taken == s.taken
  {
  }

  lemma {:induction false} TakenStays(remote: bool, s: State, acts: seq<Action>)
    requires Run(remote, s, acts).Some? && Looked(s.op)
    ensures Looked(Run(remote, s, acts).value.op) && Run(remote, s, acts).value.taken == s.taken
    decreases |acts|
  {
    if acts != [] {
      var init := acts[..|acts| - 1];
      TakenStays(remote, s, init);
      LookedOnce(remote, Run(remote, s, init).value, acts[|acts| - 1]);
    }
  }

  /**
   * Teardown, exactly: whatever happens after `abandon` looked under the lock, once the op's
   * goroutine has ended both halves are closed if it found a read half, and nothing is if it
   * found none. At the end, the pipe of a winning accept is closed exactly when that accept
   * had stored its half and the field is empty again.
   */
  lemma TeardownExact(remote: bool, s: State, acts: seq<Action>, t: State)
    requires Reachable(remote, s) && s.op == Abandoning && OpRoutine !in s.busy
    requires Run(remote, s, [TakeAccepted]).Some? && Run(remote, Run(remote, s, [TakeAccepted]).value, acts) == Some(t)
    requires t.op == Ended
    ensures s.accepted.Some? <==> t.readClosed != {}
    ensures s.accepted.Some? ==> t.readClosed == {s.accepted.value} && AcceptWon(t) && t.wins[0].response.pipe == s.accepted.value
    ensures t.remoteClosed <==> remote && s.accepted.Some?
    ensures AcceptWon(t) ==>
              (t.wins[0].response.pipe in t.readClosed <==> Stored(t) && t.accepted.None?)
  {
    ReachableOutcome(remote, s);
    var u := Run(remote, s, [TakeAccepted]).value;
    ReachTaken(remote, s, u);
    ReachRun(remote, u, acts);
    ReachableOutcome(remote, t);
    TakenStays(remote, u, acts);
  }

  lemma ReachTaken(remote: bool, s: State, u: State)
    requires Reachable(remote, s) && s.op == Abandoning && Run(remote, s, [TakeAccepted]) == Some(u)
    ensures Reachable(remote, u) && u.taken == s.accepted && Looked(u.op)
  {
    ReachRun(remote, s, [TakeAccepted]);
    assert [TakeAccepted][..0] == [];
  }

  /**
   * The refused caller, exactly: once the caller gave up and all calls have returned, someone
   * holds a live connection if and only if an accept had won before the caller's own reject.
   */
  lemma MismatchExact(remote: bool, s: State, acts: seq<Action>, t: State)
    requires Reachable(remote, s) && s.await.GivingUp?
    requires Run(remote, s, [AwaitReject]).Some? && Run(remote, Run(remote, s, [AwaitReject]).value, acts) == Some(t)
    requires t.await.Refused? && t.busy == map[]
    ensures (exists i :: 0 <= i < |t.conns| && t.conns[i].Live?) <==> AcceptWon(s)
  {
    ReachableOutcome(remote, s);
    var u := Run(remote, s, [AwaitReject]).value;
    ReachRejected(remote, s, u);
    ReachRun(remote, u, acts);
    ReachableOutcome(remote, t);
    WinnerStays(remote, u, acts);
    if AcceptWon(s) {
      assert Live(t.wins[0].who, t.wins[0].response.pipe) in t.conns;
    }
  }

  lemma ReachRejected(remote: bool, s: State, u: State)
    requires Reachable(remote, s) && s.await.GivingUp? && Run(remote, s, [AwaitReject]) == Some(u)
    ensures Reachable(remote, u) && u.resolved && |u.wins| == 1
    ensures AcceptWon(u) <==> AcceptWon(s)
  {
    ReachRun(remote, s, [AwaitReject]);
    ReachableOutcome(remote, s);
    assert [AwaitReject][..0] == [];
  }

  // ---------------------------------------------------------------- what it does not promise

  lemma Reach(s: State, a: Action) returns (t: State)
    requires Reachable(true, s) && Next(true, s, a).Some?
    ensures Reachable(true, t) && Next(true, s, a) == Some(t)
  {
    t := Next(true, s, a).value;
    var acts :| Run(true, INIT, acts) == Some(s);
    var more := acts + [a];
    assert more[..|more| - 1] == acts;
    assert Run(true, INIT, more) == Some(t);
  }

  /** A helper has won and not stored its read half; the op has panicked and found nothing to close. */
  const SLIPPED := INIT.(resolved := true, pipes := 1, busy := map[Helper(0) := Storing(0)],
                         wins := [Win(Helper(0), Writer(0))], op := Leaving, panicked := true)

  lemma Slips()
    ensures Reachable(true, SLIPPED)
  {
    HelperWins();
    var s := Reach(SLIPPED.(op := Running, panicked := false), OpReturn(true));
    assert s == SLIPPED.(op := Panicked);
    s := Reach(s, PanicReject);
    assert s == SLIPPED.(op := Abandoning);
    s := Reach(s, TakeAccepted);
  }

  lemma HelperWins()
    ensures Reachable(true, SLIPPED.(op := Running, panicked := false))
  {
    assert Run(true, INIT, []) == Some(INIT);
    var s := Reach(INIT, Accept(Helper(0)));
    assert s == SLIPPED.(op := Running, panicked := false);
  }

  const LEAKED := SLIPPED.(accepted := Some(0), busy := map[], slot := [Writer(0)], conns := [Live(Helper(0), 0)])

  lemma SlipsThrough()
    ensures Reachable(true, LEAKED)
  {
    Slips();
    var t := Reach(SLIPPED, Store(Helper(0)));
    assert t == SLIPPED.(accepted := Some(0), busy := map[Helper(0) := Sending(Writer(0))]);
    t := Reach(t, Send(Helper(0)));
    assert t.busy == map[] && t.slot == [Writer(0)] && t.conns == [Live(Helper(0), 0)];
    assert t == LEAKED;
  }

  lemma LeavesLeaked()
    ensures Reachable(true, LEAKED.(op := Left))
  {
    SlipsThrough();
    var t := Reach(LEAKED, DeferredReject);
  }

  /** An accept on a spawned goroutine can slip past the teardown of a panicking op. */
  lemma HelperCanLeak() returns (s: State)
    ensures Reachable(true, s) && s.op == Ended && s.panicked && s.conns == [Live(Helper(0), 0)]
    ensures s.readClosed == {} && !s.remoteClosed
  {
    LeavesLeaked();
    s := Reach(LEAKED.(op := Left), OpEnd);
  }

  /** The op has won and not sent yet; the caller's timer fired before that, and it was refused. */
  const LATE := INIT.(resolved := true, pipes := 1, busy := map[OpRoutine := Storing(0)],
                      wins := [Win(OpRoutine, Writer(0))], await := Refused(TIMEOUT))

  lemma Late()
    ensures Reachable(true, LATE)
  {
    OpWinsLate();
    var s := Reach(LATE.(await := GivingUp(false)), AwaitReject);
    assert s == LATE.(await := Refusing(false));
    s := Reach(s, AwaitReturn);
  }

  lemma OpWinsLate()
    ensures Reachable(true, LATE.(await := GivingUp(false)))
  {
    assert Run(true, INIT, []) == Some(INIT);
    var s := Reach(INIT, GiveUp(false));
    assert s == INIT.(await := GivingUp(false));
    s := Reach(s, Accept(OpRoutine));
    assert s == LATE.(await := GivingUp(false));
  }

  /** An op can hold a connection whose caller was already refused: the timer fired first. */
  lemma RefusedYetAccepted() returns (s: State)
    ensures Reachable(true, s) && s.await == Refused(TIMEOUT) && s.conns == [Live(OpRoutine, 0)]
  {
    Late();
    s := Reach(LATE, Store(OpRoutine));
    s := Reach(s, Send(OpRoutine));
  }
}
