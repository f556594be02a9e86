/**
 * The app registrar: one goroutine dials the node, attaches every handler to the new bind
 * channel, runs the hooks, announces readiness, serves registrations until the channel
 * breaks, and starts over. The node's answers, the timer and the context are the
 * environment's choices.
 */
module Registrar {
  import opened Wrappers

  type Handler = nat

  // ---------------------------------------------------------------- the registrar's own fields

  function Doubled(delay: nat, max: nat): nat { if delay * 2 < max then delay * 2 else max }

  class AppRegistrar {
    var handlers: seq<Handler>
    var delay: nat
    const minBackoff: nat
    const maxBackoff: nat

    ghost predicate Valid()
      reads this
    {
      minBackoff <= delay <= maxBackoff
    }

    constructor (minBackoff: nat, maxBackoff: nat)
      requires minBackoff <= maxBackoff
      ensures Valid() && handlers == [] && delay == minBackoff
      ensures this.minBackoff == minBackoff && this.maxBackoff == maxBackoff
    {
      this.handlers, this.delay, this.minBackoff, this.maxBackoff := [], minBackoff, minBackoff, maxBackoff;
    }

    /** Waits out the current delay and doubles it; `fires` says whether the timer beat the context. */
    method Backoff(fires: bool) returns (waited: nat, ok: bool)
      requires Valid()
      modifies this`delay
      ensures Valid() && delay == Doubled(old(delay), maxBackoff)
      ensures waited == old(delay) && minBackoff <= waited <= maxBackoff && ok == fires
    {
      waited := delay;
      delay := if delay * 2 < maxBackoff then delay * 2 else maxBackoff;
      ok := fires;
    }

    /** `accepts(i)` is the node's answer to the i-th attach, `hooks` the hooks' outcomes. */
    method AttachAll(accepts: nat -> bool, hooks: seq<bool>) returns (attached: seq<Handler>, ok: bool)
      ensures attached <= handlers
      ensures ok ==> attached == handlers
      ensures ok <==> (forall i: nat :: i < |handlers| ==> accepts(i)) && (handlers == [] || false !in hooks)
    {
      attached := [];
      if |handlers| == 0 {
        return attached, true;
      }
      for i := 0 to |handlers|
        invariant attached == handlers[..i] && forall k: nat :: k < i ==> accepts(k)
      {
        if !accepts(i) {
          return attached, false;
        }
        attached := attached + [handlers[i]];
      }
      ok := RunHooks(hooks);
    }

    /** A handler is kept only if the node took it and every hook agreed. */
    method AttachRegistered(h: Handler, accepts: bool, hooks: seq<bool>) returns (ok: bool)
      modifies this`handlers
      ensures ok <==> accepts && false !in hooks
      ensures handlers == if ok then old(handlers) + [h] else old(handlers)
    {
      if !accepts {
        return false;
      }
      handlers := handlers + [h];
      ok := RunHooks(hooks);
      if !ok {
        handlers := handlers[..|handlers| - 1];
      }
    }
  }

  method RunHooks(hooks: seq<bool>) returns (ok: bool)
    ensures ok <==> false !in hooks
  {
    for i := 0 to |hooks|
      invariant false !in hooks[..i]
    {
      if !hooks[i] {
        return false;
      }
    }
    assert hooks[..|hooks|] == hooks;
    return true;
  }

  // ---------------------------------------------------------------- steps of the run loop

  datatype Place =
    | Dialing
    | Attaching(i: nat)            // the first i handlers are attached
    | Hooks(j: nat)                // the first j hooks have passed
    | Announcing
    | Connected
    | AttachingNew(h: Handler)
    | HooksNew(h: Handler, j: nat) // h is attached and listed, its hooks still run
    | Leaving(reconnect: bool)
    | WaitingOut
    | Stopped

  /** One announcement: the channel closed, what was attached to the bind channel, what was acknowledged. */
  datatype Announcement = Announcement(ready: nat, attached: seq<Handler>, acked: seq<Handler>)

  datatype State = State(
    place: Place,
    done: bool,                    // the context has ended
    handlers: seq<Handler>,
    delay: nat,
    ready: nat,                    // the current ready channel
    attached: seq<Handler>,        // what was attached to the current bind channel, in order
    acked: seq<Handler>,           // handlers whose registration was answered with nil, in order
    waits: seq<nat>,               // the delays waited
    announced: seq<Announcement>)

  /** Outcomes that the environment chooses. */
  datatype Action =
    | Dial(ok: bool)
    | Attach(ok: bool)
    | Hook(ok: bool)
    | Announce
    | Receive(h: Handler)
    | Disconnect
    | Cancel
    | Stop
    | Leave
    | Timer(fires: bool)

  datatype Config = Config(hooks: nat, minBackoff: nat, maxBackoff: nat)

  function Init(c: Config): State { State(Dialing, false, [], c.minBackoff, 0, [], [], [], []) }

  /** A failed dial or re-attachment: stop if the context ended, else wait and double the delay. */
  function Retry(c: Config, s: State): State {
    if s.done then s.(place := Stopped)
    else s.(place := WaitingOut, waits := s.waits + [s.delay], delay := Doubled(s.delay, c.maxBackoff))
  }

  /** After the handlers, the hooks; a registrar without handlers runs none. */
  function Settle(c: Config, s: State): State {
    if s.place == Attaching(|s.handlers|) then s.(place := if s.handlers == [] || c.hooks == 0 then Announcing else Hooks(0))
    else if s.place.Hooks? && s.place.j >= c.hooks then s.(place := Announcing)
    else if s.place.HooksNew? && s.place.j >= c.hooks then s.(place := Connected, acked := s.acked + [s.place.h])
    else s
  }

  function Next(c: Config, s: State, a: Action): Option<State> {
    match a
    case Dial(ok) =>
      if s.place != Dialing then None
      else if ok then Some(Settle(c, s.(place := Attaching(0), attached := [])))
      else Some(Retry(c, s))
    case Attach(ok) =>
      if s.place.Attaching? && s.place.i < |s.handlers| then
        if !ok then Some(Retry(c, s))
        else Some(Settle(c, s.(place := Attaching(s.place.i + 1), attached := s.attached + [s.handlers[s.place.i]])))
      else if s.place.AttachingNew? then
        var h := s.place.h;
        if !ok then Some(s.(place := Leaving(false)))
        else Some(Settle(c, s.(place := HooksNew(h, 0), attached := s.attached + [h], handlers := s.handlers + [h])))
      else None
    case Hook(ok) =>
      if s.place.Hooks? then
        Some(if ok then Settle(c, s.(place := Hooks(s.place.j + 1))) else Retry(c, s))
      else if s.place.HooksNew? then
        if ok then Some(Settle(c, s.(place := HooksNew(s.place.h, s.place.j + 1))))
        else Some(s.(place := Leaving(false), handlers := if s.handlers == [] then [] else s.handlers[..|s.handlers| - 1]))
      else None
    case Announce =>
      if s.place != Announcing then None
      else Some(s.(place := Connected, delay := c.minBackoff,
                   announced := s.announced + [Announcement(s.ready, s.attached, s.acked)]))
    case Receive(h) => if s.place == Connected then Some(s.(place := AttachingNew(h))) else None
    case Disconnect => if s.place == Connected then Some(s.(place := Leaving(true))) else None
    case Cancel => Some(s.(done := true))
    case Stop => if s.place == Connected && s.done then Some(s.(place := Leaving(false))) else None
    case Leave =>
      if !s.place.Leaving? then None
      else if s.place.reconnect then Some(s.(place := Dialing, ready := s.ready + 1))
      else Some(s.(place := Stopped))
    case Timer(fires) =>
      if s.place != WaitingOut || (!fires && !s.done) then None
      else Some(s.(place := if fires then Dialing else Stopped))
  }

  function Run(c: Config, s: State, acts: seq<Action>): Option<State> {
    if acts == [] then Some(s)
    else
      match Run(c, s, acts[..|acts| - 1])
      case None => None
      case Some(t) => Next(c, t, acts[|acts| - 1])
  }

  // ---------------------------------------------------------------- what every step keeps

  /** Before the announcement the current ready channel is still open; after it, closed. */
  predicate Opening(s: State) {
    s.place == Dialing || s.place.Attaching? || s.place.Hooks? || s.place == Announcing || s.place == WaitingOut
  }

  /** What the current bind channel carries, against the list. */
  predicate Attached(c: Config, s: State) {
    match s.place
    case Attaching(i) => i < |s.handlers| && s.attached == s.handlers[..i]
    case Hooks(j) => j < c.hooks && s.attached == s.handlers
    case HooksNew(h, j) => j < c.hooks && s.attached == s.handlers
    case Announcing => s.attached == s.handlers
    case Connected => s.attached == s.handlers
    case AttachingNew(_) => s.attached == s.handlers
    case _ => true
  }

  /** The list holds what was acknowledged, and while its hooks run, one handler more. */
  predicate Listed(s: State) {
    s.handlers == if s.place.HooksNew? then s.acked + [s.place.h] else s.acked
  }

  predicate Announced(s: State) {
    && (forall i :: 0 <= i < |s.announced| ==> Proper(s.announced[i], s.acked, Bound(s)))
    && (forall i, j :: 0 <= i < j < |s.announced| ==>
          s.announced[i].ready < s.announced[j].ready && s.announced[i].acked <= s.announced[j].acked)
  }

  /** Ready channels below this one may have been closed. */
  function Bound(s: State): nat { if Opening(s) then s.ready else s.ready + 1 }

  lemma AnnouncedStay(s: State, t: State)
    requires Announced(s) && t.announced == s.announced && s.acked <= t.acked && Bound(s) <= Bound(t)
    ensures Announced(t)
  {
  }

  predicate Proper(m: Announcement, acked: seq<Handler>, bound: nat) {
    m.attached == m.acked && m.acked <= acked && m.ready < bound
  }

  predicate Delays(c: Config, s: State) {
    && c.minBackoff <= s.delay <= c.maxBackoff
    && (forall i :: 0 <= i < |s.waits| ==> c.minBackoff <= s.waits[i] <= c.maxBackoff)
    && (forall i :: 0 < i < |s.waits| ==> s.waits[i] == c.minBackoff || s.waits[i] == Doubled(s.waits[i - 1], c.maxBackoff))
    && (s.delay == c.minBackoff || (s.waits != [] && s.delay == Doubled(s.waits[|s.waits| - 1], c.maxBackoff)))
  }

  lemma RetryDelays(c: Config, s: State)
    requires Delays(c, s)
    ensures Delays(c, Retry(c, s))
  {
  }

  lemma DelaysStay(c: Config, s: State, t: State)
    requires Delays(c, s) && t.delay == s.delay && t.waits == s.waits
    ensures Delays(c, t)
  {
  }

  predicate Inv(c: Config, s: State) { Attached(c, s) && Listed(s) && Announced(s) && Delays(c, s) }

  lemma DialKeeps(c: Config, s: State, a: Action)
    requires Inv(c, s) && (a.Dial? || a.Timer?) && Next(c, s, a).Some?
    ensures Inv(c, Next(c, s, a).value)
  {
    AnnouncedStay(s, Next(c, s, a).value);
    if a == Dial(false) {
      RetryDelays(c, s);
    } else {
      DelaysStay(c, s, Next(c, s, a).value);
    }
  }

  lemma ServeKeeps(c: Config, s: State, a: Action)
    requires Inv(c, s) && (a.Leave? || a.Disconnect? || a.Cancel? || a.Stop? || a.Receive?) && Next(c, s, a).Some?
    ensures Inv(c, Next(c, s, a).value)
  {
    AnnouncedStay(s, Next(c, s, a).value);
    DelaysStay(c, s, Next(c, s, a).value);
  }

  lemma AttachOldKeeps(c: Config, s: State, ok: bool)
    requires Inv(c, s) && s.place.Attaching? && Next(c, s, Attach(ok)).Some?
    ensures Inv(c, Next(c, s, Attach(ok)).value)
  {
    AnnouncedStay(s, Next(c, s, Attach(ok)).value);
    if !ok {
      RetryDelays(c, s);
    } else {
      DelaysStay(c, s, Next(c, s, Attach(ok)).value);
      var i := s.place.i;
      assert s.handlers[..i + 1] == s.handlers[..i] + [s.handlers[i]];
      assert s.handlers[..|s.handlers|] == s.handlers;
    }
  }

  lemma AttachNewKeeps(c: Config, s: State, ok: bool)
    requires Inv(c, s) && s.place.AttachingNew? && Next(c, s, Attach(ok)).Some?
    ensures Inv(c, Next(c, s, Attach(ok)).value)
  {
    AnnouncedStay(s, Next(c, s, Attach(ok)).value);
    DelaysStay(c, s, Next(c, s, Attach(ok)).value);
  }

  lemma HookKeeps(c: Config, s: State, ok: bool)
    requires Inv(c, s) && Next(c, s, Hook(ok)).Some?
    ensures Inv(c, Next(c, s, Hook(ok)).value)
  {
    AnnouncedStay(s, Next(c, s, Hook(ok)).value);
    if s.place.Hooks? && !ok {
      RetryDelays(c, s);
    } else {
      DelaysStay(c, s, Next(c, s, Hook(ok)).value);
    }
    if s.place.HooksNew? {
      assert s.handlers[..|s.handlers| - 1] == s.acked;
    }
  }

  lemma AnnounceKeeps(c: Config, s: State)
    requires Inv(c, s) && s.place == Announcing
    ensures Inv(c, Next(c, s, Announce).value)
  {
  }

  lemma {:induction false} RunKeeps(c: Config, acts: seq<Action>)
    requires c.minBackoff <= c.maxBackoff
    ensures Run(c, Init(c), acts).Some? ==> Inv(c, Run(c, Init(c), acts).value)
    decreases |acts|
  {
    if acts != [] && Run(c, Init(c), acts).Some? {
      var a := acts[|acts| - 1];
      RunKeeps(c, acts[..|acts| - 1]);
      var s := Run(c, Init(c), acts[..|acts| - 1]).value;
      match a
      case Attach(ok) =>
        if s.place.Attaching? {
          AttachOldKeeps(c, s, ok);
        } else {
          AttachNewKeeps(c, s, ok);
        }
      case Hook(ok) => HookKeeps(c, s, ok);
      case Announce => AnnounceKeeps(c, s);
      case Dial(_) => DialKeeps(c, s, a);
      case Timer(_) => DialKeeps(c, s, a);
      case _ => ServeKeeps(c, s, a);
    }
  }

  // ---------------------------------------------------------------- the main results

  ghost predicate Reachable(c: Config, s: State) { exists acts :: Run(c, Init(c), acts) == Some(s) }

  lemma ReachableInv(c: Config, s: State)
    requires c.minBackoff <= c.maxBackoff && Reachable(c, s)
    ensures Inv(c, s)
  {
    var acts :| Run(c, Init(c), acts) == Some(s);
    RunKeeps(c, acts);
  }

  /** No ready channel is closed twice, and the one about to be closed is open. */
  lemma ReadyClosedOnce(c: Config, s: State)
    requires c.minBackoff <= c.maxBackoff && Reachable(c, s)
    ensures forall i, j :: 0 <= i < j < |s.announced| ==> s.announced[i].ready != s.announced[j].ready
    ensures s.place == Announcing ==> forall i :: 0 <= i < |s.announced| ==> s.announced[i].ready != s.ready
  {
    ReachableInv(c, s);
  }

  /**
   * Every announcement of a run came with exactly the handlers acknowledged by then attached,
   * in order, to the bind channel of that moment; what one announcement had, every later one had.
   */
  lemma ReadyMeansAttached(c: Config, s: State)
    requires c.minBackoff <= c.maxBackoff && Reachable(c, s)
    ensures forall i :: 0 <= i < |s.announced| ==> s.announced[i].attached == s.announced[i].acked <= s.acked
    ensures forall i, j :: 0 <= i < j < |s.announced| ==> s.announced[i].acked <= s.announced[j].attached
    ensures s.place == Announcing || s.place == Connected ==> s.attached == s.handlers == s.acked
  {
    ReachableInv(c, s);
    forall i, j | 0 <= i < j < |s.announced|
      ensures s.announced[i].acked <= s.announced[j].attached
    {
      assert s.announced[j].attached == s.announced[j].acked;
    }
  }

  /** An acknowledged handler is never forgotten. */
  lemma AckedStay(c: Config, s: State, a: Action)
    requires c.minBackoff <= c.maxBackoff && Reachable(c, s) && Next(c, s, a).Some?
    ensures var t := Next(c, s, a).value; s.acked <= t.acked <= t.handlers
  {
    AcksGrow(c, s, a);
    ReachNext(c, s, a);
    ReachableInv(c, Next(c, s, a).value);
    assert Listed(Next(c, s, a).value);
  }

  lemma AcksGrow(c: Config, s: State, a: Action)
    requires Next(c, s, a).Some?
    ensures s.acked <= Next(c, s, a).value.acked
  {
  }

  lemma ReachNext(c: Config, s: State, a: Action)
    requires Reachable(c, s) && Next(c, s, a).Some?
    ensures Reachable(c, Next(c, s, a).value)
  {
    var acts :| Run(c, Init(c), acts) == Some(s);
    var more := acts + [a];
    assert more[..|acts|] == acts;
    assert Run(c, Init(c), more) == Next(c, s, a);
  }

  /** Every wait lies within the two bounds and doubles the one before it, unless an announcement reset it. */
  lemma DelayBounded(c: Config, s: State)
    requires c.minBackoff <= c.maxBackoff && Reachable(c, s)
    ensures c.minBackoff <= s.delay <= c.maxBackoff
    ensures forall i :: 0 <= i < |s.waits| ==> c.minBackoff <= s.waits[i] <= c.maxBackoff
    ensures forall i :: 0 < i < |s.waits| ==>
              s.waits[i] == c.minBackoff || s.waits[i] == if 2 * s.waits[i - 1] < c.maxBackoff then 2 * s.waits[i - 1] else c.maxBackoff
    ensures s.place == Announcing ==> Next(c, s, Announce).Some? && Next(c, s, Announce).value.delay == c.minBackoff
  {
    ReachableInv(c, s);
  }

  /**
   * A handler is acknowledged only when the node took it and the last hook agreed, and
   * readiness follows only a step that succeeded.
   */
  lemma NothingSkipped(c: Config, s: State, a: Action)
    requires c.minBackoff <= c.maxBackoff && Reachable(c, s) && Next(c, s, a).Some?
    ensures var t := Next(c, s, a).value;
            t.acked != s.acked ==>
              || (a == Hook(true) && s.place.HooksNew? && s.place.j == c.hooks - 1 && t.acked == s.acked + [s.place.h])
              || (a == Attach(true) && s.place.AttachingNew? && c.hooks == 0 && t.acked == s.acked + [s.place.h])
    ensures var t := Next(c, s, a).value;
            t.place == Announcing && s.place != Announcing ==>
              || (a == Hook(true) && s.place.Hooks? && s.place.j == c.hooks - 1)
              || (a == Attach(true) && c.hooks == 0 && s.place.Attaching? && s.place.i == |s.handlers| - 1)
              || (a == Dial(true) && s.handlers == [])
  {
    ReachableInv(c, s);
  }

  /** Any failure leaves the connection: to wait and dial again, or for good; and a handler that failed is not kept. */
  lemma FailureLeaves(c: Config, s: State, a: Action)
    requires c.minBackoff <= c.maxBackoff && Reachable(c, s) && Next(c, s, a).Some?
    requires a in {Dial(false), Attach(false), Hook(false)}
    ensures var t := Next(c, s, a).value;
            && (t.place == WaitingOut || t.place == Stopped || t.place == Leaving(false))
            && t.handlers == s.acked && t.acked == s.acked && t.announced == s.announced
            && (t.place == WaitingOut ==> t.waits == s.waits + [s.delay])
  {
    ReachableInv(c, s);
    if s.place.HooksNew? {
      assert s.handlers[..|s.handlers| - 1] == s.acked;
    }
  }

  /** The loop ends only with its context, or after a registration that failed. */
  lemma StopsOnlyWhen(c: Config, s: State, a: Action)
    requires Next(c, s, a).Some? && !s.place.Stopped? && !s.place.Leaving?
    ensures var t := Next(c, s, a).value;
            t.place.Stopped? || t.place == Leaving(false) ==>
              s.done || (a in {Attach(false), Hook(false)} && (s.place.AttachingNew? || s.place.HooksNew?))
  {
  }
}
