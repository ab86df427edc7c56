/** The receiving side's command loop: the same request is sent again after a
    lost request or a lost response until it is answered, fails for good, or
    the recovery window closes (`SecureOfferClient` in secure_transfer.rs). */
module Client {
  import opened Common
  import opened ServerModel
  import opened ServerHistory
  import opened ServerInvariant
  import opened Server
  import opened Service

  datatype Result<+T> = Ok(value: T) | Err(error: Failure)

  datatype Failure =
    | Interrupted | TimedOut | NotRecoverable | Unfinished
    | RefusedBy(why: Refusal) | Mismatch | ReadFault

  /** What the network and the server make of one sending of a request. The
      request may be lost, it may break for good, or it may be processed with
      its response delivered or lost. */
  datatype Fate = Lost | Broken | Reached(script: seq<Piece>, delivered: bool)

  /** One pass of the recovery loop: how long the suspension gate held it, when
      the cancel signal was seen, how long the exchange took, how far into the
      back-off a cancel signal comes if one does, and by how much the sleep runs
      over. */
  datatype Attempt = Attempt(
    gate: nat, cancelledAtGate: bool, cancelled: bool, spent: nat, fate: Fate, cancelledAsleep: Option<nat>, overslept: nat)

  datatype Policy = Policy(maxElapsed: nat, initialBackoff: nat, maxBackoff: nat)

  const MIN_BACKOFF: nat := 10

  function Max(a: nat, b: nat): nat {
    if a <= b then b else a
  }

  /** `with_recovery_policy` never lets the cap fall below the first delay. */
  function Normalised(p: Policy): Policy {
    if p.maxElapsed == 0 then p
    else
      var initial := Max(p.initialBackoff, MIN_BACKOFF);
      p.(initialBackoff := initial, maxBackoff := Max(p.maxBackoff, initial))
  }

  function Doubled(initial: nat, k: nat): nat {
    if k == 0 then initial else 2 * Doubled(initial, k - 1)
  }

  /** The k-th delay: doubling from the first one, up to the cap. */
  function Backoff(p: Policy, k: nat): nat {
    Min(Doubled(p.initialBackoff, k), p.maxBackoff)
  }

  // ------------------------------------------------------- time, pass by pass

  /** How long the gate holds the k-th pass: the first one does not wait there. */
  function GateHold(a: Attempt, k: nat): nat {
    if k == 0 then 0 else a.gate
  }

  /** By how much that moves the deadline: a cancelled wait does not. */
  function Extension(a: Attempt, k: nat): nat {
    if a.cancelledAtGate then 0 else GateHold(a, k)
  }

  predicate Stopped(a: Attempt, k: nat) {
    (k > 0 && a.cancelledAtGate) || a.cancelled
  }

  function GateTime(passes: seq<Attempt>): nat {
    if passes == [] then 0
    else GateTime(passes[..|passes| - 1]) + Extension(passes[|passes| - 1], |passes| - 1)
  }

  /** The start, the recovery window, and the time spent at the gate. */
  function Deadline(p: Policy, start: nat, passes: seq<Attempt>): nat {
    start + p.maxElapsed + GateTime(passes)
  }

  /** When the k-th exchange is over, if its pass began at `now`. */
  function Asked(now: nat, a: Attempt, k: nat): nat {
    now + GateHold(a, k) + a.spent
  }

  /** When a sleep begun at `now` should end. */
  function WakeAt(now: nat, delay: nat, deadline: nat): nat {
    Min(now + delay, deadline)
  }

  /** The clock after passes that all failed and slept out their back-off. */
  function Elapsed(p: Policy, start: nat, passes: seq<Attempt>): nat {
    if passes == [] then start
    else
      var k := |passes| - 1;
      var asked := Asked(Elapsed(p, start, passes[..k]), passes[k], k);
      WakeAt(asked, Backoff(p, k), Deadline(p, start, passes)) + passes[k].overslept
  }

  /** The same passes without their waits at the gate. */
  function Ungated(passes: seq<Attempt>): (r: seq<Attempt>)
    ensures |r| == |passes| && forall i | 0 <= i < |r| :: r[i] == passes[i].(gate := 0)
  {
    seq(|passes|, (i: nat) requires i < |passes| => passes[i].(gate := 0))
  }

  lemma UngatedInit(passes: seq<Attempt>)
    requires passes != []
    ensures var k := |passes| - 1; Ungated(passes)[..k] == Ungated(passes[..k]) && Ungated(passes)[k] == passes[k].(gate := 0)
  {
  }

  lemma {:induction false} UngatedTime(passes: seq<Attempt>)
    ensures GateTime(Ungated(passes)) == 0
  {
    if passes != [] {
      UngatedInit(passes);
      UngatedTime(passes[..|passes| - 1]);
    }
  }

  /** Time spent at the gate uses up nothing of the recovery window: without it
      the clock and the deadline are earlier by just as much. */
  lemma {:induction false} GateIsFree(p: Policy, start: nat, passes: seq<Attempt>)
    requires forall i | 0 <= i < |passes| :: !passes[i].cancelledAtGate
    ensures Elapsed(p, start, passes) == Elapsed(p, start, Ungated(passes)) + GateTime(passes)
    ensures Deadline(p, start, passes) == Deadline(p, start, Ungated(passes)) + GateTime(passes)
    ensures InTime(p, start, passes) <==> InTime(p, start, Ungated(passes))
  {
    hide Backoff;
    UngatedTime(passes);
    if passes != [] {
      UngatedInit(passes);
      GateIsFree(p, start, passes[..|passes| - 1]);
    }
  }

  /** How a sleep begun at `asked` went on. */
  predicate Slept(asked: nat, delay: nat, deadline: nat, a: Attempt, stop: Option<Failure>, now: nat) {
    var wake := WakeAt(asked, delay, deadline);
    if a.cancelledAsleep.Some? && asked + a.cancelledAsleep.value < wake then
      stop == Some(Interrupted) && now == asked + a.cancelledAsleep.value
    else
      now == wake + a.overslept && stop == if now >= deadline then Some(TimedOut) else None
  }

  /** What the k-th pass, begun at `began`, did, given the reply its sending got:
      it answers exactly with a reply, gives up for good exactly on a broken
      exchange, and otherwise counts a failure and sleeps. */
  predicate Passed(a: Attempt, k: nat, began: nat, deadline: nat, delay: nat, reply: Option<Reply>,
                   answer: Option<Reply>, stop: Option<Failure>, now: nat, failures: nat, sleeps: nat)
  {
    var asked := Asked(began, a, k);
    if Stopped(a, k) then
      answer == None && stop == Some(Interrupted) && now == began + GateHold(a, k) && failures == sleeps == 0
    else if a.fate.Broken? || reply.Some? then
      && answer == reply && stop == (if a.fate.Broken? then Some(NotRecoverable) else None)
      && now == asked && failures == sleeps == 0
    else
      && answer == None && failures == 1
      && if asked >= deadline then sleeps == 0 && stop == Some(TimedOut) && now == asked
         else sleeps == 1 && Slept(asked, delay, deadline, a, stop, now)
  }

  predicate InTime(p: Policy, start: nat, passes: seq<Attempt>) {
    Elapsed(p, start, passes) < Deadline(p, start, passes)
  }

  /** A cancel signal cuts the sleep of the last pass short. */
  predicate CutShort(p: Policy, start: nat, passes: seq<Attempt>)
    requires passes != []
  {
    var k := |passes| - 1;
    var asked := Asked(Elapsed(p, start, passes[..k]), passes[k], k);
    passes[k].cancelledAsleep.Some?
    && asked + passes[k].cancelledAsleep.value < WakeAt(asked, Backoff(p, k), Deadline(p, start, passes))
  }

  // ------------------------------------------------- what the sendings come to

  /** What a client has before it: the server, the worker that served it last,
      and the script of the network. */
  datatype Wire = Wire(s: State, next: WorkerId, net: seq<Attempt>)

  /** The k-th sending of a request: what it makes of the server, and the reply
      that comes back, if one does. */
  function Sent(x: Wire, peer: Peer, req: Request, a: Attempt, k: nat): (r: (Wire, Option<Reply>))
    requires Wf(x.s)
    ensures Wf(r.0.s)
  {
    if Stopped(a, k) || !a.fate.Reached? then (x, None)
    else
      var (t, reply) := Served(x.s, x.next + 1, peer, req, a.fate.script);
      (Wire(t, x.next + 1, x.net), if a.fate.delivered then reply else None)
  }

  /** The server after the first `n` sendings of one request. */
  function Fold(x: Wire, peer: Peer, req: Request, n: nat): (y: Wire)
    requires Wf(x.s) && n <= |x.net|
    ensures Wf(y.s)
  {
    if n == 0 then x else Sent(Fold(x, peer, req, n - 1), peer, req, x.net[n - 1], n - 1).0
  }

  function ReplyAt(x: Wire, peer: Peer, req: Request, j: nat): Option<Reply>
    requires Wf(x.s) && j < |x.net|
  {
    Sent(Fold(x, peer, req, j), peer, req, x.net[j], j).1
  }

  /** Pass `i` is not the last: it is neither stopped, broken nor answered, and
      sleeps its back-off out before the deadline. */
  predicate GoesOn(p: Policy, start: nat, x: Wire, peer: Peer, req: Request, i: nat)
    requires Wf(x.s) && i < |x.net|
  {
    && !Stopped(x.net[i], i) && !x.net[i].fate.Broken? && ReplyAt(x, peer, req, i).None?
    && !CutShort(p, start, x.net[..i + 1]) && InTime(p, start, x.net[..i + 1])
  }

  predicate LastWentOn(p: Policy, start: nat, x: Wire, peer: Peer, req: Request, n: nat)
    requires Wf(x.s) && n <= |x.net|
  {
    n == 0 || GoesOn(p, start, x, peer, req, n - 1)
  }

  /** The `j`-th sending is the first to be answered, in time. */
  predicate AnsweredAt(p: Policy, start: nat, x: Wire, peer: Peer, req: Request, j: nat)
    requires Wf(x.s)
  {
    j < |x.net| && ReplyAt(x, peer, req, j).Some? && forall i | 0 <= i < j :: GoesOn(p, start, x, peer, req, i)
  }

  /** A call that used `n` passes: each but the last continued. */
  predicate Timed(p: Policy, start: nat, x: Wire, peer: Peer, req: Request, n: nat,
                  answer: Option<Reply>, stop: Option<Failure>, now: nat, failures: nat, sleeps: nat)
    requires Wf(x.s) && n <= |x.net|
  {
    if n == 0 then answer == None && stop == None && now == start && failures == sleeps == 0
    else
      var k := n - 1;
      && (forall i | 0 <= i < k :: GoesOn(p, start, x, peer, req, i))
      && k <= failures && k <= sleeps
      && Passed(x.net[k], k, Elapsed(p, start, x.net[..k]), Deadline(p, start, x.net[..n]), Backoff(p, k),
                ReplyAt(x, peer, req, k), answer, stop, now, failures - k, sleeps - k)
  }

  /** A command whose first sending is answered; no reply means it is not. */
  function Ask(x: Wire, peer: Peer, req: Request): (r: (Wire, Option<Reply>))
    requires Wf(x.s)
    ensures Wf(r.0.s) && |r.0.net| <= |x.net| && (r.1.Some? ==> |r.0.net| < |x.net|)
  {
    if x.net == [] then (x, None)
    else
      var (y, reply) := Sent(x, peer, req, x.net[0], 0);
      if reply.None? then (x, None) else (y.(net := x.net[1..]), reply)
  }

  datatype Exchanged = Answered(reply: Reply) | Recoverable | Fatal

  class OfferClient {
    const server: ServerState
    const peer: Peer
    const policy: Policy
    var now: nat
    var net: seq<Attempt>
    var nextWorker: WorkerId
    var transientFailures: nat
    var reconnectAttempts: nat
    var recoveredCommands: nat
    var exhaustedCommands: nat
    var activeRecoveries: nat

    constructor (server: ServerState, peer: Peer, policy: Policy, net: seq<Attempt>)
      ensures this.server == server && this.peer == peer && this.policy == Normalised(policy) && this.net == net
    {
      this.server, this.peer, this.policy, this.net := server, peer, Normalised(policy), net;
      now, nextWorker := 0, 0;
      transientFailures, reconnectAttempts, recoveredCommands, exhaustedCommands, activeRecoveries := 0, 0, 0, 0, 0;
    }

    ghost function WireNow(): Wire
      reads this, server
    {
      Wire(server.View(), nextWorker, net)
    }

    /** One exchange on the wire. A refusal by the server is an answer too. */
    method Exchange(req: Request, fate: Fate) returns (result: Exchanged)
      requires Inv(server.View())
      modifies this`nextWorker, server
      ensures Inv(server.View()) && Later(old(server.View()), server.View())
      ensures result.Answered? ==> Fits(server.View(), req, result.reply)
      ensures match fate
        case Lost => result == Recoverable && server.View() == old(server.View()) && nextWorker == old(nextWorker)
        case Broken => result == Fatal && server.View() == old(server.View()) && nextWorker == old(nextWorker)
        case Reached(script, delivered) =>
          && nextWorker == old(nextWorker) + 1
          && var (t, reply) := Served(old(server.View()), nextWorker, peer, req, script);
          && server.View() == t && result == if reply.Some? && delivered then Answered(reply.value) else Recoverable
    {
      hide Inv, Later, Fits, ServerState.View, Served;
      match fate
      case Lost =>
        NothingHappened(server.View());
        result := Recoverable;
      case Broken =>
        NothingHappened(server.View());
        result := Fatal;
      case Reached(script, delivered) =>
        nextWorker := nextWorker + 1;
        var reply := Serve(server, nextWorker, peer, req, script);
        result := if reply.Some? && delivered then Answered(reply.value) else Recoverable;
    }

    /** With recovery disabled a command is one exchange. */
    method CommandOnce(req: Request) returns (result: Result<Reply>)
      requires Inv(server.View())
      modifies this`nextWorker, this`now, this`net, server
      ensures Inv(server.View()) && Later(old(server.View()), server.View())
      ensures result.Ok? ==> Fits(server.View(), req, result.value) && |net| < old(|net|)
      ensures |net| <= old(|net|)
      ensures if old(net) == [] then result == Err(Unfinished) && now == old(now) && net == []
              else result != Err(Unfinished) && now == old(now) + old(net)[0].spent && net == old(net)[1..]
      ensures result.Ok? || result == Err(Unfinished) || result == Err(NotRecoverable)
      ensures var (x, reply) := Ask(old(WireNow()), peer, req); reply.Some? ==> result == Ok(reply.value) && WireNow() == x
    {
      hide Inv, Later, Fits, ServerState.View, Served;
      if net == [] {
        NothingHappened(server.View());
        return Err(Unfinished);
      }
      var a := net[0];
      net := net[1..];
      now := now + a.spent;
      var once := Exchange(req, a.fate);
      result := if once.Answered? then Ok(once.reply) else Err(NotRecoverable);
    }

    /** A recoverable failure: give up at the deadline, otherwise sleep, and
        give up if the deadline passed meanwhile. */
    method AfterFailure(a: Attempt, deadline: nat, delay: nat, first: bool) returns (stop: Option<Failure>, slept: bool)
      modifies this`now, this`transientFailures, this`activeRecoveries, this`reconnectAttempts, this`exhaustedCommands
      ensures transientFailures == old(transientFailures) + 1
      ensures activeRecoveries == old(activeRecoveries) + (if first then 1 else 0)
      ensures slept <==> old(now) < deadline
      ensures reconnectAttempts == old(reconnectAttempts) + (if slept then 1 else 0)
      ensures exhaustedCommands == old(exhaustedCommands) + (if stop == Some(TimedOut) then 1 else 0)
      ensures if slept then Slept(old(now), delay, deadline, a, stop, now) else stop == Some(TimedOut) && now == old(now)
    {
      transientFailures := transientFailures + 1;
      if first {
        activeRecoveries := activeRecoveries + 1;
      }
      slept := now < deadline;
      if slept {
        reconnectAttempts := reconnectAttempts + 1;
        var wake := WakeAt(now, delay, deadline);
        if a.cancelledAsleep.Some? && now + a.cancelledAsleep.value < wake {
          now := now + a.cancelledAsleep.value;
          return Some(Interrupted), slept;
        }
        now := wake + a.overslept;
      }
      if now >= deadline {
        exhaustedCommands := exhaustedCommands + 1;
        return Some(TimedOut), slept;
      }
      return None, slept;
    }

    /** The k-th pass of the recovery loop: the gate (only after a failure), the
        cancel signal, the exchange, and what follows a recoverable failure. */
    method Pass(req: Request, a: Attempt, k: nat, deadline: nat, delay: nat, counted: bool)
      returns (answer: Option<Reply>, stop: Option<Failure>, later: nat, failed: bool, slept: bool)
      requires Inv(server.View())
      modifies this`now, this`nextWorker, server
      modifies this`transientFailures, this`reconnectAttempts, this`recoveredCommands, this`exhaustedCommands, this`activeRecoveries
      ensures Inv(server.View()) && Later(old(server.View()), server.View())
      ensures answer.Some? ==> Fits(server.View(), req, answer.value)
      ensures later == deadline + Extension(a, k)
      ensures stop != Some(Unfinished) && (answer.Some? ==> !slept)
      ensures var (x, reply) := Sent(old(WireNow()), peer, req, a, k);
        && WireNow() == x
        && Passed(a, k, old(now), later, delay, reply, answer, stop, now, if failed then 1 else 0, if slept then 1 else 0)
      ensures transientFailures == old(transientFailures) + (if failed then 1 else 0)
      ensures reconnectAttempts == old(reconnectAttempts) + (if slept then 1 else 0)
      ensures recoveredCommands == old(recoveredCommands) + (if answer.Some? && k > 0 then 1 else 0)
      ensures exhaustedCommands == old(exhaustedCommands) + (if stop == Some(TimedOut) then 1 else 0)
      ensures activeRecoveries == old(activeRecoveries) + (if failed && !counted then 1 else 0)
    {
      hide Inv, Core, Wf, Later, Fits, ServerState.View, Served, Slept, WakeAt, Sent;
      ghost var wire := WireNow();
      InvWf(wire.s);
      answer, stop, later, failed, slept := None, None, deadline, false, false;
      if k != 0 {
        now := now + a.gate;
        later := if a.cancelledAtGate then deadline else deadline + a.gate;
      }
      if (k != 0 && a.cancelledAtGate) || a.cancelled {
        NothingHappened(server.View());
        stop := Some(Interrupted);
        NotSent(wire, peer, req, a, k);
        return;
      }
      now := now + a.spent;
      var exchanged := Exchange(req, a.fate);
      SentOff(wire, peer, req, a, k, WireNow(), exchanged);
      match exchanged
      case Answered(reply) =>
        if k != 0 {
          recoveredCommands := recoveredCommands + 1;
        }
        answer := Some(reply);
      case Fatal =>
        stop := Some(NotRecoverable);
      case Recoverable =>
        failed := true;
        stop, slept := AfterFailure(a, later, delay, !counted);
    }

    /** The loop of `command_recovering`. The passes are those the script loses;
        neither an answer nor a stop means the script ended. `counted` says
        whether the call counts as an active recovery, `n` how many passes it
        used. */
    method Recover(req: Request) returns (answer: Option<Reply>, stop: Option<Failure>, counted: bool, ghost n: nat)
      requires Inv(server.View())
      requires policy.maxElapsed > 0 && policy.initialBackoff <= policy.maxBackoff
      modifies this, server
      ensures Inv(server.View()) && Later(old(server.View()), server.View())
      ensures answer.Some? ==> Fits(server.View(), req, answer.value)
      ensures n <= |old(net)| && net == old(net)[n..]
      ensures transientFailures >= old(transientFailures) && reconnectAttempts >= old(reconnectAttempts)
      ensures Timed(policy, old(now), old(WireNow()), peer, req, n, answer, stop, now,
                    transientFailures - old(transientFailures), reconnectAttempts - old(reconnectAttempts))
      ensures WireNow() == Fold(old(WireNow()), peer, req, n).(net := net)
      ensures stop != Some(Unfinished) && (answer == None && stop == None ==> net == [])
      ensures recoveredCommands == old(recoveredCommands) + (if answer.Some? && reconnectAttempts > old(reconnectAttempts) then 1 else 0)
      ensures exhaustedCommands == old(exhaustedCommands) + (if stop == Some(TimedOut) then 1 else 0)
      ensures activeRecoveries == old(activeRecoveries) + (if counted then 1 else 0)
    {
      hide Inv, Core, Later, Fits, Backoff, Course, Timed, Passed, Stopped, Extension, ServerState.View, Sent, Fold, Wf, Normalised;
      ghost var start, first, began := server.View(), WireNow(), now;
      NothingHappened(start);
      InvWf(start);
      BackoffStep(policy, 0);
      n := 0;
      var deadline: nat := now + policy.maxElapsed;
      CourseStart(policy, began, first, peer, req);
      var delay := policy.initialBackoff;
      var attempts := 0;
      answer, stop, counted := None, None, false;
      while net != [] && stop == None && answer == None
        invariant Inv(server.View()) && Later(start, server.View())
        invariant answer.Some? ==> Fits(server.View(), req, answer.value)
        invariant attempts == reconnectAttempts - old(reconnectAttempts) && transientFailures >= old(transientFailures)
        invariant delay == Backoff(policy, attempts)
        invariant Course(policy, began, first, peer, req, n, answer, stop, now, deadline,
                         transientFailures - old(transientFailures), attempts, WireNow())
        invariant recoveredCommands == old(recoveredCommands) + (if answer.Some? && attempts != 0 then 1 else 0)
        invariant exhaustedCommands == old(exhaustedCommands) + (if stop == Some(TimedOut) then 1 else 0)
        invariant activeRecoveries == old(activeRecoveries) + (if counted then 1 else 0)
        decreases |net|
      {
        ghost var wire, woke, till, failures := WireNow(), now, deadline, transientFailures - old(transientFailures);
        InvWf(wire.s);
        var a := net[0];
        net := net[1..];
        var failed, slept;
        answer, stop, deadline, failed, slept := Pass(req, a, attempts, deadline, delay, counted);
        LaterTrans(start, wire.s, server.View());
        CourseStep(policy, began, first, peer, req, n, woke, till, failures, attempts, wire, answer, stop, now, deadline,
                   if failed then 1 else 0, if slept then 1 else 0, WireNow());
        n := n + 1;
        counted := counted || failed;
        if slept {
          BackoffStep(policy, attempts);
          attempts := attempts + 1;
          delay := Min(2 * delay, policy.maxBackoff);
        }
      }
      CourseEnd(policy, began, first, peer, req, n, answer, stop, now, deadline,
                transientFailures - old(transientFailures), attempts, WireNow());
    }

    /** `command_recovering`; `Unfinished` stands for a run cut off by the end of
        the script. */
    method CommandRecovering(req: Request) returns (result: Result<Reply>)
      requires Inv(server.View())
      requires policy.maxElapsed > 0 && policy.initialBackoff <= policy.maxBackoff
      modifies this, server
      ensures Inv(server.View()) && Later(old(server.View()), server.View())
      ensures result.Ok? ==> Fits(server.View(), req, result.value) && |net| < old(|net|)
      // The clock and the counters of this call, pass by pass.
      ensures |net| <= old(|net|) && net == old(net)[|old(net)| - |net|..]
      ensures transientFailures >= old(transientFailures) && reconnectAttempts >= old(reconnectAttempts)
      ensures Timed(policy, old(now), old(WireNow()), peer, req, |old(net)| - |net|,
                    if result.Ok? then Some(result.value) else None, StopOf(result), now,
                    transientFailures - old(transientFailures), reconnectAttempts - old(reconnectAttempts))
      ensures WireNow() == Fold(old(WireNow()), peer, req, |old(net)| - |net|).(net := net)
      ensures var failures := transientFailures - old(transientFailures); var sleeps := reconnectAttempts - old(reconnectAttempts);
        failures == sleeps || (failures == sleeps + 1 && result == Err(TimedOut))
      ensures result == Err(TimedOut) ==> now >= Deadline(policy, old(now), old(net)[..|old(net)| - |net|])
      ensures result == Err(Unfinished) ==> net == []
      ensures recoveredCommands == old(recoveredCommands) + (if result.Ok? && reconnectAttempts > old(reconnectAttempts) then 1 else 0)
      ensures exhaustedCommands == old(exhaustedCommands) + (if result == Err(TimedOut) then 1 else 0)
      ensures activeRecoveries == old(activeRecoveries)
      // Every pass but the last continued, and the last did not unless the script ended.
      ensures result == Err(Unfinished) <==> LastWentOn(policy, old(now), old(WireNow()), peer, req, |old(net)| - |net|)
      // The first sending to be answered, in time, answers the call, and nothing else does.
      ensures forall j: nat :: AnsweredAt(policy, old(now), old(WireNow()), peer, req, j) ==>
        && result == Ok(ReplyAt(old(WireNow()), peer, req, j).value)
        && WireNow() == Fold(old(WireNow()), peer, req, j + 1).(net := old(net)[j + 1..])
      ensures result.Ok? ==> AnsweredAt(policy, old(now), old(WireNow()), peer, req, |old(net)| - |net| - 1)
    {
      hide Inv, Core, Later, Fits, Timed, Deadline, AnsweredAt, LastWentOn, Fold, ServerState.View, Wf, ReplyAt;
      ghost var first, began, n := WireNow(), now, 0;
      InvWf(first.s);
      var answer, stop, counted;
      answer, stop, counted, n := Recover(req);
      assert n == |first.net| - |net|;
      if counted {
        activeRecoveries := activeRecoveries - 1;
      }
      result := if answer.Some? then Ok(answer.value) else Err(if stop.Some? then stop.value else Unfinished);
      EndsExactly(policy, began, first, peer, req, n, answer, stop, now,
                  transientFailures - old(transientFailures), reconnectAttempts - old(reconnectAttempts));
      OnlyOne(policy, began, first, peer, req, n, answer, stop, now,
              transientFailures - old(transientFailures), reconnectAttempts - old(reconnectAttempts));
      forall j: nat | AnsweredAt(policy, began, first, peer, req, j)
        ensures j + 1 == n && answer.Some? && answer == ReplyAt(first, peer, req, j)
        ensures WireNow() == Fold(first, peer, req, j + 1).(net := first.net[j + 1..])
      {
        FirstAnswerEnds(policy, began, first, peer, req, n, answer, stop, now,
                        transientFailures - old(transientFailures), reconnectAttempts - old(reconnectAttempts), j);
      }
    }

    /** Every command of the receiver goes through here. */
    method Command(req: Request) returns (result: Result<Reply>)
      requires Inv(server.View()) && policy == Normalised(policy)
      modifies this, server
      ensures Inv(server.View()) && Later(old(server.View()), server.View())
      ensures result.Ok? ==> Fits(server.View(), req, result.value) && |net| < old(|net|)
      ensures |net| <= old(|net|)
      ensures var (x, reply) := Ask(old(WireNow()), peer, req); reply.Some? ==> result == Ok(reply.value) && WireNow() == x
    {
      hide Inv, Core, Wf, Later, Fits, Timed, Fold, AnsweredAt, ReplyAt, ServerState.View, Ask;
      ghost var first, began := WireNow(), now;
      InvWf(first.s);
      if policy.maxElapsed == 0 {
        result := CommandOnce(req);
      } else {
        AskIsFirst(policy, began, first, peer, req);
        result := CommandRecovering(req);
      }
    }
  }

  /** What stopped the loop: nothing for an answer or a run cut off. */
  function StopOf(result: Result<Reply>): Option<Failure> {
    if result.Ok? || result.error == Unfinished then None else Some(result.error)
  }

  lemma NotSent(x: Wire, peer: Peer, req: Request, a: Attempt, k: nat)
    requires Wf(x.s) && Stopped(a, k)
    ensures Sent(x, peer, req, a, k) == (x, None)
  {
  }

  lemma SentOff(x: Wire, peer: Peer, req: Request, a: Attempt, k: nat, y: Wire, exchanged: Exchanged)
    requires Wf(x.s) && y.net == x.net && !Stopped(a, k)
    requires match a.fate
      case Lost => exchanged == Recoverable && y == x
      case Broken => exchanged == Fatal && y == x
      case Reached(script, delivered) =>
        && y.next == x.next + 1
        && var (t, reply) := Served(x.s, y.next, peer, req, script);
        && y.s == t && exchanged == if reply.Some? && delivered then Answered(reply.value) else Recoverable
    ensures var (z, reply) := Sent(x, peer, req, a, k);
      && z == y && (exchanged == Fatal <==> a.fate.Broken?) && (a.fate.Broken? ==> reply == None)
      && reply == if exchanged.Answered? then Some(exchanged.reply) else None
  {
    hide Served, Wf;
  }

  lemma SentAnyNet(x: Wire, peer: Peer, req: Request, a: Attempt, k: nat, net: seq<Attempt>)
    requires Wf(x.s)
    ensures Sent(x.(net := net), peer, req, a, k) == (Sent(x, peer, req, a, k).0.(net := net), Sent(x, peer, req, a, k).1)
  {
    hide Served, Wf;
  }

  /** How far a call has come after `n` passes of the script `first.net`. */
  ghost predicate Course(p: Policy, start: nat, first: Wire, peer: Peer, req: Request, n: nat, answer: Option<Reply>,
                         stop: Option<Failure>, now: nat, deadline: nat, failures: nat, sleeps: nat, wire: Wire)
    requires Wf(first.s)
  {
    && n <= |first.net| && wire.net == first.net[n..]
    && deadline == Deadline(p, start, first.net[..n])
    && Timed(p, start, first, peer, req, n, answer, stop, now, failures, sleeps)
    && wire == Fold(first, peer, req, n).(net := wire.net)
    && stop != Some(Unfinished)
  }

  lemma CourseStart(p: Policy, start: nat, first: Wire, peer: Peer, req: Request)
    requires Wf(first.s)
    ensures Course(p, start, first, peer, req, 0, None, None, start, start + p.maxElapsed, 0, 0, first)
  {
    NoPasses(p, start);
    hide Deadline, Wf;
    assert first.net[..0] == [] && first.net[0..] == first.net;
  }

  /** Pass `k` of a call that goes on is the next of the script. */
  lemma CourseStep(p: Policy, start: nat, first: Wire, peer: Peer, req: Request, n: nat,
                   began: nat, deadline: nat, failures: nat, k: nat, wire: Wire,
                   answer: Option<Reply>, stop: Option<Failure>, now: nat, later: nat, failed: nat, slept: nat, after: Wire)
    requires Wf(first.s) && Wf(wire.s) && wire.net != []
    requires Course(p, start, first, peer, req, n, None, None, began, deadline, failures, k, wire)
    requires later == deadline + Extension(wire.net[0], k) && stop != Some(Unfinished)
    requires var (x, reply) := Sent(wire.(net := wire.net[1..]), peer, req, wire.net[0], k);
      after == x && Passed(wire.net[0], k, began, later, Backoff(p, k), reply, answer, stop, now, failed, slept)
    ensures Course(p, start, first, peer, req, n + 1, answer, stop, now, later, failures + failed, k + slept, after)
  {
    hide Timed, Deadline, Passed, Extension, Backoff, Wf, Sent, ReplyAt;
    NextPass(first.net, n);
    StillGoing(p, start, first, peer, req, n, began, failures, k);
    SentAnyNet(Fold(first, peer, req, n), peer, req, first.net[n], n, first.net[n + 1..]);
    ReplyAtIs(first, peer, req, n);
    PassAdded(p, start, first, peer, req, n, began, later, failures, answer, stop, now, failed, slept);
  }

  lemma ReplyAtIs(x: Wire, peer: Peer, req: Request, j: nat)
    requires Wf(x.s) && j < |x.net|
    ensures ReplyAt(x, peer, req, j) == Sent(Fold(x, peer, req, j), peer, req, x.net[j], j).1
  {
  }

  lemma CourseEnd(p: Policy, start: nat, first: Wire, peer: Peer, req: Request, n: nat, answer: Option<Reply>,
                  stop: Option<Failure>, now: nat, deadline: nat, failures: nat, sleeps: nat, wire: Wire)
    requires Wf(first.s) && Course(p, start, first, peer, req, n, answer, stop, now, deadline, failures, sleeps, wire)
    ensures n <= |first.net| && wire.net == first.net[n..]
    ensures Timed(p, start, first, peer, req, n, answer, stop, now, failures, sleeps)
    ensures wire == Fold(first, peer, req, n).(net := wire.net)
    ensures stop != Some(Unfinished)
  {
    hide Deadline, Wf, Timed, Fold;
  }

  lemma NextPass(script: seq<Attempt>, n: nat)
    requires n < |script|
    ensures script[n..][0] == script[n] && script[n..][1..] == script[n + 1..]
    ensures script[..n + 1] == script[..n] + [script[n]]
  {
  }

  lemma NoPasses(p: Policy, start: nat)
    ensures Deadline(p, start, []) == start + p.maxElapsed
  {
  }

  /** As long as nothing stopped the loop, every pass failed and slept in time. */
  lemma StillGoing(p: Policy, start: nat, x: Wire, peer: Peer, req: Request, n: nat, now: nat, failures: nat, sleeps: nat)
    requires Wf(x.s) && n <= |x.net| && Timed(p, start, x, peer, req, n, None, None, now, failures, sleeps)
    ensures failures == sleeps == n && now == Elapsed(p, start, x.net[..n])
    ensures forall i | 0 <= i < n :: GoesOn(p, start, x, peer, req, i)
  {
    hide Backoff, GateTime, ReplyAt, Wf;
    if n > 0 {
      var k := n - 1;
      assert x.net[..n][..k] == x.net[..k] && x.net[..n][k] == x.net[k];
      assert x.net[..k + 1] == x.net[..n];
    }
  }

  lemma PassAdded(p: Policy, start: nat, x: Wire, peer: Peer, req: Request, n: nat, began: nat, deadline: nat, failures: nat,
                  answer: Option<Reply>, stop: Option<Failure>, now: nat, failed: nat, slept: nat)
    requires Wf(x.s) && n < |x.net| && Timed(p, start, x, peer, req, n, None, None, began, failures, n)
    requires deadline == Deadline(p, start, x.net[..n]) + Extension(x.net[n], n)
    requires Passed(x.net[n], n, began, deadline, Backoff(p, n), ReplyAt(x, peer, req, n), answer, stop, now, failed, slept)
    ensures deadline == Deadline(p, start, x.net[..n + 1])
    ensures Timed(p, start, x, peer, req, n + 1, answer, stop, now, failures + failed, n + slept)
  {
    StillGoing(p, start, x, peer, req, n, began, failures, n);
    hide Passed, Backoff, Elapsed, Deadline, GoesOn, ReplyAt, Wf, Extension;
    DeadlineMoves(p, start, x.net, n);
  }

  lemma DeadlineMoves(p: Policy, start: nat, net: seq<Attempt>, n: nat)
    requires n < |net|
    ensures Deadline(p, start, net[..n + 1]) == Deadline(p, start, net[..n]) + Extension(net[n], n)
  {
    hide Extension;
    var all := net[..n + 1];
    assert all[..n] == net[..n] && all[n] == net[n];
  }

  /** Failures exceed sleeps by at most one; a stopped loop did not answer. */
  lemma OnlyOne(p: Policy, start: nat, x: Wire, peer: Peer, req: Request, n: nat, answer: Option<Reply>,
                stop: Option<Failure>, now: nat, failures: nat, sleeps: nat)
    requires Wf(x.s) && n <= |x.net| && Timed(p, start, x, peer, req, n, answer, stop, now, failures, sleeps)
    ensures failures == sleeps || (failures == sleeps + 1 && stop == Some(TimedOut))
    ensures stop == Some(TimedOut) ==> now >= Deadline(p, start, x.net[..n])
    ensures answer.Some? ==> n > 0 && stop == None && failures == sleeps == n - 1 && AnsweredAt(p, start, x, peer, req, n - 1)
  {
    hide Backoff, Deadline, GoesOn, Fold, Sent, Wf;
    BrokenSaysNothing(x, peer, req, n);
  }

  lemma BrokenSaysNothing(x: Wire, peer: Peer, req: Request, n: nat)
    requires Wf(x.s) && n <= |x.net|
    ensures n > 0 && (x.net[n - 1].fate.Broken? || Stopped(x.net[n - 1], n - 1)) ==> ReplyAt(x, peer, req, n - 1) == None
  {
    hide Served, Wf, Fold;
  }

  /** A pass that can continue does. */
  lemma ContinuesOn(p: Policy, start: nat, x: Wire, peer: Peer, req: Request, n: nat, answer: Option<Reply>,
                    stop: Option<Failure>, now: nat, failures: nat, sleeps: nat)
    requires Wf(x.s) && 0 < n <= |x.net| && Timed(p, start, x, peer, req, n, answer, stop, now, failures, sleeps)
    requires GoesOn(p, start, x, peer, req, n - 1)
    ensures answer == None && stop == None
  {
    hide Backoff, Deadline, ReplyAt, Wf;
    var k := n - 1;
    assert x.net[..n][..k] == x.net[..k] && x.net[..n][k] == x.net[k];
    assert x.net[..k + 1] == x.net[..n];
  }

  /** A call still goes on if and only if its last pass does. */
  lemma EndsExactly(p: Policy, start: nat, x: Wire, peer: Peer, req: Request, n: nat, answer: Option<Reply>,
                    stop: Option<Failure>, now: nat, failures: nat, sleeps: nat)
    requires Wf(x.s) && n <= |x.net| && Timed(p, start, x, peer, req, n, answer, stop, now, failures, sleeps)
    ensures answer == None && stop == None <==> LastWentOn(p, start, x, peer, req, n)
  {
    hide Timed, GoesOn, Wf;
    if answer == None && stop == None {
      StillGoing(p, start, x, peer, req, n, now, failures, sleeps);
    } else if n > 0 && GoesOn(p, start, x, peer, req, n - 1) {
      ContinuesOn(p, start, x, peer, req, n, answer, stop, now, failures, sleeps);
    }
    NoneUsed(p, start, x, peer, req, n, answer, stop, now, failures, sleeps);
  }

  lemma NoneUsed(p: Policy, start: nat, x: Wire, peer: Peer, req: Request, n: nat, answer: Option<Reply>,
                 stop: Option<Failure>, now: nat, failures: nat, sleeps: nat)
    requires Wf(x.s) && n <= |x.net| && Timed(p, start, x, peer, req, n, answer, stop, now, failures, sleeps)
    ensures n == 0 ==> answer == None && stop == None
  {
    hide Wf;
  }

  /** The first sending to be answered ends the call with its reply. */
  lemma FirstAnswerEnds(p: Policy, start: nat, x: Wire, peer: Peer, req: Request, n: nat, answer: Option<Reply>,
                        stop: Option<Failure>, now: nat, failures: nat, sleeps: nat, j: nat)
    requires Wf(x.s) && n <= |x.net| && Timed(p, start, x, peer, req, n, answer, stop, now, failures, sleeps)
    requires answer == None && stop == None ==> n == |x.net|
    requires AnsweredAt(p, start, x, peer, req, j)
    ensures j + 1 == n && answer == ReplyAt(x, peer, req, j) && answer.Some?
  {
    AnsweredReply(p, start, x, peer, req, j);
    if 0 < n <= j {
      ContinuesOn(p, start, x, peer, req, n, answer, stop, now, failures, sleeps);
    }
    BrokenSaysNothing(x, peer, req, n);
    hide Fold, Sent, Wf, InTime, CutShort, Elapsed, Deadline, Backoff, ReplyAt, Slept;
    assert n > j + 1 ==> GoesOn(p, start, x, peer, req, j);
  }

  lemma AnsweredReply(p: Policy, start: nat, x: Wire, peer: Peer, req: Request, j: nat)
    requires Wf(x.s) && AnsweredAt(p, start, x, peer, req, j)
    ensures j < |x.net| && ReplyAt(x, peer, req, j).Some?
  {
  }

  /** A first sending that is answered at once is the first to be answered. */
  lemma AskIsFirst(p: Policy, start: nat, x: Wire, peer: Peer, req: Request)
    requires Wf(x.s)
    ensures Ask(x, peer, req).1.Some? ==>
      && AnsweredAt(p, start, x, peer, req, 0) && ReplyAt(x, peer, req, 0) == Ask(x, peer, req).1
      && Fold(x, peer, req, 1).(net := x.net[1..]) == Ask(x, peer, req).0
  {
    hide Sent, Wf;
    if x.net != [] {
      assert Fold(x, peer, req, 0) == x;
      assert Fold(x, peer, req, 1) == Sent(Fold(x, peer, req, 0), peer, req, x.net[0], 0).0;
    }
  }

  lemma BackoffStep(p: Policy, k: nat)
    requires p.initialBackoff <= p.maxBackoff
    ensures Backoff(p, 0) == p.initialBackoff
    ensures Backoff(p, k + 1) == Min(2 * Backoff(p, k), p.maxBackoff)
  {
  }

  lemma NothingHappened(s: State)
    requires Inv(s)
    ensures Later(s, s)
  {
    UnchangedLater(s, s);
  }
}
