/** What controls do to a session, one by one and over a whole run: its state is
    a matter of which controls were applied and in which order. */
module ControlHistory {
  import opened Common
  import opened ServerModel
  import opened ServerHistory
  import opened ServerInvariant
  import opened ServerRuns

  /** The state that a new control leaves, case by case of what it can leave. */
  predicate Obeys(before: TransferState, op: ControlOp, after: TransferState) {
    && (after.Completed? <==> before.Completed? || (op.Complete? && before.Running?))
    && (after.Paused? <==> (op.Pause? && before.Running?) || (before.Paused? && !op.Resume? && !op.Cancel?))
    && (after.Running? <==> (op.Resume? && before.Paused?) || (before.Running? && op.Resume?))
    && (after.Cancelled? <==> before.Cancelled? || (op.Cancel? && Active(before)))
  }

  /** The one session a step may change is `r`. */
  predicate OnlySession(s: State, t: State, r: Ref) {
    |t.sessions| == |s.sessions| && forall q | 0 <= q < |s.sessions| && q != r :: t.sessions[q] == s.sessions[q]
  }

  /** A control with a new number: the state law, one more cancelled transfer in
      exactly the one case, and an answer with the state it leaves. */
  lemma ControlLaw(s: State, w: WorkerId)
    requires Wf(s) && w in s.workers && s.workers[w].WantControl?
    ensures s.workers[w].ref < |s.sessions|
    ensures var c := s.workers[w]; var (t, reply) := Apply(s, DoControlLocked(w));
      && OnlySession(s, t, c.ref)
      && var a, b := s.sessions[c.ref], t.sessions[c.ref];
      && (a.lastSequence < c.sequence ==>
            && Obeys(a.state, c.op, b.state) && b.lastSequence == c.sequence && b.lastOp == Some(c.op)
            && t.cancelled == s.cancelled + (if c.op.Cancel? && Active(a.state) then 1 else 0)
            && reply == Status(b.state, a.cover.unique))
      && (a.lastSequence >= c.sequence ==> b == a && t.cancelled == s.cancelled)
  {
  }

  // ------------------------------------------------------------------ over a run

  /** Whether the last Pause or Resume among the first `i` controls was a Pause. */
  predicate PausedAt(before: TransferState, controls: seq<Numbered>, i: nat)
    requires i <= |controls|
  {
    if i == 0 then before.Paused?
    else if controls[i - 1].op.Pause? then true
    else if controls[i - 1].op.Resume? then false
    else PausedAt(before, controls, i - 1)
  }

  predicate CompletesAt(before: TransferState, controls: seq<Numbered>, i: nat)
    requires i < |controls|
  {
    controls[i].op.Complete? && !PausedAt(before, controls, i)
  }

  /** Some Complete among the controls found the session unpaused. */
  predicate CompletedBy(before: TransferState, controls: seq<Numbered>) {
    exists i :: 0 <= i < |controls| && CompletesAt(before, controls, i)
  }

  /** Some Cancel found the session not completed. */
  predicate CancelledBy(before: TransferState, controls: seq<Numbered>) {
    exists i :: 0 <= i < |controls| && CancelsAt(before, controls, i)
  }

  predicate CancelsAt(before: TransferState, controls: seq<Numbered>, i: nat)
    requires i < |controls|
  {
    controls[i].op.Cancel? && forall j | 0 <= j < i :: !CompletesAt(before, controls, j)
  }

  lemma {:induction false} PausedShift(before: TransferState, mid: TransferState, x: Numbered, rest: seq<Numbered>, i: nat)
    requires i <= |rest| && Active(before) && (mid.Paused? <==> PausedAt(before, [x], 1))
    ensures PausedAt(before, [x] + rest, i + 1) == PausedAt(mid, rest, i)
    decreases i
  {
    var all := [x] + rest;
    if i == 0 {
      assert all[0] == x;
    } else {
      PausedShift(before, mid, x, rest, i - 1);
      assert all[i] == rest[i - 1];
    }
  }

  lemma ControlShift(before: TransferState, mid: TransferState, x: Numbered, rest: seq<Numbered>, i: nat)
    requires i < |rest| && Active(before) && Obeys(before, x.op, mid) && Active(mid)
    ensures var all := [x] + rest;
      all[i + 1] == rest[i] && CompletesAt(before, all, i + 1) == CompletesAt(mid, rest, i)
  {
    FirstPaused(before, mid, x);
    PausedShift(before, mid, x, rest, i);
  }

  lemma FirstControl(before: TransferState, mid: TransferState, x: Numbered, rest: seq<Numbered>)
    requires Active(before) && Obeys(before, x.op, mid)
    ensures var all := [x] + rest;
      all[0] == x && (CompletesAt(before, all, 0) <==> mid.Completed?) && (x.op.Cancel? <==> mid.Cancelled?)
  {
    NonePaused(before, [x] + rest);
  }

  lemma CompletedShift(before: TransferState, mid: TransferState, x: Numbered, rest: seq<Numbered>)
    requires Active(before) && Obeys(before, x.op, mid) && Active(mid)
    ensures CompletedBy(before, [x] + rest) == CompletedBy(mid, rest)
  {
    hide CompletesAt, Obeys;
    var all := [x] + rest;
    FirstControl(before, mid, x, rest);
    if i :| 0 <= i < |all| && CompletesAt(before, all, i) {
      ControlShift(before, mid, x, rest, i - 1);
    }
    if i :| 0 <= i < |rest| && CompletesAt(mid, rest, i) {
      ControlShift(before, mid, x, rest, i);
    }
  }

  lemma CancelShift(before: TransferState, mid: TransferState, x: Numbered, rest: seq<Numbered>, i: nat)
    requires i < |rest| && Active(before) && Obeys(before, x.op, mid) && Active(mid)
    ensures CancelsAt(before, [x] + rest, i + 1) == CancelsAt(mid, rest, i)
  {
    hide CompletesAt, Obeys;
    var all := [x] + rest;
    FirstControl(before, mid, x, rest);
    if CancelsAt(before, all, i + 1) {
      forall j | 0 <= j < i ensures !CompletesAt(mid, rest, j) {
        ControlShift(before, mid, x, rest, j);
      }
    }
    if CancelsAt(mid, rest, i) {
      forall j | 0 <= j < i + 1 ensures !CompletesAt(before, all, j) {
        if j > 0 {
          ControlShift(before, mid, x, rest, j - 1);
        }
      }
    }
  }

  lemma CancelledShift(before: TransferState, mid: TransferState, x: Numbered, rest: seq<Numbered>)
    requires Active(before) && Obeys(before, x.op, mid) && Active(mid)
    ensures CancelledBy(before, [x] + rest) == CancelledBy(mid, rest)
  {
    hide CompletesAt, Obeys;
    var all := [x] + rest;
    FirstControl(before, mid, x, rest);
    if i :| 0 <= i < |all| && CancelsAt(before, all, i) {
      CancelShift(before, mid, x, rest, i - 1);
    }
    if i :| 0 <= i < |rest| && CancelsAt(mid, rest, i) {
      CancelShift(before, mid, x, rest, i);
    }
  }

  lemma NonePaused(before: TransferState, controls: seq<Numbered>)
    ensures PausedAt(before, controls, 0) == before.Paused?
  {
  }

  lemma FirstPaused(before: TransferState, mid: TransferState, x: Numbered)
    requires Active(before) && Obeys(before, x.op, mid) && Active(mid)
    ensures mid.Paused? <==> PausedAt(before, [x], 1)
    ensures before.Running? ==> !x.op.Complete?
  {
    NonePaused(before, [x]);
  }

  /** How an active session's state follows from the controls, if nothing but a
      control cancels it. */
  predicate FollowsFrom(before: TransferState, controls: seq<Numbered>, after: TransferState) {
    && (after.Completed? <==> CompletedBy(before, controls))
    && (after.Paused? <==> !CompletedBy(before, controls) && PausedAt(before, controls, |controls|))
    && (after.Running? <==> !CompletedBy(before, controls) && !PausedAt(before, controls, |controls|))
  }

  lemma FollowsNone(before: TransferState)
    requires Active(before)
    ensures FollowsFrom(before, [], before) && !CancelledBy(before, [])
  {
  }

  lemma FollowsNext(before: TransferState, mid: TransferState, x: Numbered, rest: seq<Numbered>, after: TransferState)
    requires Active(before) && Obeys(before, x.op, mid)
    requires if Active(mid) then FollowsFrom(mid, rest, after) else mid.Completed? && after.Completed?
    ensures FollowsFrom(before, [x] + rest, after)
  {
    var all := [x] + rest;
    if Active(mid) {
      CompletedShift(before, mid, x, rest);
      FirstPaused(before, mid, x);
      PausedShift(before, mid, x, rest, |rest|);
      hide PausedAt, CompletedBy;
    } else {
      FirstControl(before, mid, x, rest);
    }
  }

  lemma CancelledNext(before: TransferState, mid: TransferState, x: Numbered, rest: seq<Numbered>)
    requires Active(before) && Obeys(before, x.op, mid)
    ensures CancelledBy(before, [x] + rest) == if Active(mid) then CancelledBy(mid, rest) else mid.Cancelled?
  {
    hide CompletesAt, Obeys;
    FirstControl(before, mid, x, rest);
    if Active(mid) {
      CancelledShift(before, mid, x, rest);
    } else if mid.Cancelled? {
      assert CancelsAt(before, [x] + rest, 0);
    }
  }

  /** No step of the run but a control cancels session `r`. */
  predicate Spared(s: State, steps: seq<Step>, r: Ref)
    requires Wf(s)
    decreases |steps|
  {
    steps == [] ||
    var t := Apply(s, steps[0]).0;
    && (AppliedBy(s, steps[0], r).None? && r < |s.sessions| && r < |t.sessions| && t.sessions[r].state.Cancelled? ==>
          s.sessions[r].state.Cancelled?)
    && Spared(t, steps[1..], r)
  }

  /** A step that applies no control leaves the state, or cancels. */
  lemma StepState(s: State, step: Step, r: Ref)
    requires Wf(s) && r < |s.sessions|
    ensures var t := Apply(s, step).0; var applied := AppliedBy(s, step, r);
      && r < |t.sessions|
      && if applied.Some? then Obeys(s.sessions[r].state, applied.value.op, t.sessions[r].state)
         else t.sessions[r].state == s.sessions[r].state || t.sessions[r].state.Cancelled?
  {
    if step.DoControlLocked? && step.w in s.workers && s.workers[step.w].WantControl? {
      ControlLaw(s, step.w);
    } else {
      AppliedStep(s, step, r);
    }
    hide Apply, Wf, Obeys;
  }

  /** Over any run that leaves an active session uncancelled: it is Completed if
      and only if one of the Completes it applied found it unpaused, and
      otherwise paused if and only if the last Pause or Resume was a Pause. A run
      in which only controls cancel it leaves it Cancelled if and only if one of
      its Cancels found it not completed. */
  lemma {:induction false} StateByControls(s: State, steps: seq<Step>, r: Ref)
    requires Wf(s) && r < |s.sessions| && Active(s.sessions[r].state)
    ensures r < |Run(s, steps).sessions|
    ensures var before, after := s.sessions[r].state, Run(s, steps).sessions[r].state;
      && (!after.Cancelled? ==> FollowsFrom(before, Applied(s, steps, r), after))
      && (Spared(s, steps, r) ==> (after.Cancelled? <==> CancelledBy(before, Applied(s, steps, r))))
    decreases |steps|
  {
    hide Apply, Wf, AppliedBy, FollowsFrom, CancelledBy, Obeys;
    FollowsNone(s.sessions[r].state);
    if steps != [] {
      var t, step := Apply(s, steps[0]).0, AppliedBy(s, steps[0], r);
      StepState(s, steps[0], r);
      FinalStates(t, steps[1..], r);
      var before, mid, after := s.sessions[r].state, t.sessions[r].state, Run(t, steps[1..]).sessions[r].state;
      if Active(mid) {
        StateByControls(t, steps[1..], r);
      }
      if step.Some? {
        CancelledNext(before, mid, step.value, Applied(t, steps[1..], r));
        if !after.Cancelled? {
          FollowsNext(before, mid, step.value, Applied(t, steps[1..], r), after);
        }
      }
    }
  }
}
