/** When the server holds, refuses or lets through: a server that is full, a read
    of a paused session, and a peer that is no longer allowed. */
module ServerGate {
  import opened Common
  import opened ServerModel
  import opened ServerHistory
  import opened ServerInvariant
  import opened ServerRuns
  import Coverage

  // --------------------------------------------------------------------- capacity

  /** The table entries unexpired at `now`. */
  function Held(s: State, now: nat): set<TransferId>
    requires Wf(s)
  {
    set id | id in s.transfers && s.sessions[s.transfers[id]].expires > now
  }

  /** Those of them that are running or paused. */
  function HeldActive(s: State, now: nat): set<TransferId>
    requires Wf(s)
  {
    set id | id in Held(s, now) && (s.sessions[s.transfers[id]].state.Running? || s.sessions[s.transfers[id]].state.Paused?)
  }

  /** A begin is refused as busy if and only if its nonce is unknown and, of what
      was unexpired when it was checked, 64 sessions are active or 4096 held. */
  lemma BusyExactly(s: State, w: WorkerId, id: TransferId, capability: Secret, serverNonce: Secret)
    requires Inv(s) && w in s.workers && s.workers[w].WantBegin? && id !in s.transfers
    ensures Wf(s)
    ensures var b := s.workers[w];
      var known := b.nonce in s.nonces && s.nonces[b.nonce].expires > b.seenAt;
      BeginLocked(s, w, id, capability, serverNonce).1 == Refused(Busy) <==>
        !known && (|HeldActive(s, b.seenAt)| >= 64 || |Held(s, b.seenAt)| >= 4096)
  {
    hide Inv, Core, BeginLocked, Held, HeldActive, Full, Wf, Retain;
    InvWf(s);
    BeginExactly(s, w, id, capability, serverNonce);
    SeenEarlier(s, w);
    FullMeans(s, s.workers[w].seenAt);
  }

  lemma SeenEarlier(s: State, w: WorkerId)
    requires Wf(s) && w in s.workers && s.workers[w].WantBegin?
    ensures s.workers[w].seenAt <= s.clock
  {
  }

  lemma FullMeans(s: State, now: nat)
    requires Inv(s) && Wf(s) && now <= s.clock
    ensures Full(Retain(s, now)) <==> |HeldActive(s, now)| >= 64 || |Held(s, now)| >= 4096
  {
    hide Inv, Core;
    InvStep(s, CleanUp(now));
    var t := Retain(s, now);
    NoncesCounted(t);
    assert t.transfers.Keys == Held(s, now);
    assert |t.transfers| == |t.transfers.Keys|;
    assert ActiveIds(t) == HeldActive(s, now);
  }

  /** Credentials are accepted if and only if the peer is allowed and they are
      those of an unexpired session of his. Only a peer who is not allowed loses
      sessions, and only an expired session is refused without being counted. */
  lemma AuthenticateExactly(s: State, peer: Peer, creds: Credentials)
    requires Wf(s)
    ensures var (t, found, why) := Authenticate(s, peer, creds);
      var named := creds.transfer in s.transfers;
      && (found.Some? <==>
            && PeerAllowed(s, peer) && named
            && var session := s.sessions[s.transfers[creds.transfer]];
            && s.clock < session.expires && session.peer == peer && session.creds == creds)
      && (found.Some? ==> found.value == s.transfers[creds.transfer] && t == s)
      && (found.None? ==>
            && (why == Expired <==> PeerAllowed(s, peer) && named && s.sessions[s.transfers[creds.transfer]].expires <= s.clock)
            && (why == Expired || why == Denied)
            && t.denied == s.denied + (if why == Denied then 1 else 0))
      && (PeerAllowed(s, peer) ==> t.sessions == s.sessions && t.cancelled == s.cancelled)
      && t.transfers == s.transfers && t.nonces == s.nonces && t.served == s.served && t.workers == s.workers
  {
    hide PeerAllowed;
  }

  /** The checks of a begin before it asks for the tables, in their order: which
      requests go on, and why the others do not. */
  lemma CheckExactly(s: State, w: WorkerId, peer: Peer, offer: nat, file: FileId, nonce: Nonce)
    requires Wf(s) && w !in s.workers
    ensures var (t, reply) := Apply(s, DoBeginCheck(w, peer, offer, file, nonce));
      var allowed := PeerAllowed(s, peer); var open := offer == s.cfg.offer && s.clock < s.cfg.offerExpires;
      && (reply == Pending <==> nonce != 0 && allowed && open && file in s.cfg.files)
      && (reply == Refused(Invalid) <==> nonce == 0)
      && (reply == Refused(Denied) <==> nonce != 0 && (!allowed || (open && file !in s.cfg.files)))
      && (reply == Refused(Expired) <==> nonce != 0 && allowed && !open)
      && (w in t.workers <==> reply == Pending)
      && t.denied == s.denied + (if reply == Refused(Denied) then 1 else 0)
      && (nonce == 0 || allowed ==> t.sessions == s.sessions && t.cancelled == s.cancelled)
      && t.transfers == s.transfers && t.nonces == s.nonces
  {
    hide PeerAllowed;
  }

  /** The server's own source: read only for a peer who is still allowed, and its
      failing is all that is reported as a changed source. */
  lemma SourceExactly(s: State, w: WorkerId, outcome: SourceOutcome)
    requires Wf(s) && w in s.workers && s.workers[w].AtSource?
    ensures s.workers[w].ref < |s.sessions|
    ensures var a := s.workers[w]; var (t, reply) := Apply(s, DoReadSource(w, outcome)); var allowed := PeerAllowed(s, a.peer);
      && (w in t.workers && t.workers[w].AtCommit? <==> allowed && outcome.Delivers?)
      && (reply == Refused(SourceChanged) <==> allowed && outcome.Fails?)
      && (reply == Refused(Denied) <==> !allowed)
      && (reply == Pending <==> w in t.workers)
      && t.denied == s.denied + (if allowed then 0 else 1)
      && (allowed ==> t.sessions == s.sessions && t.cancelled == s.cancelled)
      && t.served == s.served
  {
    hide PeerAllowed, SourceBytes;
  }

  // ------------------------------------------------------------------ the read gate

  /** One pass of the pause loop lets a read through if and only if its session
      is neither paused, cancelled nor expired, and holds it if and only if the
      session is paused, the wait was not the last, the peer is still allowed
      and the session not expired. A peer no longer allowed has its paused
      session cancelled. */
  lemma GateExactly(s: State, w: WorkerId, timedOut: bool)
    requires Wf(s) && w in s.workers && s.workers[w].AtGate?
    ensures s.workers[w].ref < |s.sessions|
    ensures var g := s.workers[w]; var session := s.sessions[g.ref]; var (t, reply) := Apply(s, DoReadGate(w, timedOut));
      var expired := s.clock >= session.expires; var last := g.waited && timedOut; var allowed := PeerAllowed(s, g.peer);
      && (w in t.workers && t.workers[w].AtSource? <==> !session.state.Paused? && !session.state.Cancelled? && !expired)
      && (w in t.workers && t.workers[w].AtGate? <==> session.state.Paused? && !last && allowed && !expired)
      && (reply == Data(Paused, session.cover.unique, []) <==> session.state.Paused? && last)
      && (reply == Refused(WasCancelled) <==> session.state.Cancelled? && !expired)
      && (reply == Refused(Denied) <==> session.state.Paused? && !last && !allowed)
      && (reply == Refused(Expired) <==> expired && (session.state.Paused? ==> !last && allowed))
      && (reply == Pending <==> w in t.workers)
      && t.sessions == (if reply == Refused(Denied) then s.sessions[g.ref := session.(state := Cancelled)] else s.sessions)
      && t.cancelled == s.cancelled + if reply == Refused(Denied) then 1 else 0
  {
    hide PeerAllowed;
  }

  /** The commit delivers if and only if the peer is allowed, the session not
      expired and not cancelled. For a peer no longer allowed it delivers nothing,
      counts nothing, and cancels the session if it was active. */
  lemma CommitExactly(s: State, w: WorkerId)
    requires Wf(s) && w in s.workers && s.workers[w].AtCommit?
    ensures s.workers[w].ref < |s.sessions|
    ensures var a := s.workers[w]; var session := s.sessions[a.ref]; var (t, reply) := Apply(s, DoReadCommit(w));
      var expired := s.clock >= session.expires; var allowed := PeerAllowed(s, a.peer);
      && (reply.Data? <==> allowed && !expired && !session.state.Cancelled?)
      && (reply.Data? ==> reply.bytes == a.bytes && reply.state == session.state && t.cancelled == s.cancelled)
      && (reply == Refused(Denied) <==> !allowed)
      && (reply == Refused(Expired) <==> allowed && expired)
      && (reply == Refused(WasCancelled) <==> allowed && !expired && session.state.Cancelled?)
      && (!reply.Data? ==> t.served == s.served)
      && (!reply.Data? && allowed ==> t.sessions == s.sessions && t.cancelled == s.cancelled)
      && (!allowed ==>
            && t.sessions == s.sessions[a.ref := session.(state := if Active(session.state) then Cancelled else session.state)]
            && t.cancelled == s.cancelled + if Active(session.state) then 1 else 0)
      && w !in t.workers
  {
    hide PeerAllowed, Coverage.Noted;
  }

  // --------------------------------------------------- a paused session over a run

  /** Some read of session `r` is past the gate. */
  predicate PastGate(b: Worker, r: Ref) {
    (b.AtSource? || b.AtCommit?) && b.ref == r
  }

  predicate NoneReading(s: State, r: Ref) {
    forall w | w in s.workers :: !PastGate(s.workers[w], r)
  }

  lemma MoverPastGate(s: State, step: Step, w: WorkerId, r: Ref)
    requires Wf(s) && Mover(step) == Some(w) && r < |s.sessions| && s.sessions[r].state.Paused?
    requires w in s.workers ==> !PastGate(s.workers[w], r)
    ensures var t := Apply(s, step).0; w in t.workers ==> !PastGate(t.workers[w], r)
  {
    hide PeerAllowed, Wf, Authenticate, SourceBytes, Deny, Full, Retain, Coverage.Noted;
    match step
    case DoBeginCheck(_, _, _, _, _) => DenyWorkers(s, step.peer);
    case DoControlAuth(_, peer, creds, _, _) => AuthenticateWorkers(s, peer, creds);
    case DoReadAuth(_, peer, creds, _, _) => AuthenticateWorkers(s, peer, creds);
    case DoBeginLocked(_, id, capability, serverNonce) => BeginLockedWorkers(s, w, id, capability, serverNonce);
    case DoControlLocked(_) => ControlLockedWorkers(s, w);
    case DoReadCommit(_) => ReadCommitWorkers(s, w);
    case DoReadGate(_, timedOut) => GatePaused(s, w, timedOut, r);
    case DoReadSource(_, outcome) => DenyWorkers(Finish(s, w), if w in s.workers && s.workers[w].AtSource? then s.workers[w].peer else 0);
  }

  lemma DenyWorkers(s: State, peer: Peer)
    ensures Deny(s, peer).workers == s.workers
  {
  }

  lemma GatePaused(s: State, w: WorkerId, timedOut: bool, r: Ref)
    requires Wf(s) && r < |s.sessions| && s.sessions[r].state.Paused? && (w in s.workers ==> !PastGate(s.workers[w], r))
    ensures var t := ReadGate(s, w, timedOut).0; w in t.workers ==> !PastGate(t.workers[w], r)
  {
    hide PeerAllowed;
  }

  lemma PausedStep(s: State, step: Step, r: Ref)
    requires Wf(s) && r < |s.sessions| && s.sessions[r].state.Paused? && NoneReading(s, r)
    ensures var t := Apply(s, step).0;
      && r < |t.sessions| && NoneReading(t, r)
      && t.sessions[r].cover == s.sessions[r].cover && t.sessions[r].notes == s.sessions[r].notes
  {
    hide Apply, Wf, PastGate;
    var t := Apply(s, step).0;
    forall w | w in t.workers ensures !PastGate(t.workers[w], r) {
      if Mover(step) == Some(w) {
        MoverPastGate(s, step, w, r);
      } else {
        OtherWorker(s, step, w);
      }
    }
    NothingCounted(s, step, r);
  }

  lemma NothingCounted(s: State, step: Step, r: Ref)
    requires Wf(s) && r < |s.sessions| && NoneReading(s, r)
    ensures var t := Apply(s, step).0;
      r < |t.sessions| && t.sessions[r].cover == s.sessions[r].cover && t.sessions[r].notes == s.sessions[r].notes
  {
    if step.DoReadCommit? {
      CommitNoControls(s, step.w);
      hide Wf, ReadCommit;
    } else if step.DoControlLocked? {
      hide Wf;
      if step.w in s.workers && s.workers[step.w].WantControl? {
        RefInRange(s, step.w);
      }
    } else {
      OnlyControls(s, step);
      hide Apply, Wf;
    }
  }

  /** Session `r` is paused in every state of the run but perhaps the last. */
  predicate PausedThroughout(s: State, steps: seq<Step>, r: Ref)
    requires Wf(s)
    decreases |steps|
  {
    steps == [] ||
    (r < |s.sessions| && s.sessions[r].state.Paused? && PausedThroughout(Apply(s, steps[0]).0, steps[1..], r))
  }

  /** As long as a session stays paused, no read that had not passed the gate
      passes it, and nothing is counted, whatever else the run does. */
  lemma {:induction false} PausedServesNothing(s: State, steps: seq<Step>, r: Ref)
    requires Wf(s) && r < |s.sessions| && NoneReading(s, r) && PausedThroughout(s, steps, r)
    ensures var t := Run(s, steps);
      && r < |t.sessions| && NoneReading(t, r)
      && t.sessions[r].cover == s.sessions[r].cover && t.sessions[r].notes == s.sessions[r].notes
    decreases |steps|
  {
    hide Apply, Wf, NoneReading;
    if steps != [] {
      PausedStep(s, steps[0], r);
      PausedServesNothing(Apply(s, steps[0]).0, steps[1..], r);
    }
  }
}
