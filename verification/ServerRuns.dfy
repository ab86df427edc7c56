/** What the server promises over whole runs: cancellation is final even for
    reads in flight, retried commands are harmless, progress is conserved. */
module ServerRuns {
  import opened Common
  import opened ServerModel
  import opened ServerHistory
  import opened ServerInvariant
  import Coverage

  // ------------------------------------------------ cancellation and two-phase reads

  /** Cancelled and Completed are never left; a cancelled session's coverage
      never changes again, whatever runs next. */
  lemma FinalStates(s: State, steps: seq<Step>, r: Ref)
    requires Wf(s) && r < |s.sessions|
    ensures var t := Run(s, steps);
      && r < |t.sessions|
      && (s.sessions[r].state.Cancelled? ==>
            t.sessions[r].state.Cancelled? && t.sessions[r].cover == s.sessions[r].cover && t.sessions[r].notes == s.sessions[r].notes)
      && (s.sessions[r].state.Completed? ==> t.sessions[r].state.Completed?)
  {
    RunLater(s, steps);
    assert SessionLater(s.sessions[r], Run(s, steps).sessions[r]);
  }

  /** Only a commit answers with bytes, and only after the peer's trust, the
      expiry and the state were checked following the source read. The bytes
      are a piece of the session's file, and they are now counted. */
  lemma BytesAreChecked(s: State, step: Step)
    requires Inv(s)
    requires var reply := Apply(s, step).1; reply.Data? && reply.bytes != []
    ensures step.DoReadCommit? && step.w in s.workers && s.workers[step.w].AtCommit?
    ensures var a := s.workers[step.w]; var session := s.sessions[a.ref]; var bytes := Apply(s, step).1.bytes;
      var file := s.cfg.files[session.creds.file];
      && PeerAllowed(s, session.peer) && s.clock < session.expires && !session.state.Cancelled?
      && a.offset + |bytes| <= |file| && bytes == file[a.offset..a.offset + |bytes|]
      && Apply(s, step).0.sessions[a.ref].notes == session.notes + [Coverage.NoteCall(a.offset, |bytes|)]
  {
    hide Inv, Core, Apply, ReadCommit, PeerAllowed, WorkerOk;
    InvWf(s);
    OnlyCommitsCarryBytes(s, step);
    InvWorker(s, step.w);
    CommitIsStep(s, step.w);
    CommitMeaning(s, step.w);
  }

  lemma CommitIsStep(s: State, w: WorkerId)
    requires Wf(s)
    ensures Apply(s, DoReadCommit(w)) == ReadCommit(s, w)
  {
    hide ReadCommit;
  }

  lemma InvWorker(s: State, w: WorkerId)
    requires Inv(s) && w in s.workers
    ensures Wf(s) && WorkerOk(s, s.workers[w]) && (HasRef(s.workers[w]) ==> s.workers[w].ref < |s.sessions|)
  {
  }

  lemma CommitMeaning(s: State, w: WorkerId)
    requires Wf(s) && w in s.workers && s.workers[w].AtCommit? && WorkerOk(s, s.workers[w])
    requires var reply := ReadCommit(s, w).1; reply.Data? && reply.bytes != []
    ensures var a := s.workers[w]; var session := s.sessions[a.ref]; var (t, reply) := ReadCommit(s, w);
      var file := s.cfg.files[session.creds.file];
      && PeerAllowed(s, session.peer) && s.clock < session.expires && !session.state.Cancelled?
      && reply.bytes == a.bytes
      && a.offset + |a.bytes| <= |file| && a.bytes == file[a.offset..a.offset + |a.bytes|]
      && t.sessions[a.ref].notes == session.notes + [Coverage.NoteCall(a.offset, |a.bytes|)]
  {
    hide Coverage.Noted;
  }

  lemma OnlyCommitsCarryBytes(s: State, step: Step)
    requires Wf(s)
    requires var reply := Apply(s, step).1; reply.Data? && reply.bytes != []
    ensures step.DoReadCommit? && step.w in s.workers && s.workers[step.w].AtCommit?
  {
    hide Retain, CancelPeer, Coverage.Noted, PeerAllowed, Wf, Full, Open;
  }

  /** A read in flight when its session is cancelled returns no bytes. */
  lemma CancelledInFlight(s: State, steps: seq<Step>, step: Step, r: Ref)
    requires Inv(s) && r < |s.sessions| && s.sessions[r].state.Cancelled?
    requires var t := Run(s, steps); step.DoReadCommit? && step.w in t.workers && HasRef(t.workers[step.w]) && t.workers[step.w].ref == r
    ensures !Apply(Run(s, steps), step).1.Data?
    ensures Apply(Run(s, steps), step).0.sessions == Run(s, steps).sessions
  {
    FinalStates(s, steps, r);
    InvRun(s, steps);
    CancelledCommit(Run(s, steps), step.w);
  }

  lemma CancelledCommit(s: State, w: WorkerId)
    requires Wf(s) && w in s.workers && HasRef(s.workers[w]) && s.sessions[s.workers[w].ref].state.Cancelled?
    ensures var (t, reply) := ReadCommit(s, w); t.sessions == s.sessions && !reply.Data?
  {
    hide Coverage.Noted;
  }

  // ------------------------------------------------------------ retried begins

  /** The nonce of `b` is on record with its request and names session `r`. */
  predicate Names(t: State, b: Worker, id: TransferId, r: Ref)
    requires b.WantBegin?
  {
    && b.nonce in t.nonces && SameRequest(t.nonces[b.nonce], b)
    && t.nonces[b.nonce].transfer == id && t.nonces[b.nonce].expires == b.seenAt + t.cfg.ttl
    && id in t.transfers && t.transfers[id] == r < |t.sessions|
  }

  /** Exactly what the second half of BeginTransfer does: a nonce known at the
      instant the request was checked answers with the existing session or is
      refused as a replay; an unknown one opens a session unless the server is
      full. */
  lemma BeginExactly(s: State, w: WorkerId, id: TransferId, capability: Secret, serverNonce: Secret)
    requires Inv(s) && w in s.workers && s.workers[w].WantBegin? && id !in s.transfers
    ensures var b := s.workers[w]; var (t, reply) := BeginLocked(s, w, id, capability, serverNonce);
      var known := b.nonce in s.nonces && s.nonces[b.nonce].expires > b.seenAt;
      && (|t.sessions| == |s.sessions| + 1 <==> !known && !Full(Retain(s, b.seenAt)))
      && (|t.sessions| == |s.sessions| || (|t.sessions| == |s.sessions| + 1 && Names(t, b, id, |s.sessions|)))
      && (reply == Refused(Busy) <==> !known && Full(Retain(s, b.seenAt)))
      && (reply == Refused(Replay) <==> known && !SameRequest(s.nonces[b.nonce], b))
      && (known && SameRequest(s.nonces[b.nonce], b) ==>
            var record := s.nonces[b.nonce];
            && t.sessions == s.sessions && b.nonce in t.nonces && t.nonces[b.nonce] == record
            && record.transfer in s.transfers && reply == BegunReply(s, s.sessions[s.transfers[record.transfer]]))
  {
    hide Core, Full, BeginLocked, Retain, Finish, Wf, Backed;
    var b := s.workers[w];
    InvWf(s);
    FullIgnoresWorkers(Retain(s, b.seenAt), w);
    RetainedFacts(s, w, b);
    BeginOutcome(s, w, id, capability, serverNonce);
  }

  /** What is known about a nonce after both `retain` calls. */
  lemma RetainedFacts(s: State, w: WorkerId, b: Worker)
    requires Wf(s) && Core(s) && b.WantBegin?
    ensures var x := Finish(Retain(s, b.seenAt), w);
      && x.sessions == s.sessions && x.clock == s.clock
      && (b.nonce in x.nonces <==> b.nonce in s.nonces && s.nonces[b.nonce].expires > b.seenAt)
      && (b.nonce in x.nonces ==>
            var record := s.nonces[b.nonce];
            && x.nonces[b.nonce] == record && record.transfer in s.transfers
            && record.transfer in x.transfers && x.transfers[record.transfer] == s.transfers[record.transfer])
  {
    hide Core;
    if b.nonce in s.nonces {
      NonceBacked(s, b.nonce);
    }
  }

  /** The four ways out of the locked half. */
  lemma BeginOutcome(s: State, w: WorkerId, id: TransferId, capability: Secret, serverNonce: Secret)
    requires Wf(s) && w in s.workers && s.workers[w].WantBegin? && id !in s.transfers
    ensures var b := s.workers[w]; var x := Finish(Retain(s, b.seenAt), w);
      var (t, reply) := BeginLocked(s, w, id, capability, serverNonce);
      if b.nonce !in x.nonces then
        if Full(x) then t == x && reply == Refused(Busy)
        else reply.Begun? && |t.sessions| == |x.sessions| + 1 && Names(t, b, id, |x.sessions|)
      else if SameRequest(x.nonces[b.nonce], b) && x.nonces[b.nonce].transfer in x.transfers then
        t == x && reply == BegunReply(x, x.sessions[x.transfers[x.nonces[b.nonce].transfer]])
      else t.sessions == x.sessions && reply == Refused(Replay)
  {
    hide Full, Retain, Finish, Wf;
  }

  lemma InvWf(s: State)
    requires Inv(s)
    ensures Wf(s) && Core(s)
  {
  }

  lemma NonceBacked(s: State, nonce: Nonce)
    requires Core(s) && nonce in s.nonces
    ensures Wf(s) && Backed(s, s.nonces[nonce])
  {
  }

  lemma FullIgnoresWorkers(s: State, w: WorkerId)
    requires Wf(s)
    ensures Full(Finish(s, w)) == Full(s)
  {
    assert ActiveIds(Finish(s, w)) == ActiveIds(s);
  }

  /** One begin command, resent at any later moment before its session expires:
      the same credentials, less time remaining, and no new session. */
  lemma BeginAgain(s: State, nonce: Nonce, steps: seq<Step>, w: WorkerId, id: TransferId, capability: Secret, serverNonce: Secret)
    requires Inv(s) && nonce in s.nonces
    requires var t := Run(s, steps);
      && t.clock < s.nonces[nonce].expires && id !in t.transfers
      && w in t.workers && t.workers[w].WantBegin? && t.workers[w].nonce == nonce
      && SameRequest(s.nonces[nonce], t.workers[w])
    ensures var record := s.nonces[nonce]; var t := Run(s, steps);
      && record.transfer in s.transfers
      && var session := s.sessions[s.transfers[record.transfer]];
      && var (u, reply) := BeginLocked(t, w, id, capability, serverNonce);
      && reply == Begun(session.creds, record.expires - t.clock)
      && u.sessions == t.sessions
      && nonce in u.nonces && u.nonces[nonce] == record
  {
    hide Inv, Core, BeginLocked, Run, Full, Retain;
    InvWf(s);
    var t := Run(s, steps);
    InvRun(s, steps);
    StillNamed(s, nonce, steps);
    SeenBefore(t, w);
    BeginExactly(t, w, id, capability, serverNonce);
  }

  /** `step` is a begin with this nonce and opens a session. */
  predicate Opens(s: State, step: Step, nonce: Nonce)
    requires Wf(s)
  {
    && step.DoBeginLocked? && step.w in s.workers && s.workers[step.w].WantBegin? && s.workers[step.w].nonce == nonce
    && |Apply(s, step).0.sessions| > |s.sessions|
  }

  /** How many sessions a nonce opens in a run. */
  function Openings(s: State, steps: seq<Step>, nonce: Nonce): nat
    requires Wf(s)
    decreases |steps|
  {
    if steps == [] then 0
    else (if Opens(s, steps[0], nonce) then 1 else 0) + Openings(Apply(s, steps[0]).0, steps[1..], nonce)
  }

  lemma KnownOpensNothing(s: State, step: Step, nonce: Nonce)
    requires Inv(s) && Wf(s) && nonce in s.nonces && s.clock < s.nonces[nonce].expires
    ensures !Opens(s, step, nonce)
  {
    hide Inv, BeginLocked, Full, Retain, Names;
    if step.DoBeginLocked? && step.w in s.workers && s.workers[step.w].WantBegin? && s.workers[step.w].nonce == nonce {
      SeenBefore(s, step.w);
      if step.id in s.transfers {
        IdInUse(s, step.w, step.id, step.capability, step.serverNonce);
      } else {
        BeginExactly(s, step.w, step.id, step.capability, step.serverNonce);
      }
    }
  }

  lemma IdInUse(s: State, w: WorkerId, id: TransferId, capability: Secret, serverNonce: Secret)
    requires Wf(s) && id in s.transfers
    ensures BeginLocked(s, w, id, capability, serverNonce).0 == s
  {
  }

  lemma RecordStays(s: State, t: State, nonce: Nonce)
    requires Later(s, t) && nonce in s.nonces && t.clock < s.nonces[nonce].expires
    ensures s.clock <= t.clock && nonce in t.nonces && t.nonces[nonce] == s.nonces[nonce]
  {
  }

  /** While a nonce is on record no begin opens a second session for it. */
  lemma {:induction false} NoSecondSession(s: State, nonce: Nonce, steps: seq<Step>)
    requires Inv(s) && Wf(s) && nonce in s.nonces && Run(s, steps).clock < s.nonces[nonce].expires
    ensures Openings(s, steps, nonce) == 0
    ensures var t := Run(s, steps); nonce in t.nonces && t.nonces[nonce] == s.nonces[nonce]
    decreases |steps|
  {
    hide Inv, Wf, Later, Apply, Opens;
    RunLater(s, steps);
    RecordStays(s, Run(s, steps), nonce);
    if steps != [] {
      var t := Apply(s, steps[0]).0;
      KnownOpensNothing(s, steps[0], nonce);
      InvStep(s, steps[0]);
      StepLater(s, steps[0]);
      RunLater(t, steps[1..]);
      ClockGrows(t, Run(t, steps[1..]));
      RecordStays(s, t, nonce);
      NoSecondSession(t, nonce, steps[1..]);
    }
  }

  lemma ClockGrows(s: State, t: State)
    requires Later(s, t)
    ensures s.clock <= t.clock
  {
  }

  /** A begin command opens at most one session: from the moment it does, and
      until that session expires, no run opens another one for its nonce. */
  lemma AtMostOneSession(s: State, w: WorkerId, id: TransferId, capability: Secret, serverNonce: Secret, steps: seq<Step>)
    requires Inv(s) && Wf(s) && w in s.workers && s.workers[w].WantBegin? && id !in s.transfers
    requires var t := BeginLocked(s, w, id, capability, serverNonce).0;
      |t.sessions| > |s.sessions| && Run(t, steps).clock < s.workers[w].seenAt + s.cfg.ttl
    ensures var b := s.workers[w]; var t := BeginLocked(s, w, id, capability, serverNonce).0;
      && Names(t, b, id, |s.sessions|) && |t.sessions| == |s.sessions| + 1
      && Openings(t, steps, b.nonce) == 0
      && b.nonce in Run(t, steps).nonces && Run(t, steps).nonces[b.nonce] == t.nonces[b.nonce]
  {
    hide Inv, Wf, Later, BeginLocked, Run, Full, Retain, Openings;
    var t := BeginLocked(s, w, id, capability, serverNonce).0;
    BeginExactly(s, w, id, capability, serverNonce);
    BeginIsStep(s, w, id, capability, serverNonce);
    InvStep(s, DoBeginLocked(w, id, capability, serverNonce));
    InvWf(t);
    NoSecondSession(t, s.workers[w].nonce, steps);
  }

  lemma BeginIsStep(s: State, w: WorkerId, id: TransferId, capability: Secret, serverNonce: Secret)
    requires Wf(s)
    ensures Apply(s, DoBeginLocked(w, id, capability, serverNonce)) == BeginLocked(s, w, id, capability, serverNonce)
    ensures BeginLocked(s, w, id, capability, serverNonce).0.cfg == s.cfg
  {
    hide Full;
  }

  lemma SeenBefore(s: State, w: WorkerId)
    requires Inv(s) && w in s.workers && s.workers[w].WantBegin?
    ensures s.workers[w].seenAt <= s.clock
  {
  }

  /** A nonce record whose time has not come still names the same session. */
  lemma StillNamed(s: State, nonce: Nonce, steps: seq<Step>)
    requires Inv(s) && nonce in s.nonces && Run(s, steps).clock < s.nonces[nonce].expires
    ensures var record := s.nonces[nonce]; var t := Run(s, steps);
      && record.transfer in s.transfers && record.transfer in t.transfers
      && nonce in t.nonces && t.nonces[nonce] == record
      && var r := s.transfers[record.transfer];
      && t.transfers[record.transfer] == r
      && t.sessions[r].creds == s.sessions[r].creds && t.sessions[r].expires == record.expires
  {
    hide Core;
    InvWf(s);
    NonceBacked(s, nonce);
    RunLater(s, steps);
    var r := s.transfers[s.nonces[nonce].transfer];
    assert SessionLater(s.sessions[r], Run(s, steps).sessions[r]);
  }

  // ---------------------------------------------------------- retried controls

  /** The session has already seen this control message or a later one. */
  predicate Processed(session: Session, sequence: nat, op: ControlOp) {
    sequence < session.lastSequence || (sequence == session.lastSequence && session.lastOp == Some(op))
  }

  lemma ProcessedStays(s: State, steps: seq<Step>, r: Ref, sequence: nat, op: ControlOp)
    requires Wf(s) && r < |s.sessions| && Processed(s.sessions[r], sequence, op)
    ensures r < |Run(s, steps).sessions| && Processed(Run(s, steps).sessions[r], sequence, op)
  {
    RunLater(s, steps);
    assert SessionLater(s.sessions[r], Run(s, steps).sessions[r]);
  }

  /** Equal but for worker `v` and the two refusal counters. */
  ghost predicate Same(s: State, t: State, v: WorkerId) {
    && t == s.(workers := t.workers, denied := t.denied, replayed := t.replayed)
    && OnlyWorker(s, t, v)
  }

  lemma SameRetained(s: State, t: State, v: WorkerId, w: WorkerId, now: nat)
    requires Wf(s) && Wf(t) && Same(s, t, v) && w != v
    ensures var x, y := Finish(Retain(s, now), w), Finish(Retain(t, now), w); Same(x, y, v) && Full(x) == Full(y)
  {
    hide Same, Full, Retain, Finish;
    SameRetain(s, t, v, now);
    SameFinish(Retain(s, now), Retain(t, now), v, w);
    SameFull(Finish(Retain(s, now), w), Finish(Retain(t, now), w), v);
  }

  lemma SameFull(s: State, t: State, v: WorkerId)
    requires Wf(s) && Wf(t) && Same(s, t, v)
    ensures Full(s) == Full(t)
  {
    assert ActiveIds(s) == ActiveIds(t);
  }

  lemma SameOpen(s: State, t: State, v: WorkerId, nonce: Nonce, session: Session)
    requires Wf(s) && Wf(t) && Same(s, t, v) && session.creds.file in s.cfg.files
    ensures Same(Open(s, nonce, session), Open(t, nonce, session), v)
  {
  }

  lemma SameFields(s: State, t: State, v: WorkerId, w: WorkerId)
    requires Same(s, t, v) && w != v
    ensures t.cfg == s.cfg && t.clock == s.clock && t.sessions == s.sessions && t.transfers == s.transfers && t.nonces == s.nonces
    ensures (w in t.workers <==> w in s.workers) && (w in s.workers ==> t.workers[w] == s.workers[w])
  {
  }

  lemma SameReplayed(s: State, t: State, v: WorkerId)
    requires Same(s, t, v)
    ensures Same(s.(replayed := s.replayed + 1), t.(replayed := t.replayed + 1), v)
  {
  }

  lemma SameBeginLocked(s: State, t: State, v: WorkerId, w: WorkerId, id: TransferId, capability: Secret, serverNonce: Secret)
    requires Wf(s) && Wf(t) && Same(s, t, v) && w != v
    ensures var (s', a) := BeginLocked(s, w, id, capability, serverNonce);
      var (t', b) := BeginLocked(t, w, id, capability, serverNonce); Same(s', t', v) && a == b
  {
    hide Same, Wf, Retain, Full, Open, Finish;
    SameFields(s, t, v, w);
    if w in s.workers && s.workers[w].WantBegin? && id !in s.transfers {
      var b := s.workers[w];
      var x, y := Finish(Retain(s, b.seenAt), w), Finish(Retain(t, b.seenAt), w);
      SameRetained(s, t, v, w, b.seenAt);
      SameFields(x, y, v, w);
      SameReplayed(x, y, v);
      if b.nonce !in x.nonces && !Full(x) {
        BeginFile(s, w);
        SameOpen(x, y, v, b.nonce, NewSession(b, x.cfg.ttl, id, capability, serverNonce));
      }
    }
  }

  lemma BeginFile(s: State, w: WorkerId)
    requires Wf(s) && w in s.workers && s.workers[w].WantBegin?
    ensures var x := Finish(Retain(s, s.workers[w].seenAt), w); s.workers[w].file in x.cfg.files
  {
  }

  lemma SameCancelPeer(s: State, t: State, v: WorkerId, peer: Peer)
    requires Same(s, t, v)
    ensures Same(CancelPeer(s, peer), CancelPeer(t, peer), v)
  {
    assert LostRefs(s, peer) == LostRefs(t, peer);
  }

  lemma SameAuthenticate(s: State, t: State, v: WorkerId, peer: Peer, creds: Credentials)
    requires Wf(s) && Wf(t) && Same(s, t, v)
    ensures var a := Authenticate(s, peer, creds); var b := Authenticate(t, peer, creds);
      Same(a.0, b.0, v) && a.1 == b.1 && a.2 == b.2
  {
    hide CancelPeer;
    SameCancelPeer(s.(denied := s.denied + 1), t.(denied := t.denied + 1), v, peer);
  }

  lemma SameReadSource(s: State, t: State, v: WorkerId, w: WorkerId, outcome: SourceOutcome)
    requires Wf(s) && Wf(t) && Same(s, t, v) && w != v
    ensures var (s', a) := ReadSource(s, w, outcome); var (t', b) := ReadSource(t, w, outcome); Same(s', t', v) && a == b
  {
    hide CancelPeer, SourceBytes, Same, Wf, PeerAllowed, Finish;
    SameFields(s, t, v, w);
    if w in s.workers && s.workers[w].AtSource? {
      RefInRange(s, w);
      var a := s.workers[w];
      var x, y := Finish(s, w), Finish(t, w);
      SameTrust(s, t, v, a.peer);
      SameFinish(s, t, v, w);
      SameDenied(x, y, v);
      SameCancelPeer(x.(denied := x.denied + 1), y.(denied := y.denied + 1), v, a.peer);
      SessionFile(s, a.ref);
      var file := s.cfg.files[s.sessions[a.ref].creds.file];
      SamePut(s, t, v, w, AtCommit(a.ref, a.peer, a.offset, if outcome.Fails? then [] else SourceBytes(file, a.offset, a.requested, outcome.chunk)));
    }
  }

  lemma SessionFile(s: State, r: Ref)
    requires Wf(s) && r < |s.sessions|
    ensures s.sessions[r].creds.file in s.cfg.files
  {
  }

  lemma SameBeginCheck(s: State, t: State, v: WorkerId, w: WorkerId, peer: Peer, offer: nat, file: FileId, nonce: Nonce)
    requires Wf(s) && Wf(t) && Same(s, t, v) && w != v
    ensures var (s', a) := BeginCheck(s, w, peer, offer, file, nonce);
      var (t', b) := BeginCheck(t, w, peer, offer, file, nonce); Same(s', t', v) && a == b
  {
    hide CancelPeer, Same, Wf, PeerAllowed;
    SameFields(s, t, v, w);
    SameTrust(s, t, v, peer);
    SameDenied(s, t, v);
    SameCancelPeer(s.(denied := s.denied + 1), t.(denied := t.denied + 1), v, peer);
    SamePut(s, t, v, w, WantBegin(peer, offer, file, nonce, s.clock));
  }

  lemma SameTrust(s: State, t: State, v: WorkerId, peer: Peer)
    requires Same(s, t, v)
    ensures PeerAllowed(t, peer) == PeerAllowed(s, peer)
  {
  }

  lemma SameDenied(s: State, t: State, v: WorkerId)
    requires Same(s, t, v)
    ensures Same(s.(denied := s.denied + 1), t.(denied := t.denied + 1), v)
  {
  }

  lemma SamePut(s: State, t: State, v: WorkerId, w: WorkerId, stage: Worker)
    requires Same(s, t, v)
    ensures Same(s.(workers := s.workers[w := stage]), t.(workers := t.workers[w := stage]), v)
  {
  }

  lemma SameFinish(s: State, t: State, v: WorkerId, w: WorkerId)
    requires Same(s, t, v) && w != v
    ensures Same(Finish(s, w), Finish(t, w), v)
  {
  }

  lemma SameSet(s: State, t: State, v: WorkerId, r: Ref, session: Session, cancels: nat, bytes: nat)
    requires Same(s, t, v) && r < |s.sessions|
    ensures Same(SetSession(s, r, session).(cancelled := s.cancelled + cancels), SetSession(t, r, session).(cancelled := t.cancelled + cancels), v)
    ensures Same(SetSession(s, r, session).(served := s.served + bytes), SetSession(t, r, session).(served := t.served + bytes), v)
  {
  }

  lemma SameControlLocked(s: State, t: State, v: WorkerId, w: WorkerId)
    requires Wf(s) && Wf(t) && Same(s, t, v) && w != v
    ensures var (s', a) := ControlLocked(s, w); var (t', b) := ControlLocked(t, w); Same(s', t', v) && a == b
  {
    hide Same, Finish, SetSession, Wf;
    SameFields(s, t, v, w);
    if w in s.workers && s.workers[w].WantControl? {
      RefInRange(s, w);
      var c := s.workers[w];
      var session := s.sessions[c.ref];
      SameFinish(s, t, v, w);
      FinishKeeps(s, w);
      FinishKeeps(t, w);
      SameReplayed(Finish(s, w), Finish(t, w), v);
      var after := session.(state := Transition(session.state, c.op), lastSequence := c.sequence, lastOp := Some(c.op));
      var cancels := if after.state.Cancelled? && !session.state.Cancelled? then 1 else 0;
      SameSet(Finish(s, w), Finish(t, w), v, c.ref, after, cancels, 0);
    }
  }

  lemma SameReadGate(s: State, t: State, v: WorkerId, w: WorkerId, timedOut: bool)
    requires Wf(s) && Wf(t) && Same(s, t, v) && w != v
    ensures var (s', a) := ReadGate(s, w, timedOut); var (t', b) := ReadGate(t, w, timedOut); Same(s', t', v) && a == b
  {
    hide Same, PeerAllowed, Finish, SetSession, Wf;
    SameFields(s, t, v, w);
    if w in s.workers && s.workers[w].AtGate? {
      RefInRange(s, w);
      var g := s.workers[w];
      SameTrust(s, t, v, g.peer);
      SameFinish(s, t, v, w);
      SamePut(s, t, v, w, g.(waited := true));
      SamePut(s, t, v, w, AtSource(g.ref, g.peer, g.offset, g.requested));
      FinishKeeps(s, w);
      FinishKeeps(t, w);
      SameSet(Finish(s, w), Finish(t, w), v, g.ref, s.sessions[g.ref].(state := Cancelled), 1, 0);
    }
  }

  lemma FinishKeeps(s: State, w: WorkerId)
    ensures var t := Finish(s, w);
      t.sessions == s.sessions && t.cancelled == s.cancelled && t.served == s.served && t.replayed == s.replayed
  {
  }

  lemma SameReadCommit(s: State, t: State, v: WorkerId, w: WorkerId)
    requires Wf(s) && Wf(t) && Same(s, t, v) && w != v
    ensures var (s', a) := ReadCommit(s, w); var (t', b) := ReadCommit(t, w); Same(s', t', v) && a == b
  {
    hide Same, PeerAllowed, Finish, SetSession, Wf, Coverage.Noted;
    SameFields(s, t, v, w);
    if w in s.workers && s.workers[w].AtCommit? {
      RefInRange(s, w);
      var c := s.workers[w];
      var session := s.sessions[c.ref];
      SameTrust(s, t, v, c.peer);
      SameFinish(s, t, v, w);
      FinishKeeps(s, w);
      FinishKeeps(t, w);
      var noted := session.(cover := Coverage.Noted(session.cover, c.offset, |c.bytes|),
                            notes := session.notes + [Coverage.NoteCall(c.offset, |c.bytes|)]);
      SameSet(Finish(s, w), Finish(t, w), v, c.ref, session.(state := Cancelled), 1, 0);
      SameSet(Finish(s, w), Finish(t, w), v, c.ref, noted, 0, |c.bytes|);
    }
  }

  lemma SameAuthStep(s: State, t: State, v: WorkerId, step: Step)
    requires Wf(s) && Wf(t) && Same(s, t, v) && Mover(step) != Some(v)
    requires step.DoControlAuth? || step.DoReadAuth?
    ensures var (s', a) := Apply(s, step); var (t', b) := Apply(t, step); Same(s', t', v) && a == b
  {
    hide Authenticate, Wf;
    SameAuthenticate(s, t, v, step.peer, step.creds);
    AuthenticateWorkers(s, step.peer, step.creds);
    AuthenticateWorkers(t, step.peer, step.creds);
  }

  lemma SameRetain(s: State, t: State, v: WorkerId, now: nat)
    requires Wf(s) && Wf(t) && Same(s, t, v)
    ensures Same(Retain(s, now), Retain(t, now), v)
  {
  }

  lemma SameStep(s: State, t: State, v: WorkerId, step: Step)
    requires Wf(s) && Wf(t) && Same(s, t, v) && Mover(step) != Some(v)
    ensures var (s', a) := Apply(s, step); var (t', b) := Apply(t, step); Same(s', t', v) && a == b
  {
    hide Wf, BeginCheck, BeginLocked, ControlAuth, ControlLocked, ReadAuth, ReadGate, ReadSource, ReadCommit, Retain, CancelPeer;
    match step
    case Tick(_) =>
    case SetTrust(_) =>
    case CleanUp(seenAt) => SameRetain(s, t, v, seenAt);
    case DropPeer(peer) => SameCancelPeer(s, t, v, peer);
    case DoBeginCheck(w, peer, offer, file, nonce) => SameBeginCheck(s, t, v, w, peer, offer, file, nonce);
    case DoBeginLocked(w, id, capability, serverNonce) => SameBeginLocked(s, t, v, w, id, capability, serverNonce);
    case DoControlAuth(_, _, _, _, _) => SameAuthStep(s, t, v, step);
    case DoReadAuth(_, _, _, _, _) => SameAuthStep(s, t, v, step);
    case DoControlLocked(w) => SameControlLocked(s, t, v, w);
    case DoReadGate(w, timedOut) => SameReadGate(s, t, v, w, timedOut);
    case DoReadSource(w, outcome) => SameReadSource(s, t, v, w, outcome);
    case DoReadCommit(w) => SameReadCommit(s, t, v, w);
  }

  ghost predicate NeverMoves(steps: seq<Step>, v: WorkerId) {
    forall i | 0 <= i < |steps| :: Mover(steps[i]) != Some(v)
  }

  lemma {:induction false} SameRun(s: State, t: State, v: WorkerId, steps: seq<Step>)
    requires Wf(s) && Wf(t) && Same(s, t, v) && NeverMoves(steps, v)
    ensures Same(Run(s, steps), Run(t, steps), v)
    ensures (v in Run(t, steps).workers <==> v in t.workers) && (v in t.workers ==> Run(t, steps).workers[v] == t.workers[v])
    decreases |steps|
  {
    if steps != [] {
      SameStep(s, t, v, steps[0]);
      if Mover(steps[0]).Some? {
        OthersUntouched(t, steps[0], Mover(steps[0]).value);
      } else {
        NobodyMoves(t, steps[0]);
      }
      hide Apply, Same, Wf;
      SameRun(Apply(s, steps[0]).0, Apply(t, steps[0]).0, v, steps[1..]);
    }
  }

  /** Authenticating this peer costs no session its life: it is allowed, or has
      no active session to lose. */
  predicate Harmless(s: State, peer: Peer) {
    PeerAllowed(s, peer) || LostRefs(s, peer) == {}
  }

  /** Accepted credentials belong to a session that has processed this control. */
  predicate AcceptedIsProcessed(s: State, peer: Peer, creds: Credentials, sequence: nat, op: ControlOp)
    requires Wf(s)
  {
    var found := Authenticate(s, peer, creds).1;
    found.Some? ==> found.value < |s.sessions| && Processed(s.sessions[found.value], sequence, op)
  }

  /** A duplicate of a processed control message, inserted anywhere with its
      two halves at any distance, leaves the rest of the run as it was. */
  lemma DuplicateControl(s: State, v: WorkerId, peer: Peer, creds: Credentials, sequence: nat, op: ControlOp,
                         between: seq<Step>, after: seq<Step>)
    requires Inv(s) && Wf(s) && v !in s.workers && Harmless(s, peer)
    requires NeverMoves(between, v) && NeverMoves(after, v)
    requires AcceptedIsProcessed(s, peer, creds, sequence, op)
    ensures Same(Run(s, between + after),
                 Run(s, [DoControlAuth(v, peer, creds, sequence, op)] + between + [DoControlLocked(v)] + after), v)
  {
    hide Core, Run, Apply, Same, Processed, Wf, Harmless, AcceptedIsProcessed;
    var first, second := DoControlAuth(v, peer, creds, sequence, op), DoControlLocked(v);
    var t := Apply(s, first).0;
    DuplicateAuth(s, v, peer, creds, sequence, op);
    SameRun(s, t, v, between);
    var x, y := Run(s, between), Run(t, between);
    if v in t.workers {
      ProcessedStays(t, between, t.workers[v].ref, sequence, op);
    }
    DuplicateLocked(y, v, sequence, op);
    var z := Apply(y, second).0;
    SameTrans(x, y, z, v);
    SameRun(x, z, v, after);
    RunAppend(s, between, after);
    RunAround(s, first, between, second, after);
  }

  /** That is the exact condition: otherwise the duplicate alone cancels every
      active session of the peer. */
  lemma DuplicateExactly(s: State, v: WorkerId, peer: Peer, creds: Credentials, sequence: nat, op: ControlOp)
    requires Inv(s) && Wf(s) && v !in s.workers && AcceptedIsProcessed(s, peer, creds, sequence, op)
    ensures Same(s, Run(s, [DoControlAuth(v, peer, creds, sequence, op), DoControlLocked(v)]), v) <==> Harmless(s, peer)
    ensures !Harmless(s, peer) ==>
      forall r | r in LostRefs(s, peer) ::
        && Active(s.sessions[r].state)
        && r < |Run(s, [DoControlAuth(v, peer, creds, sequence, op), DoControlLocked(v)]).sessions|
        && Run(s, [DoControlAuth(v, peer, creds, sequence, op), DoControlLocked(v)]).sessions[r].state == Cancelled
  {
    hide Run, Inv, Apply, Wf, Harmless, AcceptedIsProcessed, LostRefs, PeerAllowed, Same;
    var first, second := DoControlAuth(v, peer, creds, sequence, op), DoControlLocked(v);
    TwoSteps(s, first, second);
    HarmlessMeans(s, peer);
    if Harmless(s, peer) {
      var none: seq<Step> := [];
      DuplicateControl(s, v, peer, creds, sequence, op, none, none);
      assert [first] + none + [second] + none == [first, second] && none + none == none;
      NoSteps(s);
    } else {
      DeniedControl(s, v, peer, creds, sequence, op);
      SameSessions(s, Run(s, [first, second]), v);
    }
  }

  lemma HarmlessMeans(s: State, peer: Peer)
    ensures Harmless(s, peer) <==> PeerAllowed(s, peer) || LostRefs(s, peer) == {}
  {
  }

  lemma SameSessions(s: State, t: State, v: WorkerId)
    ensures Same(s, t, v) ==> t.sessions == s.sessions
  {
  }

  lemma NoSteps(s: State)
    requires Wf(s)
    ensures Run(s, []) == s
  {
  }

  lemma TwoSteps(s: State, a: Step, b: Step)
    requires Wf(s)
    ensures Run(s, [a, b]) == Apply(Apply(s, a).0, b).0
  {
    hide Apply, Wf;
    assert [a, b][1..] == [b] && [b][1..] == [];
    assert Run(Apply(s, a).0, [b]) == Run(Apply(Apply(s, a).0, b).0, []);
  }

  lemma DeniedControl(s: State, v: WorkerId, peer: Peer, creds: Credentials, sequence: nat, op: ControlOp)
    requires Wf(s) && v !in s.workers && !PeerAllowed(s, peer) && LostRefs(s, peer) != {}
    ensures var t := Apply(Apply(s, DoControlAuth(v, peer, creds, sequence, op)).0, DoControlLocked(v)).0;
      && t.sessions == CancelPeer(s, peer).sessions && t.sessions != s.sessions
      && forall r | r in LostRefs(s, peer) ::
           Active(s.sessions[r].state) && r < |t.sessions| && t.sessions[r].state == Cancelled
  {
    var t := Apply(s, DoControlAuth(v, peer, creds, sequence, op)).0;
    assert t.sessions == CancelPeer(s, peer).sessions && v !in t.workers;
    var lost :| lost in LostRefs(s, peer);
    assert t.sessions[lost] != s.sessions[lost];
  }

  lemma SameTrans(s: State, t: State, u: State, v: WorkerId)
    requires Same(s, t, v) && Same(t, u, v)
    ensures Same(s, u, v)
  {
  }

  lemma NothingLost(s: State, peer: Peer)
    requires LostRefs(s, peer) == {}
    ensures CancelPeer(s, peer) == s
  {
    hide LosesPeer;
    forall r | 0 <= r < |s.sessions| ensures !LosesPeer(s, peer, r) {
      assert r !in LostRefs(s, peer);
    }
    assert CancelPeer(s, peer).sessions == s.sessions;
  }

  lemma DuplicateAuth(s: State, v: WorkerId, peer: Peer, creds: Credentials, sequence: nat, op: ControlOp)
    requires Wf(s) && v !in s.workers && Harmless(s, peer) && AcceptedIsProcessed(s, peer, creds, sequence, op)
    ensures var t := Apply(s, DoControlAuth(v, peer, creds, sequence, op)).0;
      && Same(s, t, v)
      && (v in t.workers ==>
            && t.workers[v].WantControl? && t.workers[v].sequence == sequence && t.workers[v].op == op
            && t.workers[v].ref < |t.sessions| && Processed(t.sessions[t.workers[v].ref], sequence, op))
  {
    hide Processed, CancelPeer, Wf;
    HarmlessAuth(s, v, peer, creds);
    hide Authenticate, Harmless, PeerAllowed;
  }

  lemma HarmlessAuth(s: State, v: WorkerId, peer: Peer, creds: Credentials)
    requires Wf(s) && Harmless(s, peer)
    ensures var a := Authenticate(s, peer, creds).0;
      a == s.(denied := a.denied) && a.workers == s.workers
  {
    hide CancelPeer, LostRefs;
    if !PeerAllowed(s, peer) {
      LostAlike(s, peer);
      NothingLost(s.(denied := s.denied + 1), peer);
    }
  }

  lemma LostAlike(s: State, peer: Peer)
    ensures LostRefs(s.(denied := s.denied + 1), peer) == LostRefs(s, peer)
  {
  }

  lemma DuplicateLocked(s: State, v: WorkerId, sequence: nat, op: ControlOp)
    requires Wf(s)
    requires v in s.workers ==>
      && s.workers[v].WantControl? && s.workers[v].sequence == sequence && s.workers[v].op == op
      && s.workers[v].ref < |s.sessions| && Processed(s.sessions[s.workers[v].ref], sequence, op)
    ensures Same(s, Apply(s, DoControlLocked(v)).0, v)
  {
  }

  lemma RunAround(s: State, first: Step, a: seq<Step>, second: Step, b: seq<Step>)
    requires Wf(s)
    ensures Run(s, [first] + a + [second] + b) == Run(Apply(Run(Apply(s, first).0, a), second).0, b)
  {
    hide Apply, Wf;
    assert [first] + a + [second] + b == [first] + (a + ([second] + b));
    var rest := a + ([second] + b);
    assert ([first] + rest)[1..] == rest;
    RunAppend(Apply(s, first).0, a, [second] + b);
    assert ([second] + b)[1..] == b;
  }

  /** The same, stated from the moment the original message was processed. */
  lemma DuplicateAnywhere(s: State, w: WorkerId, steps: seq<Step>, v: WorkerId, peer: Peer,
                          between: seq<Step>, after: seq<Step>)
    requires Inv(s) && w in s.workers && s.workers[w].WantControl? && ControlLocked(s, w).1.Status?
    requires NeverMoves(between, v) && NeverMoves(after, v)
    requires var c := s.workers[w]; var creds := s.sessions[c.ref].creds;
      var t := Run(ControlLocked(s, w).0, steps);
      && v !in t.workers && Harmless(t, peer)
      && (Authenticate(t, peer, creds).1.Some? ==> Authenticate(t, peer, creds).1.value == c.ref)
    ensures var c := s.workers[w]; var creds := s.sessions[c.ref].creds;
      var t := Run(ControlLocked(s, w).0, steps);
      Same(Run(t, between + after),
           Run(t, [DoControlAuth(v, peer, creds, c.sequence, c.op)] + between + [DoControlLocked(v)] + after), v)
  {
    hide Inv, Same, NeverMoves, ControlLocked, Processed, Run, Wf, Core, Apply, Harmless, Authenticate;
    var c := s.workers[w];
    InvWf(s);
    var s1 := ControlLocked(s, w).0;
    RefInRange(s, w);
    ControlOnce(s, w);
    InvWf(s1);
    ProcessedStays(s1, steps, c.ref, c.sequence, c.op);
    InvRun(s1, steps);
    DuplicateControl(Run(s1, steps), v, peer, s.sessions[c.ref].creds, c.sequence, c.op, between, after);
  }

  lemma ControlOnce(s: State, w: WorkerId)
    requires Inv(s) && w in s.workers && s.workers[w].WantControl? && ControlLocked(s, w).1.Status?
    ensures var c := s.workers[w]; var t := ControlLocked(s, w).0;
      Inv(t) && c.ref < |t.sessions| && Processed(t.sessions[c.ref], c.sequence, c.op)
  {
    hide Inv, Core, Wf, ControlLocked, Apply;
    InvWf(s);
    InvStep(s, DoControlLocked(w));
    RefInRange(s, w);
    ReplayExactly(s, w);
    ControlKeepsLength(s, w);
  }

  lemma ControlKeepsLength(s: State, w: WorkerId)
    requires Wf(s)
    ensures Apply(s, DoControlLocked(w)).0 == ControlLocked(s, w).0 && |ControlLocked(s, w).0.sessions| == |s.sessions|
  {
  }

  // ------------------------------------------------------ which controls are replays

  /** The control that `step` applies to session `r`, if it does. */
  function AppliedBy(s: State, step: Step, r: Ref): Option<Numbered> {
    if step.DoControlLocked? && step.w in s.workers && s.workers[step.w].WantControl? && s.workers[step.w].ref == r
       && r < |s.sessions| && s.sessions[r].lastSequence < s.workers[step.w].sequence
    then Some(Numbered(s.workers[step.w].sequence, s.workers[step.w].op)) else None
  }

  datatype Numbered = Numbered(sequence: nat, op: ControlOp)

  /** All controls applied to session `r` in a run, in order. */
  function Applied(s: State, steps: seq<Step>, r: Ref): seq<Numbered>
    requires Wf(s)
    decreases |steps|
  {
    if steps == [] then []
    else
      var first, rest := AppliedBy(s, steps[0], r), Applied(Apply(s, steps[0]).0, steps[1..], r);
      if first.Some? then [first.value] + rest else rest
  }

  /** The control history is the same, and so is the state unless cancelled. */
  predicate SameControls(a: Session, b: Session) {
    a.lastSequence == b.lastSequence && a.lastOp == b.lastOp && (b.state == a.state || b.state.Cancelled?)
  }

  predicate Untouched(a: Session, b: Session) {
    SameControls(a, b) && b.cover == a.cover && b.notes == a.notes
  }

  /** No session processed a control, or counted a range. */
  predicate NoControls(s: State, t: State) {
    |s.sessions| <= |t.sessions| && forall r | 0 <= r < |s.sessions| :: Untouched(s.sessions[r], t.sessions[r])
  }

  lemma CancelNoControls(s: State, peer: Peer)
    ensures NoControls(s, CancelPeer(s, peer))
  {
  }

  lemma AuthNoControls(s: State, peer: Peer, creds: Credentials)
    requires Wf(s)
    ensures NoControls(s, Authenticate(s, peer, creds).0)
  {
    hide CancelPeer, Wf, PeerAllowed;
    CancelNoControls(s.(denied := s.denied + 1), peer);
  }

  lemma BeginNoControls(s: State, w: WorkerId, id: TransferId, capability: Secret, serverNonce: Secret)
    requires Wf(s)
    ensures NoControls(s, BeginLocked(s, w, id, capability, serverNonce).0)
  {
    hide Wf, Full;
  }

  lemma GateNoControls(s: State, w: WorkerId, timedOut: bool)
    requires Wf(s)
    ensures NoControls(s, ReadGate(s, w, timedOut).0)
  {
    hide PeerAllowed;
  }

  lemma SourceNoControls(s: State, w: WorkerId, outcome: SourceOutcome)
    requires Wf(s)
    ensures NoControls(s, ReadSource(s, w, outcome).0)
  {
    hide PeerAllowed, CancelPeer, SourceBytes;
    if w in s.workers && s.workers[w].AtSource? {
      var x := Finish(s, w);
      CancelNoControls(x.(denied := x.denied + 1), s.workers[w].peer);
    }
  }

  lemma CommitNoControls(s: State, w: WorkerId)
    requires Wf(s)
    ensures var t := ReadCommit(s, w).0;
      && |t.sessions| == |s.sessions|
      && forall r | 0 <= r < |s.sessions| ::
           && SameControls(s.sessions[r], t.sessions[r])
           && (t.sessions[r] != s.sessions[r] ==> w in s.workers && s.workers[w].AtCommit? && s.workers[w].ref == r)
  {
    hide PeerAllowed, Coverage.Noted;
  }

  lemma CheckNoControls(s: State, w: WorkerId, peer: Peer, offer: nat, file: FileId, nonce: Nonce)
    requires Wf(s)
    ensures NoControls(s, BeginCheck(s, w, peer, offer, file, nonce).0)
  {
    hide PeerAllowed, CancelPeer;
    CancelNoControls(s.(denied := s.denied + 1), peer);
  }

  /** Only the locked half of a control moves a session's control history, and
      only the commit of a read what it counted. */
  lemma OnlyControls(s: State, step: Step)
    requires Wf(s) && !step.DoControlLocked? && !step.DoReadCommit?
    ensures NoControls(s, Apply(s, step).0)
  {
    hide Wf, BeginCheck, BeginLocked, Authenticate, ReadGate, ReadSource, ReadCommit, CancelPeer;
    match step
    case Tick(_) =>
    case SetTrust(_) =>
    case CleanUp(_) =>
    case DropPeer(peer) => CancelNoControls(s, peer);
    case DoBeginCheck(w, peer, offer, file, nonce) => CheckNoControls(s, w, peer, offer, file, nonce);
    case DoBeginLocked(w, id, capability, serverNonce) => BeginNoControls(s, w, id, capability, serverNonce);
    case DoControlAuth(_, peer, creds, _, _) => AuthNoControls(s, peer, creds);
    case DoReadAuth(_, peer, creds, _, _) => AuthNoControls(s, peer, creds);
    case DoReadGate(w, timedOut) => GateNoControls(s, w, timedOut);
    case DoReadSource(w, outcome) => SourceNoControls(s, w, outcome);
  }

  predicate Increasing(controls: seq<Numbered>) {
    forall i, j | 0 <= i < j < |controls| :: controls[i].sequence < controls[j].sequence
  }

  predicate Above(controls: seq<Numbered>, n: nat) {
    forall i | 0 <= i < |controls| :: n < controls[i].sequence
  }

  /** `b` remembers the last of the controls, or what `a` did if there is none. */
  predicate Remembers(a: Session, controls: seq<Numbered>, b: Session) {
    if controls == [] then SameControls(a, b)
    else b.lastSequence == controls[|controls| - 1].sequence && b.lastOp == Some(controls[|controls| - 1].op)
  }

  lemma IncreasingCons(x: Numbered, rest: seq<Numbered>, n: nat)
    requires Increasing(rest) && Above(rest, x.sequence) && n < x.sequence
    ensures Increasing([x] + rest) && Above([x] + rest, n)
  {
    var all := [x] + rest;
    forall i, j | 0 <= i < j < |all| ensures all[i].sequence < all[j].sequence {
      assert all[j] == rest[j - 1];
    }
    forall i | 0 <= i < |all| ensures n < all[i].sequence {
      assert i > 0 ==> all[i] == rest[i - 1];
    }
  }

  lemma AboveLess(controls: seq<Numbered>, m: nat, n: nat)
    requires Above(controls, m) && n <= m
    ensures Above(controls, n)
  {
  }

  lemma RemembersCons(a: Session, x: Numbered, b: Session, rest: seq<Numbered>, c: Session)
    requires b.lastSequence == x.sequence && b.lastOp == Some(x.op) && Remembers(b, rest, c)
    ensures Remembers(a, [x] + rest, c)
  {
    var all := [x] + rest;
    assert rest != [] ==> all[|all| - 1] == rest[|rest| - 1];
  }

  lemma RemembersSame(a: Session, b: Session, rest: seq<Numbered>, c: Session)
    requires SameControls(a, b) && Remembers(b, rest, c)
    ensures Remembers(a, rest, c)
  {
  }

  lemma AppliedStep(s: State, step: Step, r: Ref)
    requires Wf(s) && r < |s.sessions|
    ensures var t := Apply(s, step).0; var applied := AppliedBy(s, step, r);
      && r < |t.sessions|
      && if applied.None? then SameControls(s.sessions[r], t.sessions[r])
         else s.sessions[r].lastSequence < applied.value.sequence == t.sessions[r].lastSequence
              && t.sessions[r].lastOp == Some(applied.value.op)
  {
    if step.DoControlLocked? {
      hide Wf;
      if step.w in s.workers && s.workers[step.w].WantControl? {
        RefInRange(s, step.w);
      }
    } else if step.DoReadCommit? {
      CommitNoControls(s, step.w);
      hide Wf, ReadCommit;
    } else {
      OnlyControls(s, step);
      hide Apply, Wf;
    }
  }

  /** Over any run the sequence numbers of the applied controls strictly
      increase, above what was applied before, and the last of them is what the
      session remembers. */
  lemma {:induction false} AppliedHistory(s: State, steps: seq<Step>, r: Ref)
    requires Wf(s) && r < |s.sessions|
    ensures var t := Run(s, steps); var applied := Applied(s, steps, r);
      && r < |t.sessions| && Increasing(applied) && Above(applied, s.sessions[r].lastSequence)
      && Remembers(s.sessions[r], applied, t.sessions[r])
    decreases |steps|
  {
    if steps != [] {
      hide Apply, Wf, AppliedBy, Remembers, Increasing, Above;
      var t, step, a := Apply(s, steps[0]).0, AppliedBy(s, steps[0], r), s.sessions[r];
      AppliedStep(s, steps[0], r);
      AppliedHistory(t, steps[1..], r);
      var b, rest, c := t.sessions[r], Applied(t, steps[1..], r), Run(t, steps[1..]).sessions[r];
      if step.Some? {
        IncreasingCons(step.value, rest, a.lastSequence);
        RemembersCons(a, step.value, b, rest, c);
      } else {
        AboveLess(rest, b.lastSequence, a.lastSequence);
        RemembersSame(a, b, rest, c);
      }
    }
  }

  /** The locked half of a control: refused, as a replay, if and only if its
      number is not above the last and it is not the last control again. */
  lemma ReplayExactly(s: State, w: WorkerId)
    requires Wf(s) && w in s.workers && s.workers[w].WantControl?
    ensures var c := s.workers[w]; var session := s.sessions[c.ref]; var (t, reply) := ControlLocked(s, w);
      var replayed := c.sequence <= session.lastSequence && !(c.sequence == session.lastSequence && session.lastOp == Some(c.op));
      && (reply == Refused(Replay) <==> replayed)
      && (c.sequence <= session.lastSequence ==> t.sessions == s.sessions)
      && (!replayed ==> reply == StatusOf(t.sessions[c.ref]) && t.sessions[c.ref].lastSequence == c.sequence
                        && t.sessions[c.ref].lastOp == Some(c.op))
  {
    hide Wf;
    RefInRange(s, w);
  }

  /** Over any run from a session's begin: a control is refused as a replay if
      and only if the session has meanwhile applied one with its number or a
      larger one, the last not being the same control. */
  lemma ReplayOverRuns(s: State, steps: seq<Step>, w: WorkerId)
    requires Wf(s)
    requires var t := Run(s, steps);
      && w in t.workers && t.workers[w].WantControl? && t.workers[w].ref < |s.sessions|
      && s.sessions[t.workers[w].ref].lastSequence == 0 && s.sessions[t.workers[w].ref].lastOp == None
      && t.workers[w].sequence > 0
    ensures var t := Run(s, steps); var c := t.workers[w]; var applied := Applied(s, steps, c.ref);
      ControlLocked(t, w).1 == Refused(Replay) <==>
      && (exists i :: 0 <= i < |applied| && applied[i].sequence >= c.sequence)
      && applied[|applied| - 1] != Numbered(c.sequence, c.op)
  {
    hide ControlLocked, Run, Wf, Applied;
    var t := Run(s, steps);
    var c := t.workers[w];
    AppliedHistory(s, steps, c.ref);
    ReplayExactly(t, w);
    var applied := Applied(s, steps, c.ref);
    if i :| 0 <= i < |applied| && applied[i].sequence >= c.sequence {
      assert applied[|applied| - 1].sequence >= applied[i].sequence;
    }
  }

  /** A control whose number was taken before that of a pause, on a session that
      applied no other: refused if and only if the pause was applied first, and
      processed otherwise. */
  lemma OvertakenByPause(s: State, steps: seq<Step>, w: WorkerId)
    requires Wf(s)
    requires var t := Run(s, steps);
      && w in t.workers && t.workers[w].WantControl? && t.workers[w].ref < |s.sessions|
      && s.sessions[t.workers[w].ref].lastSequence == 0 && s.sessions[t.workers[w].ref].lastOp == None
      && t.workers[w].sequence > 0
      && forall e | e in Applied(s, steps, t.workers[w].ref) :: e == Numbered(t.workers[w].sequence + 1, Pause)
    ensures var t := Run(s, steps); var c := t.workers[w]; var (u, reply) := ControlLocked(t, w);
      if Numbered(c.sequence + 1, Pause) in Applied(s, steps, c.ref) then reply == Refused(Replay) && u.sessions == t.sessions
      else reply == StatusOf(u.sessions[c.ref]) && Processed(u.sessions[c.ref], c.sequence, c.op)
  {
    var t := Run(s, steps);
    var c := t.workers[w];
    AppliedHistory(s, steps, c.ref);
    ReplayExactly(t, w);
    hide ControlLocked, Run, Wf, Applied;
    var applied := Applied(s, steps, c.ref);
    if applied != [] {
      assert applied[|applied| - 1] in applied;
    }
  }

  // ---------------------------------------------------- conservation of progress

  /** A session's progress never exceeds its file; reaching the size means every
      offset was served, and, short of saturation, the other way round. */
  lemma Progress(s: State, r: Ref)
    requires Inv(s) && r < |s.sessions|
    ensures var session := s.sessions[r]; var size := |s.cfg.files[session.creds.file]|;
      var served := Coverage.Union(session.notes); var all := Coverage.Span(0, size);
      && served <= all
      && session.cover.unique <= size
      && (session.cover.unique == size ==> served == all)
      && (served == all && !session.cover.saturated ==> session.cover.unique == size)
  {
    var session := s.sessions[r];
    CoreSession(s, r);
    var size := |s.cfg.files[session.creds.file]|;
    SessionProgress(session, size);
  }

  lemma {:induction false} NotesInside(notes: seq<Coverage.NoteCall>, size: nat)
    requires forall i | 0 <= i < |notes| :: NoteInside(notes[i], size)
    ensures Coverage.Union(notes) <= Coverage.Span(0, size)
  {
    if notes != [] {
      var init, last := notes[..|notes| - 1], notes[|notes| - 1];
      NotesInside(init, size);
      assert NoteInside(last, size);
    }
  }

  lemma SessionProgress(session: Session, size: nat)
    requires session.cover == Coverage.NoteAll(session.notes)
    requires forall i | 0 <= i < |session.notes| :: NoteInside(session.notes[i], size)
    ensures var served := Coverage.Union(session.notes); var all := Coverage.Span(0, size);
      && served <= all
      && session.cover.unique <= size
      && (session.cover.unique == size ==> served == all)
      && (served == all && !session.cover.saturated ==> session.cover.unique == size)
  {
    hide Coverage.Valid, Coverage.NoteAll, Coverage.Union, Coverage.Offsets, NoteInside;
    var served, all := Coverage.Union(session.notes), Coverage.Span(0, size);
    Coverage.NoteAllMeaning(session.notes);
    Coverage.SpanSize(0, size);
    NotesInside(session.notes, size);
    SubsetSize(served, all);
    if session.cover.unique == size {
      FullSubset(served, all);
    }
  }

  lemma FullSubset<T>(a: set<T>, b: set<T>)
    requires a <= b && |a| == |b|
    ensures a == b
  {
    assert b == a + (b - a);
    assert |b - a| == 0;
  }

  /** `ServerState::unique_bytes`: the sum over the sessions still in the table. */
  function LiveUnique(s: State, n: nat): nat
    requires n <= |s.sessions|
  {
    if n == 0 then 0
    else LiveUnique(s, n - 1) + if Live(s, n - 1) then s.sessions[n - 1].cover.unique else 0
  }

  lemma {:induction false} LiveAtMostAll(s: State, n: nat)
    requires n <= |s.sessions|
    ensures LiveUnique(s, n) <= SumUnique(s.sessions[..n])
  {
    if n > 0 {
      LiveAtMostAll(s, n - 1);
      assert s.sessions[..n][..n - 1] == s.sessions[..n - 1];
    }
  }

  /** Every state a server can be in. */
  ghost predicate Reaches(cfg: Config, trusted: set<Peer>, steps: seq<Step>, s: State) {
    s == Run(Initial(cfg, trusted), steps)
  }

  lemma ReachedInv(cfg: Config, trusted: set<Peer>, steps: seq<Step>, s: State)
    requires Reaches(cfg, trusted, steps, s)
    ensures Inv(s)
  {
    InvInitial(cfg, trusted);
    InvRun(Initial(cfg, trusted), steps);
  }

  /** Progress reported never exceeds the bytes sent, whatever was repeated,
      overlapped, cancelled or expired on the way. */
  lemma Conservation(cfg: Config, trusted: set<Peer>, steps: seq<Step>, s: State)
    requires Reaches(cfg, trusted, steps, s)
    ensures LiveUnique(s, |s.sessions|) <= s.served
  {
    ReachedInv(cfg, trusted, steps, s);
    hide Reaches, Run;
    LiveAtMostAll(s, |s.sessions|);
    assert s.sessions[..|s.sessions|] == s.sessions;
  }

  /** The two tables are equally large and within their limits, and every
      session ever cancelled was counted once. */
  lemma Counters(cfg: Config, trusted: set<Peer>, steps: seq<Step>, s: State)
    requires Reaches(cfg, trusted, steps, s)
    ensures |s.nonces| == |s.transfers| <= MAX_BEGIN_NONCES
    ensures |ActiveIds(s)| <= MAX_ACTIVE_TRANSFERS
    ensures s.cancelled == |CancelledRefs(s)|
  {
    ReachedInv(cfg, trusted, steps, s);
    hide Reaches, Run;
    NoncesCounted(s);
  }

  /** No session ever reports more than its file, and one that reports all of
      it has served every offset. */
  lemma ReachedProgress(cfg: Config, trusted: set<Peer>, steps: seq<Step>, s: State, r: Ref)
    requires Reaches(cfg, trusted, steps, s) && r < |s.sessions|
    ensures var session := s.sessions[r];
      && session.creds.file in s.cfg.files
      && session.cover.unique <= |s.cfg.files[session.creds.file]|
      && (session.cover.unique == |s.cfg.files[session.creds.file]| ==>
            Coverage.Union(session.notes) == Coverage.Span(0, session.cover.unique))
  {
    hide Reaches, Inv, Run, Coverage.Union;
    ReachedInv(cfg, trusted, steps, s);
    InvWf(s);
    hide Core;
    CoreFile(s, r);
    Progress(s, r);
  }

  lemma CoreFile(s: State, r: Ref)
    requires Core(s) && r < |s.sessions|
    ensures s.sessions[r].creds.file in s.cfg.files
  {
  }
}
