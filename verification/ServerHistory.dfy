/** What any step, and so any run, of the server leaves true of its past:
    the relation `Later` between two states of one run. */
module ServerHistory {
  import opened Common
  import opened ServerModel
  import Coverage

  /** `b` is session `a` some steps later. Cancellation freezes the coverage,
      Cancelled and Completed are never left, control sequence numbers only
      grow, and a sequence number keeps its opcode. */
  ghost predicate SessionLater(a: Session, b: Session) {
    && b.peer == a.peer && b.creds == a.creds && b.expires == a.expires
    && (a.state.Cancelled? ==> b.state.Cancelled? && b.cover == a.cover && b.notes == a.notes)
    && (a.state.Completed? ==> b.state.Completed?)
    && a.lastSequence <= b.lastSequence
    && (a.lastSequence == b.lastSequence ==> a.lastOp == b.lastOp)
    && a.notes <= b.notes
  }

  ghost predicate Later(s: State, t: State) {
    && t.cfg == s.cfg
    && s.clock <= t.clock && s.cancelled <= t.cancelled && s.served <= t.served
    && |s.sessions| <= |t.sessions|
    && (forall r | 0 <= r < |s.sessions| :: SessionLater(s.sessions[r], t.sessions[r]))
    && (forall id | id in s.transfers && s.transfers[id] < |s.sessions| ::
          (id in t.transfers && t.transfers[id] == s.transfers[id]) || s.sessions[s.transfers[id]].expires <= t.clock)
    && (forall n | n in s.nonces ::
          (n in t.nonces && t.nonces[n] == s.nonces[n]) || s.nonces[n].expires <= t.clock)
  }

  lemma LaterTrans(s: State, t: State, u: State)
    requires Later(s, t) && Later(t, u)
    ensures Later(s, u)
  {
    forall r | 0 <= r < |s.sessions| ensures SessionLater(s.sessions[r], u.sessions[r]) {
      assert SessionLater(s.sessions[r], t.sessions[r]) && SessionLater(t.sessions[r], u.sessions[r]);
    }
  }

  /** A step that touches neither table and moves one session forward. */
  lemma SetSessionLater(s: State, t: State, r: Ref, session: Session)
    requires r < |s.sessions| && SessionLater(s.sessions[r], session)
    requires t.sessions == s.sessions[r := session] && t.transfers == s.transfers && t.nonces == s.nonces
    requires t.cfg == s.cfg && t.clock == s.clock && s.cancelled <= t.cancelled && s.served <= t.served
    ensures Later(s, t)
  {
  }

  /** A step that moves no session and touches neither table. */
  lemma UnchangedLater(s: State, t: State)
    requires t.sessions == s.sessions && t.transfers == s.transfers && t.nonces == s.nonces
    requires t.cfg == s.cfg && s.clock <= t.clock && s.cancelled <= t.cancelled && s.served <= t.served
    ensures Later(s, t)
  {
  }

  lemma RetainLater(s: State, now: nat)
    requires Wf(s) && now <= s.clock
    ensures Later(s, Retain(s, now))
  {
  }

  lemma CancelPeerLater(s: State, peer: Peer)
    ensures Later(s, CancelPeer(s, peer))
  {
  }

  lemma DenyLater(s: State, peer: Peer)
    ensures Later(s, Deny(s, peer))
  {
    CancelPeerLater(s.(denied := s.denied + 1), peer);
  }

  lemma OpenLater(s: State, nonce: Nonce, session: Session)
    requires Wf(s) && session.creds.file in s.cfg.files
    requires session.creds.transfer !in s.transfers && nonce !in s.nonces
    ensures Later(s, Open(s, nonce, session))
  {
  }

  lemma BeginLockedLater(s: State, w: WorkerId, id: TransferId, capability: Secret, serverNonce: Secret)
    requires Wf(s)
    ensures Later(s, BeginLocked(s, w, id, capability, serverNonce).0)
  {
    if w in s.workers && s.workers[w].WantBegin? && id !in s.transfers {
      var b := s.workers[w];
      RetainLater(s, b.seenAt);
      var kept := Retain(s, b.seenAt);
      var t := Finish(kept, w);
      UnchangedLater(kept, t);
      LaterTrans(s, kept, t);
      var u := BeginLocked(s, w, id, capability, serverNonce).0;
      if b.nonce !in t.nonces && !Full(t) {
        OpenLater(t, b.nonce, NewSession(b, s.cfg.ttl, id, capability, serverNonce));
      } else {
        UnchangedLater(t, u);
      }
      LaterTrans(s, t, u);
    } else {
      UnchangedLater(s, s);
    }
  }

  lemma AuthenticateLater(s: State, peer: Peer, creds: Credentials)
    requires Wf(s)
    ensures Later(s, Authenticate(s, peer, creds).0)
  {
    if PeerAllowed(s, peer) {
      UnchangedLater(s, Authenticate(s, peer, creds).0);
    } else {
      DenyLater(s, peer);
    }
  }

  lemma AuthStepLater(s: State, t: State, peer: Peer, creds: Credentials)
    requires Wf(s)
    requires var a := Authenticate(s, peer, creds).0; t == a.(workers := t.workers)
    ensures Later(s, t)
  {
    var a := Authenticate(s, peer, creds).0;
    AuthenticateLater(s, peer, creds);
    UnchangedLater(a, t);
    LaterTrans(s, a, t);
  }

  lemma ReadSourceLater(s: State, w: WorkerId, outcome: SourceOutcome)
    requires Wf(s)
    ensures Later(s, ReadSource(s, w, outcome).0)
  {
    var t := ReadSource(s, w, outcome).0;
    if w in s.workers && s.workers[w].AtSource? && !PeerAllowed(s, s.workers[w].peer) {
      UnchangedLater(s, Finish(s, w));
      DenyLater(Finish(s, w), s.workers[w].peer);
      LaterTrans(s, Finish(s, w), t);
    } else {
      UnchangedLater(s, t);
    }
  }

  lemma BeginCheckLater(s: State, w: WorkerId, peer: Peer, offer: nat, file: FileId, nonce: Nonce)
    requires Wf(s)
    ensures Later(s, BeginCheck(s, w, peer, offer, file, nonce).0)
  {
    if w !in s.workers && nonce != 0 && !PeerAllowed(s, peer) {
      DenyLater(s, peer);
    } else {
      UnchangedLater(s, BeginCheck(s, w, peer, offer, file, nonce).0);
    }
  }

  lemma RefInRange(s: State, w: WorkerId)
    requires Wf(s) && w in s.workers && HasRef(s.workers[w])
    ensures s.workers[w].ref < |s.sessions|
  {
  }

  lemma ControlLockedLater(s: State, w: WorkerId)
    requires Wf(s)
    ensures Later(s, ControlLocked(s, w).0)
  {
    hide Wf, Later;
    var t := ControlLocked(s, w).0;
    if w in s.workers && s.workers[w].WantControl? {
      RefInRange(s, w);
      var r := s.workers[w].ref;
      SetSessionLater(s, t, r, t.sessions[r]);
    } else {
      UnchangedLater(s, t);
    }
  }

  lemma ReadGateLater(s: State, w: WorkerId, timedOut: bool)
    requires Wf(s)
    ensures Later(s, ReadGate(s, w, timedOut).0)
  {
    hide Wf, Later, PeerAllowed;
    var t := ReadGate(s, w, timedOut).0;
    if w in s.workers && s.workers[w].AtGate? {
      RefInRange(s, w);
      var r := s.workers[w].ref;
      SetSessionLater(s, t, r, t.sessions[r]);
    } else {
      UnchangedLater(s, t);
    }
  }

  lemma CommitMoves(s: State, w: WorkerId)
    requires Wf(s) && w in s.workers && s.workers[w].AtCommit?
    ensures var t := ReadCommit(s, w).0; var r := s.workers[w].ref;
      && r < |s.sessions| == |t.sessions| && t.sessions == s.sessions[r := t.sessions[r]] && SessionLater(s.sessions[r], t.sessions[r])
      && t == s.(workers := s.workers - {w}, sessions := t.sessions, cancelled := t.cancelled, served := t.served)
      && s.cancelled <= t.cancelled && s.served <= t.served
  {
    hide Wf, Coverage.Noted, PeerAllowed, SessionLater;
    RefInRange(s, w);
    var a := s.workers[w];
    var session := s.sessions[a.ref];
    StillLater(session, a.offset, |a.bytes|);
    assert s.sessions == s.sessions[a.ref := session];
  }

  /** What a commit may make of a session. */
  lemma StillLater(session: Session, offset: nat, length: nat)
    ensures SessionLater(session, session)
    ensures Active(session.state) ==> SessionLater(session, session.(state := Cancelled))
    ensures !session.state.Cancelled? ==>
      SessionLater(session, session.(cover := Coverage.Noted(session.cover, offset, length),
                                     notes := session.notes + [Coverage.NoteCall(offset, length)]))
  {
    hide Coverage.Noted;
  }

  lemma ReadCommitLater(s: State, w: WorkerId)
    requires Wf(s)
    ensures Later(s, ReadCommit(s, w).0)
  {
    hide Wf, Later, SessionLater;
    var t := ReadCommit(s, w).0;
    if w in s.workers && s.workers[w].AtCommit? {
      CommitMoves(s, w);
      hide ReadCommit;
      var r := s.workers[w].ref;
      SetSessionLater(s, t, r, t.sessions[r]);
    } else {
      UnchangedLater(s, t);
    }
  }

  lemma StepLater(s: State, step: Step)
    requires Wf(s)
    ensures Later(s, Apply(s, step).0)
  {
    hide Later;
    var t := Apply(s, step).0;
    match step
    case Tick(_) => UnchangedLater(s, t);
    case SetTrust(_) => UnchangedLater(s, t);
    case CleanUp(seenAt) =>
      if seenAt <= s.clock {
        RetainLater(s, seenAt);
      } else {
        UnchangedLater(s, t);
      }
    case DropPeer(peer) => CancelPeerLater(s, peer);
    case DoBeginCheck(w, peer, offer, file, nonce) => BeginCheckLater(s, w, peer, offer, file, nonce);
    case DoBeginLocked(w, id, capability, serverNonce) => BeginLockedLater(s, w, id, capability, serverNonce);
    case DoControlAuth(w, peer, creds, _, _) =>
      if w in s.workers {
        UnchangedLater(s, t);
      } else {
        AuthStepLater(s, t, peer, creds);
      }
    case DoControlLocked(w) => ControlLockedLater(s, w);
    case DoReadAuth(w, peer, creds, _, requested) =>
      if w in s.workers || requested > MAX_RANGE_BYTES {
        UnchangedLater(s, t);
      } else {
        AuthStepLater(s, t, peer, creds);
      }
    case DoReadGate(w, timedOut) => ReadGateLater(s, w, timedOut);
    case DoReadSource(w, outcome) => ReadSourceLater(s, w, outcome);
    case DoReadCommit(w) => ReadCommitLater(s, w);
  }

  lemma {:induction false} RunLater(s: State, steps: seq<Step>)
    requires Wf(s)
    ensures Later(s, Run(s, steps))
    decreases |steps|
  {
    if steps != [] {
      var t := Apply(s, steps[0]).0;
      StepLater(s, steps[0]);
      RunLater(t, steps[1..]);
      LaterTrans(s, t, Run(s, steps));
    }
  }
}
