/** The offer server as the source has it: fields updated in place by methods,
    one method per lock region. Every method is proved against the function of
    ServerModel that specifies it. */
module Server {
  import opened Common
  import opened ServerModel
  import Coverage

  class ServerState {
    const cfg: Config
    var clock: nat
    var trusted: set<Peer>
    var sessions: seq<Session>
    var transfers: map<TransferId, Ref>
    var nonces: map<Nonce, NonceRecord>
    var workers: map<WorkerId, Worker>
    var served: nat
    var cancelled: nat
    var denied: nat
    var replayed: nat

    ghost function View(): State reads this {
      State(cfg, clock, trusted, sessions, transfers, nonces, workers, served, cancelled, denied, replayed)
    }

    constructor (cfg: Config, trusted: set<Peer>)
      ensures this.cfg == cfg && View() == Initial(cfg, trusted)
    {
      this.cfg := cfg;
      clock, this.trusted := 0, trusted;
      sessions, transfers, nonces, workers := [], map[], map[], map[];
      served, cancelled, denied, replayed := 0, 0, 0, 0;
    }

    method PeerIsAllowed(peer: Peer) returns (allowed: bool)
      ensures allowed == PeerAllowed(View(), peer)
    {
      allowed := peer == cfg.authorized && (!cfg.checksTrust || peer in trusted);
    }

    method CleanUpExpired(now: nat)
      requires Wf(View())
      modifies this`transfers, this`nonces
      ensures View() == Retain(old(View()), now)
    {
      transfers := map id | id in transfers && sessions[transfers[id]].expires > now :: transfers[id];
      nonces := map n | n in nonces && nonces[n].expires > now :: nonces[n];
    }

    method CancelPeerTransfers(peer: Peer)
      modifies this`sessions, this`cancelled
      ensures View() == CancelPeer(old(View()), peer)
    {
      hide LostBelow, CancelledBelow, CancelPeer;
      ghost var before := View();
      NoneLost(before, peer);
      for r := 0 to |sessions|
        invariant |sessions| == |before.sessions|
        invariant sessions == CancelledBelow(before, peer, r)
        invariant cancelled == before.cancelled + |LostBelow(before, peer, r)|
      {
        OneMore(before, peer, r);
        var session := sessions[r];
        var id := session.creds.transfer;
        if id in transfers && transfers[id] == r && session.peer == peer && (session.state.Running? || session.state.Paused?) {
          sessions := sessions[r := session.(state := Cancelled)];
          cancelled := cancelled + 1;
        }
      }
      AllLost(before, peer);
    }

    method EnsurePeerAllowed(peer: Peer) returns (allowed: bool)
      modifies this`sessions, this`cancelled, this`denied
      ensures allowed == PeerAllowed(old(View()), peer)
      ensures View() == if allowed then old(View()) else Deny(old(View()), peer)
    {
      allowed := PeerIsAllowed(peer);
      if !allowed {
        denied := denied + 1;
        CancelPeerTransfers(peer);
      }
    }

    method CheckBegin(w: WorkerId, peer: Peer, offer: nat, file: FileId, nonce: Nonce) returns (reply: Reply)
      requires Wf(View())
      modifies this
      ensures (View(), reply) == BeginCheck(old(View()), w, peer, offer, file, nonce)
    {
      if w in workers {
        return Pending;
      }
      if nonce == 0 {
        return Refused(Invalid);
      }
      var allowed := EnsurePeerAllowed(peer);
      if !allowed {
        return Refused(Denied);
      }
      if offer != cfg.offer || clock >= cfg.offerExpires {
        return Refused(Expired);
      }
      if file !in cfg.files {
        denied := denied + 1;
        return Refused(Denied);
      }
      workers := workers[w := WantBegin(peer, offer, file, nonce, clock)];
      return Pending;
    }

    /** The `filter(..).count()` over the sessions in the table. */
    method CountActive() returns (count: nat)
      requires Wf(View())
      ensures count == |ActiveIds(View())|
    {
      count := 0;
      var left := transfers.Keys;
      ghost var seen: set<TransferId> := {};
      while left != {}
        invariant left <= transfers.Keys
        invariant seen == set id | id in transfers && id !in left && Active(sessions[transfers[id]].state)
        invariant count == |seen|
        decreases |left|
      {
        var id :| id in left;
        left := left - {id};
        if Active(sessions[transfers[id]].state) {
          seen := seen + {id};
          count := count + 1;
        }
      }
      assert seen == ActiveIds(View());
    }

    method IsFull() returns (full: bool)
      requires Wf(View())
      ensures full == Full(View())
    {
      var active := CountActive();
      full := active >= MAX_ACTIVE_TRANSFERS || |transfers| >= MAX_BEGIN_NONCES || |nonces| >= MAX_BEGIN_NONCES;
    }

    method OpenSession(nonce: Nonce, session: Session)
      requires Wf(View()) && session.creds.file in cfg.files
      modifies this`sessions, this`transfers, this`nonces
      ensures View() == Open(old(View()), nonce, session)
    {
      var creds := session.creds;
      nonces := nonces[nonce := NonceRecord(session.peer, creds.offer, creds.file, creds.transfer, session.expires)];
      transfers := transfers[creds.transfer := |sessions|];
      sessions := sessions + [session];
    }

    method DecideBegin(b: Worker, id: TransferId, capability: Secret, serverNonce: Secret) returns (reply: Reply)
      requires Wf(View()) && b.WantBegin? && b.file in cfg.files
      modifies this
      ensures (View(), reply) == Decide(old(View()), b, id, capability, serverNonce)
    {
      hide Full, Open, BegunReply;
      if b.nonce in nonces {
        var record := nonces[b.nonce];
        if record.peer == b.peer && record.offer == b.offer && record.file == b.file && record.transfer in transfers {
          reply := Answer(sessions[transfers[record.transfer]]);
        } else {
          replayed := replayed + 1;
          reply := Refused(Replay);
        }
        return;
      }
      var full := IsFull();
      if full {
        return Refused(Busy);
      }
      var session := Session(b.peer, Credentials(b.offer, b.file, id, capability, serverNonce), b.seenAt + cfg.ttl,
                             Running, 0, None, Coverage.EMPTY, []);
      reply := Answer(session);
      OpenSession(b.nonce, session);
    }

    method BeginTransfer(w: WorkerId, id: TransferId, capability: Secret, serverNonce: Secret) returns (reply: Reply)
      requires Wf(View())
      modifies this
      ensures (View(), reply) == BeginLocked(old(View()), w, id, capability, serverNonce)
    {
      hide Decide;
      if w !in workers || !workers[w].WantBegin? || id in transfers {
        return Pending;
      }
      var b := workers[w];
      CleanUpExpired(b.seenAt);
      workers := workers - {w};
      reply := DecideBegin(b, id, capability, serverNonce);
    }

    /** `TransferSession::credentials`. */
    method Answer(session: Session) returns (reply: Reply)
      ensures reply == BegunReply(View(), session)
    {
      reply := Begun(session.creds, Monus(session.expires, clock));
    }

    method AuthenticatedSession(peer: Peer, creds: Credentials) returns (found: Option<Ref>, why: Refusal)
      requires Wf(View())
      modifies this`sessions, this`cancelled, this`denied
      ensures (View(), found, why) == Authenticate(old(View()), peer, creds)
    {
      var allowed := EnsurePeerAllowed(peer);
      if !allowed {
        return None, Denied;
      }
      if creds.transfer !in transfers {
        denied := denied + 1;
        return None, Denied;
      }
      var r := transfers[creds.transfer];
      if sessions[r].expires <= clock {
        return None, Expired;
      }
      if sessions[r].peer != peer || sessions[r].creds != creds {
        denied := denied + 1;
        return None, Denied;
      }
      return Some(r), Denied;
    }

    method BeginControl(w: WorkerId, peer: Peer, creds: Credentials, sequence: nat, op: ControlOp) returns (reply: Reply)
      requires Wf(View())
      modifies this
      ensures (View(), reply) == ControlAuth(old(View()), w, peer, creds, sequence, op)
    {
      if w in workers {
        return Pending;
      }
      var found, why := AuthenticatedSession(peer, creds);
      if found.None? {
        return Refused(why);
      }
      workers := workers[w := WantControl(found.value, sequence, op)];
      return Pending;
    }

    method Control(w: WorkerId) returns (reply: Reply)
      requires Wf(View())
      modifies this
      ensures (View(), reply) == ControlLocked(old(View()), w)
    {
      if w !in workers || !workers[w].WantControl? {
        return Pending;
      }
      var c := workers[w];
      workers := workers - {w};
      var session := sessions[c.ref];
      if c.sequence == session.lastSequence && session.lastOp == Some(c.op) {
        return Status(session.state, session.cover.unique);
      }
      if c.sequence <= session.lastSequence {
        replayed := replayed + 1;
        return Refused(Replay);
      }
      session := session.(lastSequence := c.sequence, lastOp := Some(c.op));
      if c.op.Pause? && session.state.Running? {
        session := session.(state := Paused);
      } else if c.op.Resume? && session.state.Paused? {
        session := session.(state := Running);
      } else if c.op.Cancel? && (session.state.Running? || session.state.Paused?) {
        session := session.(state := Cancelled);
        cancelled := cancelled + 1;
      } else if c.op.Complete? && session.state.Running? {
        session := session.(state := Completed);
      }
      sessions := sessions[c.ref := session];
      return Status(session.state, session.cover.unique);
    }

    method BeginRead(w: WorkerId, peer: Peer, creds: Credentials, offset: nat, requested: nat) returns (reply: Reply)
      requires Wf(View())
      modifies this
      ensures (View(), reply) == ReadAuth(old(View()), w, peer, creds, offset, requested)
    {
      if w in workers {
        return Pending;
      }
      if requested > MAX_RANGE_BYTES {
        return Refused(Invalid);
      }
      var found, why := AuthenticatedSession(peer, creds);
      if found.None? {
        return Refused(why);
      }
      workers := workers[w := AtGate(found.value, peer, offset, requested, false)];
      return Pending;
    }

    method PassGate(w: WorkerId, timedOut: bool) returns (reply: Reply)
      requires Wf(View())
      modifies this
      ensures (View(), reply) == ReadGate(old(View()), w, timedOut)
    {
      if w !in workers || !workers[w].AtGate? {
        return Pending;
      }
      var g := workers[w];
      var session := sessions[g.ref];
      if session.state.Paused? {
        if g.waited && timedOut {
          workers := workers - {w};
          return Data(Paused, session.cover.unique, []);
        }
        var allowed := PeerIsAllowed(g.peer);
        if !allowed {
          workers := workers - {w};
          sessions := sessions[g.ref := session.(state := Cancelled)];
          cancelled := cancelled + 1;
          return Refused(Denied);
        }
        if clock >= session.expires {
          workers := workers - {w};
          return Refused(Expired);
        }
        workers := workers[w := g.(waited := true)];
        return Pending;
      }
      if clock >= session.expires {
        workers := workers - {w};
        return Refused(Expired);
      }
      if session.state.Cancelled? {
        workers := workers - {w};
        return Refused(WasCancelled);
      }
      workers := workers[w := AtSource(g.ref, g.peer, g.offset, g.requested)];
      return Pending;
    }

    method FetchSource(w: WorkerId, outcome: SourceOutcome) returns (reply: Reply)
      requires Wf(View())
      modifies this
      ensures (View(), reply) == ReadSource(old(View()), w, outcome)
    {
      if w !in workers || !workers[w].AtSource? {
        return Pending;
      }
      var a := workers[w];
      var allowed := PeerIsAllowed(a.peer);
      if !allowed {
        workers := workers - {w};
        allowed := EnsurePeerAllowed(a.peer);
        return Refused(Denied);
      }
      if outcome.Fails? {
        workers := workers - {w};
        return Refused(SourceChanged);
      }
      var bytes := SourceBytes(cfg.files[sessions[a.ref].creds.file], a.offset, a.requested, outcome.chunk);
      workers := workers[w := AtCommit(a.ref, a.peer, a.offset, bytes)];
      return Pending;
    }

    method CommitRead(w: WorkerId) returns (reply: Reply)
      requires Wf(View()) && CoversValid(View())
      modifies this
      ensures (View(), reply) == ReadCommit(old(View()), w)
    {
      if w !in workers || !workers[w].AtCommit? {
        return Pending;
      }
      var a := workers[w];
      workers := workers - {w};
      var session := sessions[a.ref];
      var allowed := PeerIsAllowed(a.peer);
      if !allowed {
        if session.state.Running? || session.state.Paused? {
          sessions := sessions[a.ref := session.(state := Cancelled)];
          cancelled := cancelled + 1;
        }
        return Refused(Denied);
      }
      if clock >= session.expires {
        return Refused(Expired);
      }
      if session.state.Cancelled? {
        return Refused(WasCancelled);
      }
      assert Coverage.Valid(old(View()).sessions[a.ref].cover);
      var coverage := new Coverage.RangeCoverage.Of(session.cover);
      coverage.Note(a.offset, |a.bytes|);
      session := session.(cover := Coverage.Cover(coverage.ranges, coverage.unique_bytes, coverage.saturated),
                          notes := session.notes + [Coverage.NoteCall(a.offset, |a.bytes|)]);
      sessions := sessions[a.ref := session];
      served := served + |a.bytes|;
      return Data(session.state, session.cover.unique, a.bytes);
    }

    /** One step of anything that can happen around a request. */
    method Perform(step: Step) returns (reply: Reply)
      requires Wf(View()) && CoversValid(View())
      modifies this
      ensures (View(), reply) == Apply(old(View()), step)
    {
      reply := Pending;
      match step
      case Tick(elapsed) => clock := clock + elapsed;
      case SetTrust(now) => trusted := now;
      case CleanUp(seenAt) =>
        if seenAt <= clock {
          CleanUpExpired(seenAt);
        }
      case DropPeer(peer) => CancelPeerTransfers(peer);
      case DoBeginCheck(w, peer, offer, file, nonce) => reply := CheckBegin(w, peer, offer, file, nonce);
      case DoBeginLocked(w, id, capability, serverNonce) => reply := BeginTransfer(w, id, capability, serverNonce);
      case DoControlAuth(w, peer, creds, sequence, op) => reply := BeginControl(w, peer, creds, sequence, op);
      case DoControlLocked(w) => reply := Control(w);
      case DoReadAuth(w, peer, creds, offset, requested) => reply := BeginRead(w, peer, creds, offset, requested);
      case DoReadGate(w, timedOut) => reply := PassGate(w, timedOut);
      case DoReadSource(w, outcome) => reply := FetchSource(w, outcome);
      case DoReadCommit(w) => reply := CommitRead(w);
    }
  }

  /** The sessions below `n` that `CancelPeer` cancels. */
  ghost function LostBelow(s: State, peer: Peer, n: nat): set<Ref>
    requires n <= |s.sessions|
  {
    set r: Ref | 0 <= r < n && LosesPeer(s, peer, r)
  }

  ghost function CancelledBelow(s: State, peer: Peer, n: nat): seq<Session>
    requires n <= |s.sessions|
  {
    seq(|s.sessions|, (r: nat) requires r < |s.sessions| =>
      if r < n && LosesPeer(s, peer, r) then s.sessions[r].(state := Cancelled) else s.sessions[r])
  }

  lemma NoneLost(s: State, peer: Peer)
    ensures LostBelow(s, peer, 0) == {} && CancelledBelow(s, peer, 0) == s.sessions
  {
  }

  lemma OneMore(s: State, peer: Peer, r: Ref)
    requires r < |s.sessions|
    ensures var here := s.sessions[r]; var next := CancelledBelow(s, peer, r);
      && |next| == |s.sessions| && next[r] == here
      && CancelledBelow(s, peer, r + 1) == (if LosesPeer(s, peer, r) then next[r := here.(state := Cancelled)] else next)
      && |LostBelow(s, peer, r + 1)| == |LostBelow(s, peer, r)| + (if LosesPeer(s, peer, r) then 1 else 0)
  {
    LostGrows(s, peer, r);
    hide LosesPeer, LostBelow;
    var next, all := CancelledBelow(s, peer, r), CancelledBelow(s, peer, r + 1);
    assert all == (if LosesPeer(s, peer, r) then next[r := s.sessions[r].(state := Cancelled)] else next);
  }

  lemma LostGrows(s: State, peer: Peer, r: Ref)
    requires r < |s.sessions|
    ensures |LostBelow(s, peer, r + 1)| == |LostBelow(s, peer, r)| + (if LosesPeer(s, peer, r) then 1 else 0)
  {
    hide LosesPeer;
    assert LostBelow(s, peer, r + 1) == LostBelow(s, peer, r) + (if LosesPeer(s, peer, r) then {r} else {});
  }

  lemma AllLost(s: State, peer: Peer)
    ensures CancelPeer(s, peer) ==
      s.(sessions := CancelledBelow(s, peer, |s.sessions|), cancelled := s.cancelled + |LostBelow(s, peer, |s.sessions|)|)
  {
    hide LosesPeer;
    var n := |s.sessions|;
    assert LostBelow(s, peer, n) == LostRefs(s, peer);
    assert CancelledBelow(s, peer, n) == CancelPeer(s, peer).sessions;
  }
}
