/** What a request comes to when nothing interferes: each kind of request
    succeeds exactly when it should. And when a control of a source succeeds,
    exactly, if every sending is answered. */
module Undisturbed {
  import opened Common
  import opened ServerModel
  import opened ServerInvariant
  import opened Service
  import opened Client
  import opened Remote
  import Fetch
  import Coverage
  import ServerRuns
  import ControlHistory

  /** At least `n` pieces, the first `n` without other steps in between. */
  predicate Quiet(script: seq<Piece>, n: nat) {
    |script| >= n && forall i | 0 <= i < n :: script[i].others == []
  }

  /** Only sessions, and the two tables, may differ. */
  predicate Settled(s: State, t: State) {
    t.cfg == s.cfg && t.clock == s.clock && t.trusted == s.trusted && t.workers == s.workers
  }

  lemma QuietPiece(s: State, w: WorkerId, script: seq<Piece>)
    requires Wf(s) && w in s.workers && Quiet(script, 1)
    ensures var (t, reply) := Apply(s, NextStep(w, s.workers[w], script[0]));
      Continued(s, w, script) == if w in t.workers then Continued(t, w, script[1..]) else (t, Some(reply))
  {
    hide Apply, NextStep, Wf;
  }

  lemma AddRemove<K, V>(m: map<K, V>, k: K, v: V)
    requires k !in m
    ensures m[k := v] - {k} == m
  {
  }

  // --------------------------------------------------------------------- controls

  /** `creds` name the live, unexpired session `r` of this peer, who is allowed. */
  predicate Welcome(s: State, peer: Peer, creds: Credentials, r: Ref) {
    && PeerAllowed(s, peer) && r < |s.sessions| && creds.transfer in s.transfers && s.transfers[creds.transfer] == r
    && s.sessions[r].creds == creds && s.sessions[r].peer == peer && s.clock < s.sessions[r].expires
  }

  predicate Replayed(session: Session, sequence: nat, op: ControlOp) {
    sequence <= session.lastSequence && !(sequence == session.lastSequence && session.lastOp == Some(op))
  }

  function AfterControl(session: Session, sequence: nat, op: ControlOp): Session {
    if sequence <= session.lastSequence then session
    else session.(state := Transition(session.state, op), lastSequence := sequence, lastOp := Some(op))
  }

  lemma AfterObeys(session: Session, sequence: nat, op: ControlOp)
    requires session.lastSequence < sequence
    ensures ControlHistory.Obeys(session.state, op, AfterControl(session, sequence, op).state)
  {
  }

  lemma WelcomeAuth(s: State, peer: Peer, creds: Credentials, r: Ref)
    requires Wf(s) && Welcome(s, peer, creds, r)
    ensures Authenticate(s, peer, creds).0 == s && Authenticate(s, peer, creds).1 == Some(r)
  {
    hide PeerAllowed, Wf, Deny;
  }

  /** A control on a live session of an allowed peer is refused, as a replay, if
      and only if its number is used up; otherwise it is answered with the
      session's state, and applied if it is new. */
  lemma ControlServed(s: State, w: WorkerId, peer: Peer, creds: Credentials, sequence: nat, op: ControlOp, script: seq<Piece>, r: Ref)
    requires Wf(s) && w !in s.workers && Welcome(s, peer, creds, r) && Quiet(script, 1)
    ensures var (t, reply) := Served(s, w, peer, ControlReq(creds, sequence, op), script);
      var after := AfterControl(s.sessions[r], sequence, op);
      && reply == Some(if Replayed(s.sessions[r], sequence, op) then Refused(Replay) else StatusOf(after))
      && t.sessions == s.sessions[r := after] && t.transfers == s.transfers && t.nonces == s.nonces && Settled(s, t)
      && (s.sessions[r].lastSequence < sequence ==> ControlHistory.Obeys(s.sessions[r].state, op, after.state))
  {
    if s.sessions[r].lastSequence < sequence {
      AfterObeys(s.sessions[r], sequence, op);
    }
    WelcomeAuth(s, peer, creds, r);
    hide Authenticate, Welcome, Wf, ControlHistory.Obeys;
    var c := WantControl(r, sequence, op);
    var t := s.(workers := s.workers[w := c]);
    ControlFirst(s, w, peer, creds, sequence, op, script, r);
    QuietPiece(t, w, script);
    AddRemove(s.workers, w, c);
    ControlLast(t, w);
    hide Served, Continued, Apply;
  }

  lemma ControlFirst(s: State, w: WorkerId, peer: Peer, creds: Credentials, sequence: nat, op: ControlOp, script: seq<Piece>, r: Ref)
    requires Wf(s) && w !in s.workers && r < |s.sessions|
    requires Authenticate(s, peer, creds).0 == s && Authenticate(s, peer, creds).1 == Some(r)
    ensures var t := s.(workers := s.workers[w := WantControl(r, sequence, op)]);
      Wf(t) && Served(s, w, peer, ControlReq(creds, sequence, op), script) == Continued(t, w, script)
  {
    hide Authenticate, Continued;
  }

  lemma ControlLast(s: State, w: WorkerId)
    requires Wf(s) && w in s.workers && s.workers[w].WantControl?
    ensures s.workers[w].ref < |s.sessions|
    ensures var c := s.workers[w]; var (t, reply) := Apply(s, DoControlLocked(w));
      var after := AfterControl(s.sessions[c.ref], c.sequence, c.op);
      && reply == (if Replayed(s.sessions[c.ref], c.sequence, c.op) then Refused(Replay) else StatusOf(after))
      && t.sessions == s.sessions[c.ref := after] && t.transfers == s.transfers && t.nonces == s.nonces
      && t.cfg == s.cfg && t.clock == s.clock && t.trusted == s.trusted && t.workers == s.workers - {w}
  {
  }

  // ----------------------------------------------------------------------- begins

  /** A begin of `peer` for this file may open a session now. */
  predicate MayOpen(s: State, peer: Peer, offer: nat, file: FileId, nonce: Nonce)
    requires Wf(s)
  {
    && PeerAllowed(s, peer) && nonce != 0 && nonce !in s.nonces
    && offer == s.cfg.offer && s.clock < s.cfg.offerExpires && file in s.cfg.files
    && s.cfg.ttl > 0 && !Full(Retain(s, s.clock))
  }

  lemma BeginFirst(s: State, w: WorkerId, peer: Peer, offer: nat, file: FileId, nonce: Nonce, script: seq<Piece>)
    requires Wf(s) && w !in s.workers && PeerAllowed(s, peer) && nonce != 0
    requires offer == s.cfg.offer && s.clock < s.cfg.offerExpires && file in s.cfg.files
    ensures var t := s.(workers := s.workers[w := WantBegin(peer, offer, file, nonce, s.clock)]);
      Wf(t) && Served(s, w, peer, BeginReq(offer, file, nonce), script) == Continued(t, w, script)
  {
    hide Continued, PeerAllowed;
  }

  lemma RetainAside(s: State, w: WorkerId, b: Worker, now: nat)
    requires Wf(s) && Wf(s.(workers := s.workers[w := b])) && w !in s.workers
    ensures Finish(Retain(s.(workers := s.workers[w := b]), now), w) == Retain(s, now)
  {
    AddRemove(s.workers, w, b);
    hide Wf;
  }

  lemma BeginLast(s: State, w: WorkerId, b: Worker, id: TransferId, capability: Secret, serverNonce: Secret)
    requires Wf(s) && w !in s.workers && b.WantBegin? && b.seenAt == s.clock && b.file in s.cfg.files && id !in s.transfers
    ensures var t := s.(workers := s.workers[w := b]);
      Wf(t) && Apply(t, DoBeginLocked(w, id, capability, serverNonce)) == Decide(Retain(s, s.clock), b, id, capability, serverNonce)
  {
    var t := s.(workers := s.workers[w := b]);
    WithWorker(s, w, b);
    RetainAside(s, w, b, s.clock);
    LockedDecides(t, w, id, capability, serverNonce);
    hide Apply, Decide, Retain, Finish, Wf;
  }

  lemma WithWorker(s: State, w: WorkerId, b: Worker)
    requires Wf(s) && b.WantBegin? && b.seenAt == s.clock && b.file in s.cfg.files
    ensures Wf(s.(workers := s.workers[w := b]))
  {
  }

  lemma LockedDecides(s: State, w: WorkerId, id: TransferId, capability: Secret, serverNonce: Secret)
    requires Wf(s) && w in s.workers && s.workers[w].WantBegin? && id !in s.transfers
    requires s.workers[w].file in s.cfg.files
    ensures var b := s.workers[w];
      Apply(s, DoBeginLocked(w, id, capability, serverNonce)) == Decide(Finish(Retain(s, b.seenAt), w), b, id, capability, serverNonce)
  {
    hide Decide, Retain, Finish, Wf;
  }

  function Issue(b: Worker, p: Piece): Credentials
    requires b.WantBegin?
  {
    Credentials(b.offer, b.file, p.id, p.capability, p.serverNonce)
  }

  /** A begin that may open a session does: the reply's credentials are welcome,
      with the whole lifetime before them and no control applied. */
  lemma BeginServed(s: State, w: WorkerId, peer: Peer, offer: nat, file: FileId, nonce: Nonce, script: seq<Piece>)
    requires Wf(s) && w !in s.workers && MayOpen(s, peer, offer, file, nonce) && Quiet(script, 1) && script[0].id !in s.transfers
    ensures var (t, reply) := Served(s, w, peer, BeginReq(offer, file, nonce), script);
      var creds := Credentials(offer, file, script[0].id, script[0].capability, script[0].serverNonce);
      && reply == Some(Begun(creds, s.cfg.ttl))
      && |t.sessions| == |s.sessions| + 1 && Welcome(t, peer, creds, |s.sessions|)
      && t.sessions[|s.sessions|].lastSequence == 0 && t.sessions[|s.sessions|].state == Running && Settled(s, t)
  {
    var b := WantBegin(peer, offer, file, nonce, s.clock);
    var t := s.(workers := s.workers[w := b]);
    BeginFirst(s, w, peer, offer, file, nonce, script);
    QuietPiece(t, w, script);
    BeginLast(s, w, b, script[0].id, script[0].capability, script[0].serverNonce);
    Decided(s, b, script[0]);
    hide Served, Continued, Apply, Decide, Wf, Retain, Full;
  }

  lemma Decided(s: State, b: Worker, p: Piece)
    requires Wf(s) && b.WantBegin? && b.seenAt == s.clock && MayOpen(s, b.peer, b.offer, b.file, b.nonce) && p.id !in s.transfers
    ensures var (t, reply) := Decide(Retain(s, s.clock), b, p.id, p.capability, p.serverNonce);
      && reply == Begun(Issue(b, p), s.cfg.ttl)
      && |t.sessions| == |s.sessions| + 1 && Welcome(t, b.peer, Issue(b, p), |s.sessions|)
      && t.sessions[|s.sessions|].lastSequence == 0 && t.sessions[|s.sessions|].state == Running && Settled(s, t)
  {
    hide Full, Wf;
  }

  /** A begin resent in full while its session is unexpired: the same
      credentials, with the time left, if and only if the peer is still allowed
      and the offer has not expired. */
  lemma BeginResent(s: State, w: WorkerId, nonce: Nonce, script: seq<Piece>)
    requires Inv(s) && Wf(s) && w !in s.workers && nonce != 0 && nonce in s.nonces && s.clock < s.nonces[nonce].expires
    requires Quiet(script, 1) && script[0].id !in s.transfers
    ensures var record := s.nonces[nonce];
      var (t, reply) := Served(s, w, record.peer, BeginReq(record.offer, record.file, nonce), script);
      && record.transfer in s.transfers && s.transfers[record.transfer] < |s.sessions|
      && var creds := s.sessions[s.transfers[record.transfer]].creds;
      && (reply == Some(Begun(creds, record.expires - s.clock)) <==> PeerAllowed(s, record.peer) && s.clock < s.cfg.offerExpires)
      && (PeerAllowed(s, record.peer) ==> t.sessions == s.sessions)
  {
    hide Served, Inv, Wf, PeerAllowed;
    var record := s.nonces[nonce];
    RecordBacked(s, nonce);
    if PeerAllowed(s, record.peer) && s.clock < s.cfg.offerExpires {
      ResentAllowed(s, w, nonce, script);
    } else {
      ResentRefused(s, w, nonce, script);
    }
  }

  lemma ResentAllowed(s: State, w: WorkerId, nonce: Nonce, script: seq<Piece>)
    requires Inv(s) && Wf(s) && w !in s.workers && nonce != 0 && nonce in s.nonces && s.clock < s.nonces[nonce].expires
    requires Quiet(script, 1) && script[0].id !in s.transfers
    requires PeerAllowed(s, s.nonces[nonce].peer) && s.clock < s.cfg.offerExpires
    ensures var record := s.nonces[nonce];
      var (t, reply) := Served(s, w, record.peer, BeginReq(record.offer, record.file, nonce), script);
      && record.transfer in s.transfers && s.transfers[record.transfer] < |s.sessions|
      && reply == Some(Begun(s.sessions[s.transfers[record.transfer]].creds, record.expires - s.clock)) && t.sessions == s.sessions
  {
    hide Served, Continued, Apply, Decide, Wf, Retain, Inv;
    var record := s.nonces[nonce];
    RecordBacked(s, nonce);
    var b := WantBegin(record.peer, record.offer, record.file, nonce, s.clock);
    var t := s.(workers := s.workers[w := b]);
    BeginFirst(s, w, record.peer, record.offer, record.file, nonce, script);
    QuietPiece(t, w, script);
    BeginLast(s, w, b, script[0].id, script[0].capability, script[0].serverNonce);
    AnsweredAgain(s, b, script[0]);
  }

  lemma ResentRefused(s: State, w: WorkerId, nonce: Nonce, script: seq<Piece>)
    requires Wf(s) && w !in s.workers && nonce != 0 && nonce in s.nonces
    requires PeerAllowed(s, s.nonces[nonce].peer) ==> s.clock >= s.cfg.offerExpires
    ensures var record := s.nonces[nonce];
      var (t, reply) := Served(s, w, record.peer, BeginReq(record.offer, record.file, nonce), script);
      && reply == Some(Refused(if PeerAllowed(s, record.peer) then Expired else Denied))
      && (PeerAllowed(s, record.peer) ==> t == s)
  {
    hide Continued, Wf, Deny, PeerAllowed;
    var record := s.nonces[nonce];
    var (t, reply) := BeginCheck(s, w, record.peer, record.offer, record.file, nonce);
    assert reply == Refused(if PeerAllowed(s, record.peer) then Expired else Denied);
    assert Apply(s, FirstStep(w, record.peer, BeginReq(record.offer, record.file, nonce))) == (t, reply);
  }

  lemma RecordBacked(s: State, nonce: Nonce)
    requires Inv(s) && Wf(s) && nonce in s.nonces
    ensures var record := s.nonces[nonce];
      && record.transfer in s.transfers && s.transfers[record.transfer] < |s.sessions|
      && record.offer == s.cfg.offer && record.file in s.cfg.files
      && s.sessions[s.transfers[record.transfer]].expires == record.expires
  {
    ServerRuns.NonceBacked(s, nonce);
    CoreSession(s, s.transfers[s.nonces[nonce].transfer]);
    hide Core, Inv;
  }

  lemma AnsweredAgain(s: State, b: Worker, p: Piece)
    requires Wf(s) && b.WantBegin? && b.seenAt == s.clock && b.nonce in s.nonces && b.file in s.cfg.files
    requires var record := s.nonces[b.nonce];
      && SameRequest(record, b) && s.clock < record.expires && record.transfer in s.transfers
      && s.transfers[record.transfer] < |s.sessions| && s.sessions[s.transfers[record.transfer]].expires == record.expires
    ensures var record := s.nonces[b.nonce]; var (t, reply) := Decide(Retain(s, s.clock), b, p.id, p.capability, p.serverNonce);
      t.sessions == s.sessions && t.workers == s.workers
      && reply == Begun(s.sessions[s.transfers[record.transfer]].creds, record.expires - s.clock)
  {
    hide Full, Wf;
  }

  // ------------------------------------------------------------------------ reads

  predicate Readable(t: TransferState) {
    t.Running? || t.Completed?
  }

  /** A read of a running or completed session delivers exactly the piece of the
      file that was asked for, short only at its end or where the server's own
      source was short, and counts it. */
  lemma ReadServed(s: State, w: WorkerId, peer: Peer, creds: Credentials, offset: nat, requested: nat, script: seq<Piece>, r: Ref)
    requires Wf(s) && w !in s.workers && Welcome(s, peer, creds, r) && Readable(s.sessions[r].state)
    requires requested <= MAX_RANGE_BYTES && Quiet(script, 3) && script[1].outcome.Delivers?
    ensures s.sessions[r].creds.file in s.cfg.files
    ensures var (t, reply) := Served(s, w, peer, ReadReq(creds, offset, requested), script);
      var file := s.cfg.files[creds.file]; var n := Min(Min(requested, script[1].outcome.chunk), Monus(|file|, offset));
      var session := s.sessions[r]; var cover := Coverage.Noted(session.cover, offset, n);
      && reply == Some(Data(session.state, cover.unique, if n == 0 then [] else file[offset..offset + n]))
      && t.sessions == s.sessions[r := session.(cover := cover, notes := session.notes + [Coverage.NoteCall(offset, n)])]
      && t.served == s.served + n && t.transfers == s.transfers && t.nonces == s.nonces && Settled(s, t)
  {
    hide Served, Continued, Apply, Wf, Coverage.Noted, PeerAllowed, Authenticate;
    WelcomeAuth(s, peer, creds, r);
    SessionFile(s, r);
    var atGate := AtGate(r, peer, offset, requested, false);
    var atSource := AtSource(r, peer, offset, requested);
    var bytes := SourceBytes(s.cfg.files[creds.file], offset, requested, script[1].outcome.chunk);
    var atCommit := AtCommit(r, peer, offset, bytes);
    ReadFirst(s, w, peer, creds, offset, requested, script, r);
    GatePasses(s, w, atGate);
    SourceDelivers(s, w, atSource, script[1].outcome.chunk);
    CommitAnswers(s, w, atCommit);
    QuietPiece(s.(workers := s.workers[w := atGate]), w, script);
    QuietPiece(s.(workers := s.workers[w := atSource]), w, script[1..]);
    QuietPiece(s.(workers := s.workers[w := atCommit]), w, script[2..]);
    assert script[1..][1..] == script[2..] && script[1..][0] == script[1] && script[2..][0] == script[2];
    AddRemove(s.workers, w, atCommit);
  }

  lemma SessionFile(s: State, r: Ref)
    requires Wf(s) && r < |s.sessions|
    ensures s.sessions[r].creds.file in s.cfg.files
  {
  }

  lemma ReadFirst(s: State, w: WorkerId, peer: Peer, creds: Credentials, offset: nat, requested: nat, script: seq<Piece>, r: Ref)
    requires Wf(s) && w !in s.workers && r < |s.sessions| && requested <= MAX_RANGE_BYTES
    requires Authenticate(s, peer, creds).0 == s && Authenticate(s, peer, creds).1 == Some(r)
    ensures var t := s.(workers := s.workers[w := AtGate(r, peer, offset, requested, false)]);
      Wf(t) && Served(s, w, peer, ReadReq(creds, offset, requested), script) == Continued(t, w, script)
  {
    hide Authenticate, Continued;
  }

  lemma GatePasses(s: State, w: WorkerId, g: Worker)
    requires Wf(s) && g.AtGate? && g.ref < |s.sessions| && Readable(s.sessions[g.ref].state) && s.clock < s.sessions[g.ref].expires
    ensures var t := s.(workers := s.workers[w := g]); var u := s.(workers := s.workers[w := AtSource(g.ref, g.peer, g.offset, g.requested)]);
      Wf(t) && Wf(u) && forall timedOut :: Apply(t, DoReadGate(w, timedOut)) == (u, Pending)
  {
    var t := s.(workers := s.workers[w := g]);
    assert t.workers[w := AtSource(g.ref, g.peer, g.offset, g.requested)] == s.workers[w := AtSource(g.ref, g.peer, g.offset, g.requested)];
  }

  lemma SourceDelivers(s: State, w: WorkerId, a: Worker, chunk: nat)
    requires Wf(s) && a.AtSource? && a.ref < |s.sessions| && PeerAllowed(s, a.peer)
    ensures s.sessions[a.ref].creds.file in s.cfg.files
    ensures var bytes := SourceBytes(s.cfg.files[s.sessions[a.ref].creds.file], a.offset, a.requested, chunk);
      var t := s.(workers := s.workers[w := a]); var u := s.(workers := s.workers[w := AtCommit(a.ref, a.peer, a.offset, bytes)]);
      Wf(t) && Wf(u) && Apply(t, DoReadSource(w, Delivers(chunk))) == (u, Pending)
  {
    hide SourceBytes;
    var bytes := SourceBytes(s.cfg.files[s.sessions[a.ref].creds.file], a.offset, a.requested, chunk);
    var t := s.(workers := s.workers[w := a]);
    assert t.workers[w := AtCommit(a.ref, a.peer, a.offset, bytes)] == s.workers[w := AtCommit(a.ref, a.peer, a.offset, bytes)];
  }

  lemma CommitAnswers(s: State, w: WorkerId, a: Worker)
    requires Wf(s) && a.AtCommit? && a.ref < |s.sessions| && PeerAllowed(s, a.peer)
    requires s.clock < s.sessions[a.ref].expires && Readable(s.sessions[a.ref].state)
    ensures var t := s.(workers := s.workers[w := a]); var session := s.sessions[a.ref];
      var after := session.(cover := Coverage.Noted(session.cover, a.offset, |a.bytes|),
                            notes := session.notes + [Coverage.NoteCall(a.offset, |a.bytes|)]);
      && Wf(t)
      && Apply(t, DoReadCommit(w)) == (
           s.(workers := s.workers[w := a] - {w}, sessions := s.sessions[a.ref := after], served := s.served + |a.bytes|),
           Data(session.state, after.cover.unique, a.bytes))
  {
    hide Coverage.Noted;
  }

  // ------------------------------------------------------- a source's first control

  /** The sending is answered, by a worker nobody disturbs. */
  predicate Plain(a: Attempt) {
    !a.cancelled && a.fate.Reached? && a.fate.delivered && Quiet(a.fate.script, 1)
  }

  /** The next three sendings are plain, their workers new, and the server has a
      session for the source, or room for one. */
  ghost predicate Ready(x: Wire, peer: Peer, g: Standing) {
    && Wf(x.s) && |x.net| >= 3 && (forall i | 0 <= i < 3 :: Plain(x.net[i]) && x.next + 1 + i !in x.s.workers)
    && if g.transfer.Some? then exists r :: 0 <= r < |x.s.sessions| && Holds(x.s, peer, g, r)
       else g.sequence > 0 && MayOpen(x.s, peer, g.offer, g.file, g.nonce) && x.net[0].fate.script[0].id !in x.s.transfers
  }

  /** Session `r` is the source's and has applied only smaller numbers. */
  predicate Holds(s: State, peer: Peer, g: Standing, r: Ref)
    requires g.transfer.Some? && r < |s.sessions|
  {
    Welcome(s, peer, g.transfer.value, r) && s.sessions[r].lastSequence < g.sequence
  }

  lemma AskPlain(x: Wire, peer: Peer, req: Request)
    requires Wf(x.s) && x.net != [] && Plain(x.net[0])
    requires Served(x.s, x.next + 1, peer, req, x.net[0].fate.script).1.Some?
    ensures var (t, reply) := Served(x.s, x.next + 1, peer, req, x.net[0].fate.script);
      Ask(x, peer, req) == (Wire(t, x.next + 1, x.net[1..]), reply)
  {
    hide Served, Wf;
  }

  lemma SentNew(x: Wire, peer: Peer, creds: Credentials, sequence: nat, op: ControlOp, r: Ref)
    requires Wf(x.s) && x.net != [] && Plain(x.net[0]) && x.next + 1 !in x.s.workers && Welcome(x.s, peer, creds, r)
    ensures var (y, sent) := SentOne(x, peer, creds, sequence, op); var session := x.s.sessions[r];
      && sent == Some(if Replayed(session, sequence, op) then Err(RefusedBy(Replay))
                      else Ok(StatusOf(AfterControl(session, sequence, op))))
      && y.net == x.net[1..] && y.next == x.next + 1 && Settled(x.s, y.s)
      && Welcome(y.s, peer, creds, r) && y.s.sessions[r] == AfterControl(session, sequence, op)
  {
    ControlServed(x.s, x.next + 1, peer, creds, sequence, op, x.net[0].fate.script, r);
    AskPlain(x, peer, ControlReq(creds, sequence, op));
    hide Ask, Served, Wf;
  }

  /** A transfer that no control was sent for, and two more plain sendings. */
  ghost predicate JustBegun(y: Wire, peer: Peer, creds: Credentials, r: Ref) {
    && Wf(y.s) && Welcome(y.s, peer, creds, r) && y.s.sessions[r].lastSequence == 0
    && |y.net| >= 2 && Plain(y.net[0]) && Plain(y.net[1]) && y.next + 1 !in y.s.workers && y.next + 2 !in y.s.workers
  }

  lemma SentFirst(x: Wire, peer: Peer, g: Standing)
    requires Ready(x, peer, g) && g.transfer.None?
    ensures var (y, sent) := SentBegin(x, peer, g.offer, g.file, g.nonce);
      sent.Some? && sent.value.Ok? && JustBegun(y, peer, sent.value.value, |x.s.sessions|)
  {
    hide Ask, Served, Wf, MayOpen, Welcome, Quiet;
    QuietFirst(x.net[0]);
    BeginServed(x.s, x.next + 1, peer, g.offer, g.file, g.nonce, x.net[0].fate.script);
    AskPlain(x, peer, BeginReq(g.offer, g.file, g.nonce));
    var y := SentBegin(x, peer, g.offer, g.file, g.nonce).0;
    assert y.net[0] == x.net[1] && y.net[1] == x.net[2];
    assert Plain(x.net[1]) && Plain(x.net[2]);
    assert x.next + 1 + 1 !in x.s.workers && x.next + 1 + 2 !in x.s.workers;
  }

  lemma QuietFirst(a: Attempt)
    requires Plain(a)
    ensures Quiet(a.fate.script, 1) && a.fate.script != []
  {
  }

  lemma UnpausedRest(y: Wire, peer: Peer, creds: Credentials, r: Ref, sequence: nat, op: ControlOp)
    requires JustBegun(y, peer, creds, r) && sequence > 0
    ensures var sent := SentOne(y, peer, creds, sequence, op).1; sent.Some? && sent.value.Ok?
  {
    hide SentOne, Wf, Welcome, Plain;
    SentNew(y, peer, creds, sequence, op, r);
  }

  lemma PausedRest(y: Wire, peer: Peer, creds: Credentials, r: Ref, sequence: nat, op: ControlOp)
    requires JustBegun(y, peer, creds, r)
    ensures var (z, held) := SentOne(y, peer, creds, sequence + 1, Pause);
      && held.Some? && held.value.Ok?
      && SentOne(z, peer, creds, sequence, op).1 == Some(Err(RefusedBy(Replay)))
  {
    hide SentOne, Wf, Welcome, Plain;
    SentNew(y, peer, creds, sequence + 1, Pause, r);
    var z := SentOne(y, peer, creds, sequence + 1, Pause).0;
    assert z.net[0] == y.net[1];
    SentNew(z, peer, creds, sequence, op, r);
  }

  lemma ExistingControl(x: Wire, peer: Peer, g: Standing, op: ControlOp)
    requires Ready(x, peer, g) && g.transfer.Some?
    ensures var sent := SentControl(x, peer, g, op).1; sent.Some? && sent.value.Ok?
  {
    var r :| 0 <= r < |x.s.sessions| && Holds(x.s, peer, g, r);
    SentNew(x, peer, g.transfer.value, g.sequence, op, r);
    hide SentOne, Welcome, Wf;
  }

  lemma FirstControl(x: Wire, peer: Peer, g: Standing, op: ControlOp)
    requires Ready(x, peer, g) && g.transfer.None?
    ensures SentControl(x, peer, g, op).1.Some?
    ensures var result := SentControl(x, peer, g, op).1.value;
      if g.cancelled then result == Err(Interrupted)
      else if g.paused then result == Err(RefusedBy(Replay))
      else result.Ok?
  {
    hide SentBegin, SentOne, Ready, JustBegun, Wf, SentControl, SentCredentials;
    BeginsReady(x, peer, g);
    SentFirst(x, peer, g);
    FirstUnfolds(x, peer, g, op);
    var (y, begun) := SentBegin(x, peer, g.offer, g.file, g.nonce);
    if !g.cancelled {
      if g.paused {
        PausedRest(y, peer, begun.value.value, |x.s.sessions|, g.sequence, op);
      } else {
        UnpausedRest(y, peer, begun.value.value, |x.s.sessions|, g.sequence, op);
      }
    }
  }

  /** What a control comes to once its transfer is begun. */
  lemma FirstUnfolds(x: Wire, peer: Peer, g: Standing, op: ControlOp)
    requires Wf(x.s) && g.transfer.None?
    requires var begun := SentBegin(x, peer, g.offer, g.file, g.nonce).1; begun.Some? && begun.value.Ok?
    ensures var (y, begun) := SentBegin(x, peer, g.offer, g.file, g.nonce); var creds := begun.value.value;
      var (z, held) := SentOne(y, peer, creds, g.sequence + 1, Pause);
      && (g.cancelled ==> SentControl(x, peer, g, op).1 == Some(Err(Interrupted)))
      && (!g.cancelled && !g.paused ==> SentControl(x, peer, g, op) == SentOne(y, peer, creds, g.sequence, op))
      && (!g.cancelled && g.paused && held.Some? && held.value.Ok? ==>
            SentControl(x, peer, g, op) == SentOne(z, peer, creds, g.sequence, op))
  {
    hide SentBegin, SentOne, Wf;
  }

  lemma BeginsReady(x: Wire, peer: Peer, g: Standing)
    requires Ready(x, peer, g) && g.transfer.None?
    ensures Wf(x.s) && g.sequence > 0
  {
  }

  /** When every sending is answered, a control of a source succeeds if and only
      if its transfer existed, or the group is neither paused nor cancelled. A
      cancelled group interrupts the control that begins the transfer; a paused
      one makes it a replay of its own pause. */
  lemma ControlExactly(x: Wire, peer: Peer, g: Standing, op: ControlOp)
    requires Ready(x, peer, g)
    ensures SentControl(x, peer, g, op).1.Some?
    ensures var result := SentControl(x, peer, g, op).1.value;
      && (result.Ok? <==> g.transfer.Some? || (!g.paused && !g.cancelled))
      && (result == Err(RefusedBy(Replay)) <==> g.transfer.None? && g.paused && !g.cancelled)
      && (result == Err(Interrupted) <==> g.transfer.None? && g.cancelled)
  {
    hide SentControl, Ready;
    if g.transfer.Some? {
      ExistingControl(x, peer, g, op);
    } else {
      FirstControl(x, peer, g, op);
    }
  }

  // ------------------------------------------------------------- a source's reads

  /** The sending is answered, and a read it carries is served undisturbed. */
  predicate PlainRead(a: Attempt) {
    Plain(a) && Quiet(a.fate.script, 3) && a.fate.script[1].outcome.Delivers?
  }

  /** How much the server's own source gives at most when it serves this one. */
  function ChunkOf(a: Attempt): nat
    requires PlainRead(a)
  {
    a.fate.script[1].outcome.chunk
  }

  /** Every sending is plain, and its worker new. */
  predicate AllPlain(x: Wire) {
    forall i | 0 <= i < |x.net| :: PlainAt(x, i)
  }

  predicate PlainAt(x: Wire, i: nat)
    requires i < |x.net|
  {
    PlainRead(x.net[i]) && x.next + 1 + i !in x.s.workers
  }

  /** Session `r` is the source's, may be read, and applied only smaller numbers. */
  predicate Serves(s: State, peer: Peer, g: Standing, r: Ref) {
    && g.transfer.Some? && g.transfer.value.file == g.file && r < |s.sessions|
    && Holds(s, peer, g, r) && Readable(s.sessions[r].state)
  }

  /** The source of an ordinary file of this content has a session, or can have
      one; its group is not cancelled, and not paused before it has begun. */
  ghost predicate Fetchable(x: Reader, peer: Peer, file: seq<Byte>) {
    && Wf(x.wire.s) && AllPlain(x.wire) && !x.standing.cancelled
    && x.standing.file in x.wire.s.cfg.files && x.wire.s.cfg.files[x.standing.file] == file
    && if x.standing.transfer.Some? then exists r :: Serves(x.wire.s, peer, x.standing, r)
       else
         && !x.standing.paused && x.standing.sequence > 0
         && MayOpen(x.wire.s, peer, x.standing.offer, x.standing.file, x.standing.nonce)
         && (x.wire.net != [] ==> PlainAt(x.wire, 0) && x.wire.net[0].fate.script[0].id !in x.wire.s.transfers)
  }

  function Slice(file: seq<Byte>, at: nat, n: nat): seq<Byte> {
    if n == 0 || at + n > |file| then [] else file[at..at + n]
  }

  /** How many sendings come before the first read. */
  function Opening(x: Reader): nat {
    if x.standing.transfer.Some? then 0 else 1
  }

  lemma NextPlain(x: Wire, s: State)
    requires AllPlain(x) && x.net != [] && s.workers == x.s.workers
    ensures PlainRead(x.net[0]) && Plain(x.net[0]) && x.next + 1 !in x.s.workers
    ensures AllPlain(Wire(s, x.next + 1, x.net[1..]))
  {
    hide PlainRead;
    assert PlainAt(x, 0);
    var y := Wire(s, x.next + 1, x.net[1..]);
    forall i | 0 <= i < |y.net| ensures PlainAt(y, i) {
      assert PlainAt(x, i + 1);
    }
    assert Plain(x.net[0]) by {
      PlainIs(x.net[0]);
    }
  }

  lemma PlainIs(a: Attempt)
    requires PlainRead(a)
    ensures Plain(a) && Quiet(a.fate.script, 3) && a.fate.script[1].outcome.Delivers?
  {
  }

  /** With a session: the credentials are there. Without: the first sending opens
      one, and nothing is sent besides. */
  lemma CredentialsServed(x: Reader, peer: Peer, file: seq<Byte>)
    requires Fetchable(x, peer, file) && |x.wire.net| >= Opening(x)
    ensures var (y, creds) := SentCredentials(x.wire, peer, x.standing);
      && creds.Some? && creds.value.Ok?
      && var g := Holding(x.standing, creds.value.value);
      && g.transfer == Some(creds.value.value) && y.net == x.wire.net[Opening(x)..]
      && Fetchable(Reader(y, g, x.completed), peer, file)
  {
    if x.standing.transfer.Some? {
      hide Wf, AllPlain, Serves;
      assert x.wire.net[0..] == x.wire.net;
    } else {
      Opened(x, peer, file);
    }
  }

  lemma Opened(x: Reader, peer: Peer, file: seq<Byte>)
    requires Fetchable(x, peer, file) && x.standing.transfer.None? && x.wire.net != []
    ensures var (y, creds) := SentCredentials(x.wire, peer, x.standing);
      && creds.Some? && creds.value.Ok?
      && var g := Holding(x.standing, creds.value.value);
      && g.transfer == Some(creds.value.value) && y.net == x.wire.net[1..]
      && Fetchable(Reader(y, g, x.completed), peer, file)
  {
    hide Ask, Served, Wf, MayOpen, Welcome, Quiet, PlainRead, AllPlain;
    var g := x.standing;
    NextPlain(x.wire, x.wire.s);
    QuietFirst(x.wire.net[0]);
    BeginServed(x.wire.s, x.wire.next + 1, peer, g.offer, g.file, g.nonce, x.wire.net[0].fate.script);
    AskPlain(x.wire, peer, BeginReq(g.offer, g.file, g.nonce));
    var (y, creds) := SentCredentials(x.wire, peer, g);
    NextPlain(x.wire, y.s);
    assert Serves(y.s, peer, Holding(g, creds.value.value), |x.wire.s.sessions|);
  }

  /** One read of a session that may be read. */
  lemma RangeServed(x: Reader, peer: Peer, file: seq<Byte>, offset: nat, requested: nat)
    requires Fetchable(x, peer, file) && x.standing.transfer.Some? && x.wire.net != [] && requested <= MAX_RANGE_BYTES
    ensures PlainRead(x.wire.net[0])
    ensures var (y, range) := SentRange(x.wire, peer, x.standing.transfer.value, offset, requested);
      && range == Some(Ok(Slice(file, offset, Min(Min(requested, ChunkOf(x.wire.net[0])), Monus(|file|, offset)))))
      && y.net == x.wire.net[1..] && Fetchable(x.(wire := y), peer, file)
  {
    hide Ask, Served, Wf, Welcome, Quiet, AllPlain, Coverage.Noted;
    var creds := x.standing.transfer.value;
    var r :| Serves(x.wire.s, peer, x.standing, r);
    NextPlain(x.wire, x.wire.s);
    ReadServed(x.wire.s, x.wire.next + 1, peer, creds, offset, requested, x.wire.net[0].fate.script, r);
    AskPlain(x.wire, peer, ReadReq(creds, offset, requested));
    var y := SentRange(x.wire, peer, creds, offset, requested).0;
    NextPlain(x.wire, y.s);
    StillWelcome(x.wire.s, y.s, peer, creds, r);
    assert Serves(y.s, peer, x.standing, r);
  }

  /** A session whose coverage grew is as welcome as before. */
  lemma StillWelcome(s: State, t: State, peer: Peer, creds: Credentials, r: Ref)
    requires Welcome(s, peer, creds, r) && Settled(s, t) && t.transfers == s.transfers && |t.sessions| == |s.sessions|
    requires t.sessions[r].creds == s.sessions[r].creds && t.sessions[r].peer == s.sessions[r].peer
    requires t.sessions[r].expires == s.sessions[r].expires
    ensures Welcome(t, peer, creds, r)
  {
  }
  lemma CompletionServed(x: Reader, peer: Peer, file: seq<Byte>)
    requires Fetchable(x, peer, file) && x.standing.transfer.Some? && x.wire.net != []
    ensures var g := x.standing; var (y, done) := SentOne(x.wire, peer, g.transfer.value, g.sequence, ControlOp.Complete);
      && done.Some? && done.value.Ok? && y.net == x.wire.net[1..]
      && Fetchable(Reader(y, g.(sequence := g.sequence + 1), true), peer, file)
  {
    hide SentOne, Wf, AllPlain, Plain, PlainRead;
    var g := x.standing;
    var r :| Serves(x.wire.s, peer, g, r);
    NextPlain(x.wire, x.wire.s);
    SentNew(x.wire, peer, g.transfer.value, g.sequence, ControlOp.Complete, r);
    var y := SentOne(x.wire, peer, g.transfer.value, g.sequence, ControlOp.Complete).0;
    NextPlain(x.wire, y.s);
    assert Serves(y.s, peer, g.(sequence := g.sequence + 1), r);
  }

  lemma PieceServed(x: Reader, peer: Peer, file: seq<Byte>, offset: nat, requested: nat)
    requires Fetchable(x, peer, file) && |x.wire.net| > Opening(x) && requested <= MAX_RANGE_BYTES
    ensures PlainRead(x.wire.net[Opening(x)])
    ensures var (y, piece) := SentPiece(x, peer, offset, requested);
      && piece == Some(Ok(Slice(file, offset, Min(Min(requested, ChunkOf(x.wire.net[Opening(x)])), Monus(|file|, offset)))))
      && Fetchable(y, peer, file) && y.standing.transfer.Some? && y.completed == x.completed
      && y.wire.net == x.wire.net[Opening(x) + 1..]
  {
    hide SentCredentials, SentRange, Fetchable, PlainRead;
    NotCancelled(x, peer, file);
    CredentialsServed(x, peer, file);
    var (y, creds) := SentCredentials(x.wire, peer, x.standing);
    var z := Reader(y, Holding(x.standing, creds.value.value), x.completed);
    RangeServed(z, peer, file, offset, requested);
    assert y.net[0] == x.wire.net[Opening(x)] && y.net[1..] == x.wire.net[Opening(x) + 1..];
  }

  /** How much a read gives: no more than there is room for, than one request may
      ask, than the server's source gives, and than there is. */
  function Yield(x: Reader, file: seq<Byte>, offset: nat, room: nat): nat
    requires |x.wire.net| > Opening(x) && PlainRead(x.wire.net[Opening(x)])
  {
    Min(Min(Min(room, MAX_RANGE_BYTES), ChunkOf(x.wire.net[Opening(x)])), Monus(|file|, offset))
  }

  /** When every sending is answered, a read gives exactly that much of the file,
      however short, and fails if and only if it is nothing before the end. */
  lemma ReadExactly(x: Reader, peer: Peer, file: seq<Byte>, offset: nat, room: nat)
    requires Fetchable(x, peer, file) && |x.wire.net| >= Opening(x) + 2 && room > 0
    ensures PlainRead(x.wire.net[Opening(x)])
    ensures var (y, read) := SentRead(x, peer, |file|, offset, room); var n := Yield(x, file, offset, room);
      && read == Some(if n == 0 && offset < |file| then Err(ReadFault) else Ok(Slice(file, offset, n)))
      && (read.value.Ok? ==>
            && Fetchable(y, peer, file) && y.standing.transfer.Some? && (n == 0 ==> y.completed)
            && y.wire.net == x.wire.net[Opening(x) + (if n == 0 && !x.completed then 2 else 1)..])
  {
    hide SentPiece, SentOne, Fetchable, PlainRead;
    NotCancelled(x, peer, file);
    PieceServed(x, peer, file, offset, Min(room, MAX_RANGE_BYTES));
    var (y, piece) := SentPiece(x, peer, offset, Min(room, MAX_RANGE_BYTES));
    if piece.value.value == [] && offset >= |file| && !x.completed {
      CompletionServed(y, peer, file);
    }
  }

  lemma NotCancelled(x: Reader, peer: Peer, file: seq<Byte>)
    requires Fetchable(x, peer, file)
    ensures Wf(x.wire.s) && !x.standing.cancelled && AllPlain(x.wire)
  {
  }

  /** The server's own source never gives nothing. */
  predicate Generous(net: seq<Attempt>) {
    forall i | 0 <= i < |net| :: PlainRead(net[i]) && ChunkOf(net[i]) > 0
  }

  lemma GenerousRest(net: seq<Attempt>, k: nat)
    requires Generous(net) && k <= |net|
    ensures Generous(net[k..])
  {
    hide PlainRead, ChunkOf;
    forall i | 0 <= i < |net[k..]| ensures PlainRead(net[k..][i]) && ChunkOf(net[k..][i]) > 0 {
      assert net[k..][i] == net[k + i];
    }
  }

  /** A generous source gives nothing at the end only. */
  lemma YieldMeans(x: Reader, file: seq<Byte>, offset: nat, room: nat)
    requires Generous(x.wire.net) && |x.wire.net| > Opening(x) && room > 0
    ensures PlainRead(x.wire.net[Opening(x)])
    ensures var n := Yield(x, file, offset, room);
      n <= room && n <= Monus(|file|, offset) && (n == 0 <==> offset >= |file|)
  {
    hide PlainRead, ChunkOf;
  }

  /** Read up to the end, there is no more to read. */
  lemma SliceEnds(file: seq<Byte>, at: nat, wanted: nat, got: seq<Byte>)
    requires |got| <= wanted && got == Slice(file, at, |got|) && (|got| == wanted || at + |got| >= |file|)
    ensures got == Slice(file, at, Min(wanted, Monus(|file|, at))) && Slice(file, at + |got|, 0) == []
  {
  }

  lemma SliceGrows(file: seq<Byte>, at: nat, n: nat, more: nat)
    requires more > 0 && at + n + more <= |file|
    ensures Slice(file, at, n) + Slice(file, at + n, more) == Slice(file, at, n + more)
    ensures |Slice(file, at, n + more)| == n + more && |Slice(file, at + n, more)| == more
  {
  }

  /** When every sending is answered and there are enough of them, a stream reads
      all it was asked for or the rest of the file. */
  lemma {:induction false} StreamExactly(x: Reader, peer: Peer, file: seq<Byte>, at: nat, wanted: nat, got: seq<Byte>)
    requires Fetchable(x, peer, file) && Generous(x.wire.net)
    requires |got| <= wanted && got == Slice(file, at, |got|) && |x.wire.net| >= Opening(x) + wanted - |got| + 2
    ensures StreamRead(x, peer, |file|, at, wanted, got).1 == Some(Ok(Slice(file, at, Min(wanted, Monus(|file|, at)))))
    decreases wanted - |got|
  {
    hide SentRead, Fetchable, PlainRead, Generous, Yield, Slice, Wf;
    NotCancelled(x, peer, file);
    if |got| == wanted || at + |got| >= |file| {
      SliceEnds(file, at, wanted, got);
    }
    if |got| < wanted {
      ReadExactly(x, peer, file, at + |got|, wanted - |got|);
      YieldMeans(x, file, at + |got|, wanted - |got|);
      var (y, piece) := SentRead(x, peer, |file|, at + |got|, wanted - |got|);
      var n := Yield(x, file, at + |got|, wanted - |got|);
      if n > 0 {
        GenerousRest(x.wire.net, Opening(x) + 1);
        SliceGrows(file, at, |got|, n);
        StreamExactly(y, peer, file, at, wanted, got + piece.value.value);
      }
    }
  }

  /** So a download drains the whole file. */
  lemma {:induction false} DrainExactly(x: Reader, peer: Peer, file: seq<Byte>, got: seq<Byte>)
    requires Fetchable(x, peer, file) && Generous(x.wire.net)
    requires |got| <= |file| && got == file[..|got|] && |x.wire.net| >= Opening(x) + |file| - |got| + 2
    ensures Fetch.Drained(x, peer, |file|, got) == Some(Ok(file))
    decreases |file| - |got|
  {
    hide SentRead, Fetchable, PlainRead, Generous, Yield, Wf;
    NotCancelled(x, peer, file);
    ReadExactly(x, peer, file, |got|, Fetch.BUFFER);
    YieldMeans(x, file, |got|, Fetch.BUFFER);
    var (y, piece) := SentRead(x, peer, |file|, |got|, Fetch.BUFFER);
    var n := Yield(x, file, |got|, Fetch.BUFFER);
    if n == 0 {
      assert got == file;
    } else {
      GenerousRest(x.wire.net, Opening(x) + 1);
      assert got + piece.value.value == file[..|got| + n];
      DrainExactly(y, peer, file, got + piece.value.value);
    }
  }

  // --------------------------------------------------------------------- a witness

  const OneFile := Config(1, false, 5, 100, 50, map[7 := [1, 2, 3]])

  const FirstSending := Attempt(0, false, false, 0, Reached([Piece([], false, Delivers(0), 9, 1, 2)], true), None, 0)

  const PausedGroup := Standing(5, 7, None, 1, 1, true, false)

  /** A server that has just started has room. */
  lemma OpenAtStart(cfg: Config, trusted: set<Peer>, peer: Peer, file: FileId, nonce: Nonce)
    requires peer == cfg.authorized && (cfg.checksTrust ==> peer in trusted) && nonce != 0
    requires cfg.offerExpires > 0 && cfg.ttl > 0 && file in cfg.files
    ensures var s := Initial(cfg, trusted); Wf(s) && MayOpen(s, peer, cfg.offer, file, nonce)
  {
    var s := Initial(cfg, trusted);
    assert ActiveIds(Retain(s, 0)) == {} && Retain(s, 0).transfers == map[];
  }

  /** A server that has just started, a group paused before its source began,
      and no fault anywhere: resuming the source is refused as a replay. */
  lemma ResumeRefused()
    ensures SentControl(Wire(Initial(OneFile, {}), 0, [FirstSending, FirstSending, FirstSending]), 1, PausedGroup, Resume).1
         == Some(Err(RefusedBy(Replay)))
  {
    var s := Initial(OneFile, {});
    var x := Wire(s, 0, [FirstSending, FirstSending, FirstSending]);
    hide SentControl, MayOpen;
    assert Plain(FirstSending);
    OpenAtStart(OneFile, {}, 1, 7, 1);
    assert Ready(x, 1, PausedGroup);
    hide Ready;
    ControlExactly(x, 1, PausedGroup, Resume);
  }

  const ReadSending := FirstSending.(fate := Reached([
    Piece([], false, Delivers(0), 9, 1, 2), Piece([], false, Delivers(MAX_RANGE_BYTES), 9, 1, 2),
    Piece([], false, Delivers(0), 9, 1, 2)], true))

  const NewReader := Reader(Wire(Initial(OneFile, {}), 0, seq(8, _ => ReadSending)), PausedGroup.(paused := false), false)

  /** A three-byte file read into five bytes: the end is no failure. */
  lemma ShortFile()
    ensures StreamRead(NewReader, 1, 3, 0, 5, []).1 == Some(Ok([1, 2, 3]))
  {
    hide StreamRead, MayOpen;
    var file: seq<Byte> := [1, 2, 3];
    assert |file| == 3 && file[0..0 + 3] == file;
    OpenAtStart(OneFile, {}, 1, 7, 1);
    assert PlainRead(ReadSending);
    assert Generous(NewReader.wire.net) && AllPlain(NewReader.wire) && Fetchable(NewReader, 1, file);
    StreamExactly(NewReader, 1, file, 0, 5, []);
  }

  const CheckedPeer := OneFile.(checksTrust := true)

  const Handover := [Piece([], false, Delivers(0), 9, 1, 2)]

  const Granted := Credentials(5, 7, 9, 1, 2)

  function HeldState(): (s: State)
    ensures Wf(s)
  {
    Served(Served(Initial(CheckedPeer, {1}), 1, 1, BeginReq(5, 7, 1), Handover).0, 2, 1, ControlReq(Granted, 1, Pause), Handover).0
  }

  /** The peer began a transfer and paused it. */
  lemma Held()
    ensures var s := HeldState();
      && |s.sessions| == 1 && s.sessions[0].state == Paused && s.sessions[0].lastSequence == 1
      && Welcome(s, 1, Granted, 0) && s.cfg == CheckedPeer && s.workers == map[]
  {
    hide Served, MayOpen, Wf;
    var s := Initial(CheckedPeer, {1});
    OpenAtStart(CheckedPeer, {1}, 1, 7, 1);
    BeginServed(s, 1, 1, 5, 7, 1, Handover);
    var begun := Served(s, 1, 1, BeginReq(5, 7, 1), Handover).0;
    ControlServed(begun, 2, 1, Granted, 1, Pause, Handover, 0);
  }

  /** A duplicate of a processed control is not harmless once trust is withdrawn:
      it cancels the paused session it was meant for. */
  lemma DuplicateAfterRevocation()
    ensures var revoked := Apply(HeldState(), SetTrust({})).0;
      var after := Run(revoked, [DoControlAuth(3, 1, Granted, 1, Pause), DoControlLocked(3)]);
      && |revoked.sessions| == 1 && revoked.sessions[0].state == Paused && revoked.sessions[0].lastSequence == 1
      && |after.sessions| == 1 && after.sessions[0].state == Cancelled
  {
    hide HeldState, Run, Apply;
    Held();
    Revoked(HeldState(), {});
    var revoked := Apply(HeldState(), SetTrust({})).0;
    assert 0 in LostRefs(revoked, 1);
    ServerRuns.DeniedControl(revoked, 3, 1, Granted, 1, Pause);
    ServerRuns.TwoSteps(revoked, DoControlAuth(3, 1, Granted, 1, Pause), DoControlLocked(3));
  }

  lemma Revoked(s: State, trusted: set<Peer>)
    requires Wf(s)
    ensures Apply(s, SetTrust(trusted)).0 == s.(trusted := trusted)
  {
  }
}
