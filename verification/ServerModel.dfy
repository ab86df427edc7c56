/** The offer server's protocol state as a value, one function per region of code
    that runs under a lock (`ServerState` in secure_transfer.rs).

    A worker thread that is between two lock regions is an entry of `workers`.
    Its stage remembers what it already checked, so every interleaving of workers,
    clean-up, trust changes and the clock is a sequence of steps.

    Sessions are kept in a sequence that only grows: an index plays the part of
    the shared pointer a worker holds after the session left `transfers`. */
module ServerModel {
  import opened Common
  import Coverage

  const MAX_RANGE_BYTES: nat := 256 * 1024
  const MAX_ACTIVE_TRANSFERS: nat := 64
  const MAX_BEGIN_NONCES: nat := 4096

  type Peer = nat
  type FileId = nat
  type TransferId = nat
  type Nonce = nat
  type Secret = nat
  type Ref = nat
  type WorkerId = nat

  datatype TransferState = Running | Paused | Cancelled | Completed

  datatype ControlOp = Pause | Resume | Cancel | Complete

  datatype Refusal = Invalid | Denied | Expired | Replay | Busy | WasCancelled | SourceChanged

  datatype Credentials = Credentials(offer: nat, file: FileId, transfer: TransferId, capability: Secret, serverNonce: Secret)

  /** `notes` is a history variable: the ranges passed to `coverage.note`, in
      order. No operation reads it. */
  datatype Session = Session(
    peer: Peer, creds: Credentials, expires: nat,
    state: TransferState, lastSequence: nat, lastOp: Option<ControlOp>,
    cover: Coverage.Cover, notes: seq<Coverage.NoteCall>)

  datatype NonceRecord = NonceRecord(peer: Peer, offer: nat, file: FileId, transfer: TransferId, expires: nat)

  /** What never changes while the server runs. `files` holds the immutable
      content behind every ordinary file; `ttl` is the session lifetime. */
  datatype Config = Config(
    authorized: Peer, checksTrust: bool, offer: nat, offerExpires: nat, ttl: nat, files: map<FileId, seq<Byte>>)

  datatype Worker =
    | WantBegin(peer: Peer, offer: nat, file: FileId, nonce: Nonce, seenAt: nat)
    | WantControl(ref: Ref, sequence: nat, op: ControlOp)
    | AtGate(ref: Ref, peer: Peer, offset: nat, requested: nat, waited: bool)
    | AtSource(ref: Ref, peer: Peer, offset: nat, requested: nat)
    | AtCommit(ref: Ref, peer: Peer, offset: nat, bytes: seq<Byte>)

  datatype State = State(
    cfg: Config, clock: nat, trusted: set<Peer>,
    sessions: seq<Session>, transfers: map<TransferId, Ref>, nonces: map<Nonce, NonceRecord>,
    workers: map<WorkerId, Worker>,
    served: nat, cancelled: nat, denied: nat, replayed: nat)

  datatype Reply =
    | Pending
    | Refused(why: Refusal)
    | Begun(creds: Credentials, remaining: nat)
    | Status(state: TransferState, unique: nat)
    | Data(state: TransferState, unique: nat, bytes: seq<Byte>)

  predicate Active(t: TransferState) {
    t.Running? || t.Paused?
  }

  predicate HasRef(w: Worker) {
    !w.WantBegin?
  }

  predicate Wf(s: State) {
    && (forall id | id in s.transfers :: s.transfers[id] < |s.sessions|)
    && (forall w | w in s.workers && HasRef(s.workers[w]) :: s.workers[w].ref < |s.sessions|)
    && (forall w | w in s.workers && s.workers[w].WantBegin? ::
          s.workers[w].file in s.cfg.files && s.workers[w].seenAt <= s.clock)
    && (forall r | 0 <= r < |s.sessions| :: s.sessions[r].creds.file in s.cfg.files)
  }

  /** Every session's served ranges are in canonical form and counted. */
  ghost predicate CoversValid(s: State) {
    forall r | 0 <= r < |s.sessions| :: Coverage.Valid(s.sessions[r].cover)
  }

  /** The server right after `start_inner`. */
  function Initial(cfg: Config, trusted: set<Peer>): State {
    State(cfg, 0, trusted, [], map[], map[], map[], 0, 0, 0, 0)
  }

  // ------------------------------------------------------------- small pieces

  predicate PeerAllowed(s: State, peer: Peer) {
    peer == s.cfg.authorized && (s.cfg.checksTrust ==> peer in s.trusted)
  }

  /** Session `r` is still the one its transfer identifier names. */
  predicate Live(s: State, r: Ref)
    requires r < |s.sessions|
  {
    var id := s.sessions[r].creds.transfer;
    id in s.transfers && s.transfers[id] == r
  }

  function SetSession(s: State, r: Ref, session: Session): State
    requires r < |s.sessions|
  {
    s.(sessions := s.sessions[r := session])
  }

  function Finish(s: State, w: WorkerId): (t: State)
    ensures Wf(s) ==> Wf(t)
  {
    s.(workers := s.workers - {w})
  }

  predicate LosesPeer(s: State, peer: Peer, r: Ref)
    requires r < |s.sessions|
  {
    Live(s, r) && s.sessions[r].peer == peer && Active(s.sessions[r].state)
  }

  function LostRefs(s: State, peer: Peer): set<Ref> {
    set r: Ref | 0 <= r < |s.sessions| && LosesPeer(s, peer, r)
  }

  /** `cancel_peer_transfers`. */
  function CancelPeer(s: State, peer: Peer): State {
    s.(sessions := seq(|s.sessions|, (r: nat) requires r < |s.sessions| =>
                       if LosesPeer(s, peer, r) then s.sessions[r].(state := Cancelled) else s.sessions[r]),
       cancelled := s.cancelled + |LostRefs(s, peer)|)
  }

  /** `ensure_peer_allowed` on the failing side. */
  function Deny(s: State, peer: Peer): State {
    CancelPeer(s.(denied := s.denied + 1), peer)
  }

  /** Both `retain` calls, with the instant the caller read. */
  function Retain(s: State, now: nat): (t: State)
    requires Wf(s)
    ensures Wf(t)
  {
    s.(transfers := map id | id in s.transfers && s.sessions[s.transfers[id]].expires > now :: s.transfers[id],
       nonces := map n | n in s.nonces && s.nonces[n].expires > now :: s.nonces[n])
  }

  function ActiveIds(s: State): set<TransferId>
    requires Wf(s)
  {
    set id | id in s.transfers && Active(s.sessions[s.transfers[id]].state)
  }

  // --------------------------------------------------------------- lock regions

  function BeginCheck(s: State, w: WorkerId, peer: Peer, offer: nat, file: FileId, nonce: Nonce): (r: (State, Reply))
    requires Wf(s)
    ensures Wf(r.0)
  {
    if w in s.workers then (s, Pending)
    else if nonce == 0 then (s, Refused(Invalid))
    else if !PeerAllowed(s, peer) then (Deny(s, peer), Refused(Denied))
    else if offer != s.cfg.offer || s.clock >= s.cfg.offerExpires then (s, Refused(Expired))
    else if file !in s.cfg.files then (s.(denied := s.denied + 1), Refused(Denied))
    else (s.(workers := s.workers[w := WantBegin(peer, offer, file, nonce, s.clock)]), Pending)
  }

  predicate SameRequest(record: NonceRecord, b: Worker)
    requires b.WantBegin?
  {
    record.peer == b.peer && record.offer == b.offer && record.file == b.file
  }

  function NewSession(b: Worker, ttl: nat, id: TransferId, capability: Secret, serverNonce: Secret): Session
    requires b.WantBegin?
  {
    Session(b.peer, Credentials(b.offer, b.file, id, capability, serverNonce), b.seenAt + ttl,
            Running, 0, None, Coverage.EMPTY, [])
  }

  /** Records the new session and its nonce. */
  function Open(s: State, nonce: Nonce, session: Session): (t: State)
    requires Wf(s) && session.creds.file in s.cfg.files
    ensures Wf(t)
  {
    var creds := session.creds;
    s.(sessions := s.sessions + [session],
       transfers := s.transfers[creds.transfer := |s.sessions|],
       nonces := s.nonces[nonce := NonceRecord(session.peer, creds.offer, creds.file, creds.transfer, session.expires)])
  }

  predicate Full(s: State)
    requires Wf(s)
  {
    |ActiveIds(s)| >= MAX_ACTIVE_TRANSFERS || |s.transfers| >= MAX_BEGIN_NONCES || |s.nonces| >= MAX_BEGIN_NONCES
  }

  function BegunReply(s: State, session: Session): Reply {
    Begun(session.creds, Monus(session.expires, s.clock))
  }

  /** After both `retain` calls: a known nonce answers or is a replay, an unknown
      one opens a session unless the server is full. */
  function Decide(t: State, b: Worker, id: TransferId, capability: Secret, serverNonce: Secret): (r: (State, Reply))
    requires Wf(t) && b.WantBegin? && b.file in t.cfg.files
    ensures Wf(r.0)
  {
    if b.nonce in t.nonces then
      var record := t.nonces[b.nonce];
      if SameRequest(record, b) && record.transfer in t.transfers then
        (t, BegunReply(t, t.sessions[t.transfers[record.transfer]]))
      else (t.(replayed := t.replayed + 1), Refused(Replay))
    else if Full(t) then (t, Refused(Busy))
    else
      var session := NewSession(b, t.cfg.ttl, id, capability, serverNonce);
      (Open(t, b.nonce, session), BegunReply(t, session))
  }

  /** A random identifier that is already in use is assumed not to be drawn:
      the step is then not enabled. */
  function BeginLocked(s: State, w: WorkerId, id: TransferId, capability: Secret, serverNonce: Secret): (r: (State, Reply))
    requires Wf(s)
    ensures Wf(r.0)
  {
    if w !in s.workers || !s.workers[w].WantBegin? || id in s.transfers then (s, Pending)
    else
      var b := s.workers[w];
      Decide(Finish(Retain(s, b.seenAt), w), b, id, capability, serverNonce)
  }

  /** `authenticated_session`: the session named by the credentials, or why not. */
  function Authenticate(s: State, peer: Peer, creds: Credentials): (a: (State, Option<Ref>, Refusal))
    requires Wf(s)
    ensures Wf(a.0) && (a.1.Some? ==> a.1.value < |a.0.sessions|)
  {
    if !PeerAllowed(s, peer) then (Deny(s, peer), None, Denied)
    else if creds.transfer !in s.transfers then (s.(denied := s.denied + 1), None, Denied)
    else
      var r := s.transfers[creds.transfer];
      var session := s.sessions[r];
      if session.expires <= s.clock then (s, None, Expired)
      else if session.peer != peer || session.creds != creds then (s.(denied := s.denied + 1), None, Denied)
      else (s, Some(r), Denied)
  }

  function ControlAuth(s: State, w: WorkerId, peer: Peer, creds: Credentials, sequence: nat, op: ControlOp): (r: (State, Reply))
    requires Wf(s)
    ensures Wf(r.0)
  {
    if w in s.workers then (s, Pending)
    else
      var (t, found, why) := Authenticate(s, peer, creds);
      if found.None? then (t, Refused(why))
      else (t.(workers := t.workers[w := WantControl(found.value, sequence, op)]), Pending)
  }

  function Transition(t: TransferState, op: ControlOp): TransferState {
    match (op, t)
    case (Pause, Running) => Paused
    case (Resume, Paused) => Running
    case (Cancel, Running) => Cancelled
    case (Cancel, Paused) => Cancelled
    case (Complete, Running) => Completed
    case _ => t
  }

  function StatusOf(session: Session): Reply {
    Status(session.state, session.cover.unique)
  }

  function ControlLocked(s: State, w: WorkerId): (r: (State, Reply))
    requires Wf(s)
    ensures Wf(r.0)
  {
    if w !in s.workers || !s.workers[w].WantControl? then (s, Pending)
    else
      var c := s.workers[w];
      var t := Finish(s, w);
      var session := s.sessions[c.ref];
      if c.sequence == session.lastSequence && session.lastOp == Some(c.op) then (t, StatusOf(session))
      else if c.sequence <= session.lastSequence then (t.(replayed := t.replayed + 1), Refused(Replay))
      else
        var after := session.(state := Transition(session.state, c.op), lastSequence := c.sequence, lastOp := Some(c.op));
        var cancels := if after.state.Cancelled? && !session.state.Cancelled? then 1 else 0;
        (SetSession(t, c.ref, after).(cancelled := t.cancelled + cancels), StatusOf(after))
  }

  function ReadAuth(s: State, w: WorkerId, peer: Peer, creds: Credentials, offset: nat, requested: nat): (r: (State, Reply))
    requires Wf(s)
    ensures Wf(r.0)
  {
    if w in s.workers then (s, Pending)
    else if requested > MAX_RANGE_BYTES then (s, Refused(Invalid))
    else
      var (t, found, why) := Authenticate(s, peer, creds);
      if found.None? then (t, Refused(why))
      else (t.(workers := t.workers[w := AtGate(found.value, peer, offset, requested, false)]), Pending)
  }

  /** One pass of the pause loop. `timedOut` is the outcome of the wait that
      ended just before this pass, if there was one. */
  function ReadGate(s: State, w: WorkerId, timedOut: bool): (r: (State, Reply))
    requires Wf(s)
    ensures Wf(r.0)
  {
    if w !in s.workers || !s.workers[w].AtGate? then (s, Pending)
    else
      var g := s.workers[w];
      var session := s.sessions[g.ref];
      if session.state.Paused? then
        if g.waited && timedOut then (Finish(s, w), Data(Paused, session.cover.unique, []))
        else if !PeerAllowed(s, g.peer) then
          (SetSession(Finish(s, w), g.ref, session.(state := Cancelled)).(cancelled := s.cancelled + 1), Refused(Denied))
        else if s.clock >= session.expires then (Finish(s, w), Refused(Expired))
        else (s.(workers := s.workers[w := g.(waited := true)]), Pending)
      else if s.clock >= session.expires then (Finish(s, w), Refused(Expired))
      else if session.state.Cancelled? then (Finish(s, w), Refused(WasCancelled))
      else (s.(workers := s.workers[w := AtSource(g.ref, g.peer, g.offset, g.requested)]), Pending)
  }

  /** What a source with content `file` may deliver: at most what was asked, and
      it may be short (`chunk` is the source's own choice). */
  function SourceBytes(file: seq<Byte>, offset: nat, requested: nat, chunk: nat): seq<Byte> {
    var count := Min(Min(Monus(|file|, offset), requested), chunk);
    if count == 0 then [] else file[offset..offset + count]
  }

  datatype SourceOutcome = Delivers(chunk: nat) | Fails

  /** No lock is held: the trust check and the deferred source read. */
  function ReadSource(s: State, w: WorkerId, outcome: SourceOutcome): (r: (State, Reply))
    requires Wf(s)
    ensures Wf(r.0)
  {
    if w !in s.workers || !s.workers[w].AtSource? then (s, Pending)
    else
      var a := s.workers[w];
      if !PeerAllowed(s, a.peer) then (Deny(Finish(s, w), a.peer), Refused(Denied))
      else if outcome.Fails? then (Finish(s, w), Refused(SourceChanged))
      else
        var file := s.cfg.files[s.sessions[a.ref].creds.file];
        var bytes := SourceBytes(file, a.offset, a.requested, outcome.chunk);
        (s.(workers := s.workers[w := AtCommit(a.ref, a.peer, a.offset, bytes)]), Pending)
  }

  /** The second lock region of `read_range`: trust, expiry and cancellation
      are checked again before anything is counted or returned. */
  function ReadCommit(s: State, w: WorkerId): (r: (State, Reply))
    requires Wf(s)
    ensures Wf(r.0)
  {
    if w !in s.workers || !s.workers[w].AtCommit? then (s, Pending)
    else
      var a := s.workers[w];
      var t := Finish(s, w);
      var session := s.sessions[a.ref];
      if !PeerAllowed(s, a.peer) then
        if Active(session.state) then
          (SetSession(t, a.ref, session.(state := Cancelled)).(cancelled := t.cancelled + 1), Refused(Denied))
        else (t, Refused(Denied))
      else if s.clock >= session.expires then (t, Refused(Expired))
      else if session.state.Cancelled? then (t, Refused(WasCancelled))
      else
        var after := session.(cover := Coverage.Noted(session.cover, a.offset, |a.bytes|),
                              notes := session.notes + [Coverage.NoteCall(a.offset, |a.bytes|)]);
        (SetSession(t, a.ref, after).(served := t.served + |a.bytes|),
         Data(after.state, after.cover.unique, a.bytes))
  }

  // ------------------------------------------------------------- steps and runs

  datatype Step =
    | Tick(elapsed: nat)
    | SetTrust(trusted: set<Peer>)
    | CleanUp(seenAt: nat)
    | DropPeer(peer: Peer)
    | DoBeginCheck(w: WorkerId, peer: Peer, offer: nat, file: FileId, nonce: Nonce)
    | DoBeginLocked(w: WorkerId, id: TransferId, capability: Secret, serverNonce: Secret)
    | DoControlAuth(w: WorkerId, peer: Peer, creds: Credentials, sequence: nat, op: ControlOp)
    | DoControlLocked(w: WorkerId)
    | DoReadAuth(w: WorkerId, peer: Peer, creds: Credentials, offset: nat, requested: nat)
    | DoReadGate(w: WorkerId, timedOut: bool)
    | DoReadSource(w: WorkerId, outcome: SourceOutcome)
    | DoReadCommit(w: WorkerId)

  /** Trust may change in any way between steps. `DropPeer` is the cancelling
      half of a denial whose trust check came earlier. Clean-up may use an
      instant read before it got the lock. */
  function Apply(s: State, step: Step): (r: (State, Reply))
    requires Wf(s)
    ensures Wf(r.0)
  {
    match step
    case Tick(elapsed) => (s.(clock := s.clock + elapsed), Pending)
    case SetTrust(trusted) => (s.(trusted := trusted), Pending)
    case CleanUp(seenAt) => if seenAt <= s.clock then (Retain(s, seenAt), Pending) else (s, Pending)
    case DropPeer(peer) => (CancelPeer(s, peer), Pending)
    case DoBeginCheck(w, peer, offer, file, nonce) => BeginCheck(s, w, peer, offer, file, nonce)
    case DoBeginLocked(w, id, capability, serverNonce) => BeginLocked(s, w, id, capability, serverNonce)
    case DoControlAuth(w, peer, creds, sequence, op) => ControlAuth(s, w, peer, creds, sequence, op)
    case DoControlLocked(w) => ControlLocked(s, w)
    case DoReadAuth(w, peer, creds, offset, requested) => ReadAuth(s, w, peer, creds, offset, requested)
    case DoReadGate(w, timedOut) => ReadGate(s, w, timedOut)
    case DoReadSource(w, outcome) => ReadSource(s, w, outcome)
    case DoReadCommit(w) => ReadCommit(s, w)
  }

  function Run(s: State, steps: seq<Step>): (t: State)
    requires Wf(s)
    ensures Wf(t)
    decreases |steps|
  {
    if steps == [] then s
    else Run(Apply(s, steps[0]).0, steps[1..])
  }

  lemma {:induction false} RunAppend(s: State, a: seq<Step>, b: seq<Step>)
    requires Wf(s)
    ensures Run(s, a + b) == Run(Run(s, a), b)
    decreases |a|
  {
    hide Apply, Wf;
    if a == [] {
      assert a + b == b;
    } else {
      RunAppend(Apply(s, a[0]).0, a[1..], b);
      assert (a + b)[1..] == a[1..] + b;
    }
  }
}
