/** One request served by one worker while everything else goes on around it:
    `dispatch_request` with the other threads, the clock and the trust store
    interleaved at every point where no lock is held. */
module Service {
  import opened Common
  import opened ServerModel
  import opened ServerHistory
  import opened ServerInvariant
  import opened Server
  import Coverage

  datatype Request =
    | BeginReq(offer: nat, file: FileId, nonce: Nonce)
    | ReadReq(creds: Credentials, offset: nat, requested: nat)
    | ControlReq(creds: Credentials, sequence: nat, op: ControlOp)

  /** What surrounds and feeds one lock region of the worker: other steps first,
      then the outcome of its wait, of its source read, or of its random draws. */
  datatype Piece = Piece(
    others: seq<Step>, timedOut: bool, outcome: SourceOutcome,
    id: TransferId, capability: Secret, serverNonce: Secret)

  function FirstStep(w: WorkerId, peer: Peer, req: Request): Step {
    match req
    case BeginReq(offer, file, nonce) => DoBeginCheck(w, peer, offer, file, nonce)
    case ReadReq(creds, offset, requested) => DoReadAuth(w, peer, creds, offset, requested)
    case ControlReq(creds, sequence, op) => DoControlAuth(w, peer, creds, sequence, op)
  }

  function NextStep(w: WorkerId, stage: Worker, piece: Piece): Step {
    match stage
    case WantBegin(_, _, _, _, _) => DoBeginLocked(w, piece.id, piece.capability, piece.serverNonce)
    case WantControl(_, _, _) => DoControlLocked(w)
    case AtGate(_, _, _, _, _) => DoReadGate(w, piece.timedOut)
    case AtSource(_, _, _, _) => DoReadSource(w, piece.outcome)
    case AtCommit(_, _, _, _) => DoReadCommit(w)
  }

  /** A commit of `[offset, offset + length)` is on record for these credentials. */
  ghost predicate Counted(s: State, creds: Credentials, offset: nat, length: nat) {
    exists r :: 0 <= r < |s.sessions| && CountedAt(s.sessions[r], creds, offset, length)
  }

  ghost predicate CountedAt(session: Session, creds: Credentials, offset: nat, length: nat) {
    session.creds == creds && Coverage.NoteCall(offset, length) in session.notes
  }

  lemma CountedStays(s: State, t: State, creds: Credentials, offset: nat, length: nat)
    requires Later(s, t) && Counted(s, creds, offset, length)
    ensures Counted(t, creds, offset, length)
  {
    var r :| 0 <= r < |s.sessions| && CountedAt(s.sessions[r], creds, offset, length);
    assert SessionLater(s.sessions[r], t.sessions[r]);
    assert CountedAt(t.sessions[r], creds, offset, length);
  }

  /** The bytes a read may bring: a piece of the named file from `offset`. */
  ghost predicate PieceOf(cfg: Config, file: FileId, offset: nat, requested: nat, bytes: seq<Byte>) {
    && file in cfg.files
    && |bytes| <= requested
    && offset + |bytes| <= |cfg.files[file]| && bytes == cfg.files[file][offset..offset + |bytes|]
  }

  /** Some session has these credentials and this time left. */
  ghost predicate Issued(s: State, creds: Credentials, remaining: nat) {
    exists r :: 0 <= r < |s.sessions| && IssuedAt(s.sessions[r], s.clock, creds, remaining)
  }

  ghost predicate IssuedAt(session: Session, clock: nat, creds: Credentials, remaining: nat) {
    session.creds == creds && Monus(session.expires, clock) == remaining
  }

  /** The session with these credentials stands as reported. */
  ghost predicate Reported(s: State, creds: Credentials, state: TransferState, unique: nat) {
    exists r :: 0 <= r < |s.sessions| && ReportedAt(s.sessions[r], creds, state, unique)
  }

  ghost predicate ReportedAt(session: Session, creds: Credentials, state: TransferState, unique: nat) {
    session.creds == creds && session.state == state && session.cover.unique == unique
  }

  /** And this control is the last it processed. */
  ghost predicate Honoured(s: State, creds: Credentials, sequence: nat, op: ControlOp, state: TransferState, unique: nat) {
    exists r :: 0 <= r < |s.sessions| && ReportedAt(s.sessions[r], creds, state, unique) && LastControl(s.sessions[r], sequence, op)
  }

  ghost predicate LastControl(session: Session, sequence: nat, op: ControlOp) {
    session.lastSequence == sequence && session.lastOp == Some(op)
  }

  /** What a reply to `req` means in the state right after it. */
  ghost predicate Fits(s: State, req: Request, reply: Reply) {
    reply.Refused? ||
    match req
    case BeginReq(offer, file, _) =>
      && reply.Begun? && reply.creds.offer == offer && reply.creds.file == file && file in s.cfg.files
      && Issued(s, reply.creds, reply.remaining)
    case ReadReq(creds, offset, requested) =>
      && reply.Data? && Reported(s, creds, reply.state, reply.unique)
      && (reply.bytes != [] ==>
            PieceOf(s.cfg, creds.file, offset, requested, reply.bytes) && Counted(s, creds, offset, |reply.bytes|))
    case ControlReq(creds, sequence, op) =>
      reply.Status? && Honoured(s, creds, sequence, op, reply.state, reply.unique)
  }

  /** What the worker remembers about the request it serves. */
  ghost predicate StageFits(s: State, req: Request, stage: Worker) {
    match req
    case BeginReq(offer, file, _) => stage.WantBegin? && stage.offer == offer && stage.file == file
    case ReadReq(creds, offset, requested) =>
      && (stage.AtGate? || stage.AtSource? || stage.AtCommit?)
      && stage.ref < |s.sessions| && s.sessions[stage.ref].creds == creds && stage.offset == offset
      && (stage.AtCommit? ==> |stage.bytes| <= requested)
      && (!stage.AtCommit? ==> stage.requested == requested)
    case ControlReq(creds, sequence, op) =>
      && stage.WantControl? && stage.sequence == sequence && stage.op == op
      && stage.ref < |s.sessions| && s.sessions[stage.ref].creds == creds
  }

  lemma StageStays(s: State, t: State, req: Request, stage: Worker)
    requires Later(s, t) && StageFits(s, req, stage)
    ensures StageFits(t, req, stage)
  {
    if !req.BeginReq? {
      assert SessionLater(s.sessions[stage.ref], t.sessions[stage.ref]);
    }
  }

  lemma InvWf(s: State)
    requires Inv(s)
    ensures Wf(s) && Core(s)
  {
  }

  lemma InvCovers(s: State)
    requires Inv(s)
    ensures CoversValid(s)
  {
    forall r | 0 <= r < |s.sessions| ensures Coverage.Valid(s.sessions[r].cover) {
      CoreSession(s, r);
      Coverage.NoteAllMeaning(s.sessions[r].notes);
    }
  }

  // ------------------------------------------------------------ step by step

  lemma FirstFits(s: State, w: WorkerId, peer: Peer, req: Request)
    requires Inv(s) && w !in s.workers
    ensures var (t, reply) := Apply(s, FirstStep(w, peer, req));
      if w in t.workers then reply == Pending && StageFits(t, req, t.workers[w]) else reply.Refused?
  {
    hide Core;
    InvWf(s);
    match req
    case BeginReq(offer, file, nonce) =>
    case ReadReq(creds, _, _) => AuthStage(s, w, peer, req);
    case ControlReq(creds, _, _) => AuthStage(s, w, peer, req);
  }

  lemma AuthStage(s: State, w: WorkerId, peer: Peer, req: Request)
    requires Wf(s) && Core(s) && w !in s.workers && !req.BeginReq?
    ensures var (t, reply) := Apply(s, FirstStep(w, peer, req));
      if w in t.workers then reply == Pending && StageFits(t, req, t.workers[w]) else reply.Refused?
  {
    hide Core, Authenticate, Wf;
    AuthenticatedRef(s, peer, req.creds);
    AuthenticateWorkers(s, peer, req.creds);
  }

  lemma DecideFits(t: State, b: Worker, id: TransferId, capability: Secret, serverNonce: Secret)
    requires Wf(t) && Tables(t) && b.WantBegin? && b.file in t.cfg.files
    ensures var (u, reply) := Decide(t, b, id, capability, serverNonce);
      && u.workers == t.workers && u.cfg == t.cfg
      && (!reply.Refused? ==>
            && reply.Begun? && reply.creds.offer == b.offer && reply.creds.file == b.file
            && Issued(u, reply.creds, reply.remaining))
  {
    hide Full, Wf, Tables;
    var (u, reply) := Decide(t, b, id, capability, serverNonce);
    if b.nonce in t.nonces {
      TableEntry(t, b.nonce);
      var named := t.sessions[t.transfers[t.nonces[b.nonce].transfer]];
      assert IssuedAt(named, u.clock, named.creds, Monus(named.expires, u.clock));
    } else if reply.Begun? {
      assert IssuedAt(u.sessions[|t.sessions|], u.clock, reply.creds, reply.remaining);
    }
  }

  lemma TableEntry(t: State, nonce: Nonce)
    requires Wf(t) && Tables(t) && nonce in t.nonces
    ensures Backed(t, t.nonces[nonce]) && t.transfers[t.nonces[nonce].transfer] < |t.sessions|
  {
  }

  lemma BeginFits(s: State, w: WorkerId, req: Request, piece: Piece)
    requires Wf(s) && Core(s) && w in s.workers && req.BeginReq? && StageFits(s, req, s.workers[w])
    ensures var (t, reply) := Apply(s, NextStep(w, s.workers[w], piece));
      if w in t.workers then reply == Pending && StageFits(t, req, t.workers[w]) else Fits(t, req, reply)
  {
    hide Core, Decide, Tables, Wf, Retain, Finish;
    var b := s.workers[w];
    var t := Finish(Retain(s, b.seenAt), w);
    RetainedTables(s, w, b);
    DecideFits(t, b, piece.id, piece.capability, piece.serverNonce);
  }

  lemma RetainedTables(s: State, w: WorkerId, b: Worker)
    requires Wf(s) && Core(s) && w in s.workers && s.workers[w] == b && b.WantBegin?
    ensures var t := Finish(Retain(s, b.seenAt), w);
      Tables(t) && w !in t.workers && t.cfg == s.cfg && b.file in t.cfg.files
  {
    var kept := Retain(s, b.seenAt);
    TablesRetain(s, b.seenAt);
    TablesFixed(kept, Finish(kept, w));
    hide Tables;
  }

  lemma ReadFits(s: State, w: WorkerId, req: Request, piece: Piece)
    requires Wf(s) && w in s.workers && WorkerOk(s, s.workers[w]) && req.ReadReq? && StageFits(s, req, s.workers[w])
    ensures var (t, reply) := Apply(s, NextStep(w, s.workers[w], piece));
      if w in t.workers then reply == Pending && StageFits(t, req, t.workers[w]) else Fits(t, req, reply)
  {
    var stage := s.workers[w];
    if stage.AtGate? {
      GateFits(s, w, req, piece);
    } else if stage.AtSource? {
      SourceFits(s, w, req, piece);
    } else {
      CommitFits(s, w, req, piece);
    }
  }

  lemma GateFits(s: State, w: WorkerId, req: Request, piece: Piece)
    requires Wf(s) && w in s.workers && s.workers[w].AtGate? && req.ReadReq? && StageFits(s, req, s.workers[w])
    ensures var (t, reply) := Apply(s, DoReadGate(w, piece.timedOut));
      if w in t.workers then reply == Pending && StageFits(t, req, t.workers[w]) else Fits(t, req, reply)
  {
    hide Wf, PeerAllowed;
    var (t, reply) := ReadGate(s, w, piece.timedOut);
    if reply.Data? {
      assert ReportedAt(t.sessions[s.workers[w].ref], req.creds, reply.state, reply.unique);
    }
  }

  lemma SourceFits(s: State, w: WorkerId, req: Request, piece: Piece)
    requires Wf(s) && w in s.workers && s.workers[w].AtSource? && req.ReadReq? && StageFits(s, req, s.workers[w])
    ensures var (t, reply) := Apply(s, DoReadSource(w, piece.outcome));
      if w in t.workers then reply == Pending && StageFits(t, req, t.workers[w]) else Fits(t, req, reply)
  {
    hide PeerAllowed;
  }

  lemma CommitFits(s: State, w: WorkerId, req: Request, piece: Piece)
    requires Wf(s) && w in s.workers && s.workers[w].AtCommit? && WorkerOk(s, s.workers[w])
    requires req.ReadReq? && StageFits(s, req, s.workers[w])
    ensures var (t, reply) := Apply(s, DoReadCommit(w));
      if w in t.workers then reply == Pending && StageFits(t, req, t.workers[w]) else Fits(t, req, reply)
  {
    hide PeerAllowed, Coverage.Noted;
    var (t, reply) := ReadCommit(s, w);
    var a := s.workers[w];
    if reply.Data? {
      assert ReportedAt(t.sessions[a.ref], req.creds, reply.state, reply.unique);
      assert CountedAt(t.sessions[a.ref], req.creds, a.offset, |a.bytes|);
    }
  }

  lemma NextFits(s: State, w: WorkerId, req: Request, piece: Piece)
    requires Inv(s) && w in s.workers && StageFits(s, req, s.workers[w])
    ensures var (t, reply) := Apply(s, NextStep(w, s.workers[w], piece));
      if w in t.workers then reply == Pending && StageFits(t, req, t.workers[w]) else Fits(t, req, reply)
  {
    hide Core, Wf, WorkerOk;
    InvParts(s, w);
    match req
    case BeginReq(_, _, _) => BeginFits(s, w, req, piece);
    case ReadReq(_, _, _) => ReadFits(s, w, req, piece);
    case ControlReq(_, _, _) => ControlFits(s, w, req);
  }

  lemma ControlFits(s: State, w: WorkerId, req: Request)
    requires Wf(s) && w in s.workers && req.ControlReq? && StageFits(s, req, s.workers[w])
    ensures var (t, reply) := Apply(s, DoControlLocked(w));
      if w in t.workers then reply == Pending && StageFits(t, req, t.workers[w]) else Fits(t, req, reply)
  {
    hide Wf;
    var (t, reply) := ControlLocked(s, w);
    var r := s.workers[w].ref;
    if reply.Status? {
      assert ReportedAt(t.sessions[r], req.creds, reply.state, reply.unique);
      assert LastControl(t.sessions[r], req.sequence, req.op);
    }
  }

  lemma InvParts(s: State, w: WorkerId)
    requires Inv(s) && w in s.workers
    ensures Wf(s) && Core(s) && WorkerOk(s, s.workers[w])
  {
  }

  // ---------------------------------------------------------------- the worker

  /** The state after any steps of the rest of the world; they do not drive
      worker `w`. */
  function Disturbed(s: State, others: seq<Step>, w: WorkerId): (t: State)
    requires Wf(s)
    ensures Wf(t)
    decreases |others|
  {
    if others == [] then s
    else Disturbed(if Mover(others[0]) == Some(w) then s else Apply(s, others[0]).0, others[1..], w)
  }

  /** The rest of a request whose worker is between two lock regions. */
  function Continued(s: State, w: WorkerId, script: seq<Piece>): (r: (State, Option<Reply>))
    requires Wf(s)
    ensures Wf(r.0)
    decreases |script|
  {
    if script == [] then (s, None)
    else
      var t := Disturbed(s, script[0].others, w);
      if w !in t.workers then (t, None)
      else
        var (u, reply) := Apply(t, NextStep(w, t.workers[w], script[0]));
        if w in u.workers then Continued(u, w, script[1..]) else (u, Some(reply))
  }

  /** What a request comes to, in the end or as far as the script goes: no reply
      means the worker never answered. */
  function Served(s: State, w: WorkerId, peer: Peer, req: Request, script: seq<Piece>): (r: (State, Option<Reply>))
    requires Wf(s)
    ensures Wf(r.0)
  {
    if w in s.workers then (s, None)
    else
      var (t, reply) := Apply(s, FirstStep(w, peer, req));
      if reply != Pending then (t, Some(reply)) else Continued(t, w, script)
  }

  method Disturb(server: ServerState, others: seq<Step>, w: WorkerId)
    requires Inv(server.View())
    modifies server
    ensures Inv(server.View()) && Later(old(server.View()), server.View())
    ensures server.View() == Disturbed(old(server.View()), others, w)
    ensures w in server.workers <==> w in old(server.workers)
    ensures w in server.workers ==> server.workers[w] == old(server.workers)[w]
  {
    hide Inv, Later, Wf, Apply, CoversValid, Mover;
    InvWf(server.View());
    ghost var goal := Disturbed(server.View(), others, w);
    UnchangedLater(server.View(), server.View());
    assert others[0..] == others;
    for i := 0 to |others|
      invariant Inv(server.View()) && Wf(server.View()) && Later(old(server.View()), server.View())
      invariant goal == Disturbed(server.View(), others[i..], w)
      invariant w in server.workers <==> w in old(server.workers)
      invariant w in server.workers ==> server.workers[w] == old(server.workers)[w]
    {
      assert others[i..][0] == others[i] && others[i..][1..] == others[i + 1..];
      if Mover(others[i]) != Some(w) {
        ghost var before := server.View();
        InvCovers(before);
        var _ := server.Perform(others[i]);
        StepKeeps(before, others[i], w);
        InvWf(server.View());
        LaterTrans(old(server.View()), before, server.View());
      }
    }
    assert others[|others|..] == [];
  }

  lemma StepKeeps(s: State, step: Step, w: WorkerId)
    requires Inv(s) && Mover(step) != Some(w)
    ensures var t := Apply(s, step).0;
      && Inv(t) && Later(s, t)
      && (w in t.workers <==> w in s.workers) && (w in s.workers ==> t.workers[w] == s.workers[w])
  {
    hide Inv, Later, Apply, Wf;
    InvWf(s);
    InvStep(s, step);
    StepLater(s, step);
    if Mover(step).Some? {
      OthersUntouched(s, step, Mover(step).value);
    } else {
      NobodyMoves(s, step);
    }
  }

  lemma OnePiece(s: State, w: WorkerId, script: seq<Piece>, i: nat)
    requires Wf(s) && i < |script| && w in Disturbed(s, script[i].others, w).workers
    ensures var t := Disturbed(s, script[i].others, w); var (u, reply) := Apply(t, NextStep(w, t.workers[w], script[i]));
      Continued(s, w, script[i..]) == if w in u.workers then Continued(u, w, script[i + 1..]) else (u, Some(reply))
  {
    hide Disturbed, Apply, Wf, NextStep;
    assert script[i..][0] == script[i] && script[i..][1..] == script[i + 1..];
  }

  /** Serves `req` to the end, or as far as the script goes. */
  method Serve(server: ServerState, w: WorkerId, peer: Peer, req: Request, script: seq<Piece>) returns (reply: Option<Reply>)
    requires Inv(server.View())
    modifies server
    ensures Inv(server.View()) && Later(old(server.View()), server.View())
    ensures (server.View(), reply) == Served(old(server.View()), w, peer, req, script)
    ensures reply.Some? ==> Fits(server.View(), req, reply.value)
  {
    hide Inv, Later, Wf, Apply, CoversValid, Fits, StageFits, NextStep, Continued, Disturbed;
    ghost var start := server.View();
    InvWf(start);
    if w in server.workers {
      UnchangedLater(start, start);
      return None;
    }
    InvCovers(start);
    var first := server.Perform(FirstStep(w, peer, req));
    FirstFits(start, w, peer, req);
    InvStep(start, FirstStep(w, peer, req));
    InvWf(server.View());
    StepLater(start, FirstStep(w, peer, req));
    if first != Pending {
      RefusedFits(server.View(), req, first);
      return Some(first);
    }
    ghost var goal := Continued(server.View(), w, script);
    assert script[0..] == script;
    for i := 0 to |script|
      invariant Inv(server.View()) && Wf(server.View()) && Later(start, server.View())
      invariant w in server.workers && StageFits(server.View(), req, server.workers[w])
      invariant goal == Continued(server.View(), w, script[i..])
    {
      ghost var a := server.View();
      Disturb(server, script[i].others, w);
      ghost var b := server.View();
      OnePiece(a, w, script, i);
      StageStays(a, b, req, server.workers[w]);
      LaterTrans(start, a, b);
      InvWf(b);
      InvCovers(b);
      var step := NextStep(w, server.workers[w], script[i]);
      var answer := server.Perform(step);
      NextFits(b, w, req, script[i]);
      InvStep(b, step);
      InvWf(server.View());
      StepLater(b, step);
      LaterTrans(start, b, server.View());
      if w !in server.workers {
        return Some(answer);
      }
    }
    assert script[|script|..] == [];
    NoPieces(server.View(), w);
    return None;
  }

  lemma NoPieces(s: State, w: WorkerId)
    requires Wf(s)
    ensures Continued(s, w, []) == (s, None)
  {
  }

  lemma RefusedFits(s: State, req: Request, reply: Reply)
    requires reply.Refused?
    ensures Fits(s, req, reply)
  {
  }
}
