/** Every run of the two ends of one pairing over the channel their certificates
    pin: bytes arrive in order and unaltered, in any fragments, but may be cut
    off at any point. The hellos crossed an open network, so what each end took
    for the other's hello is arbitrary. */
module PairingRuns {
  import opened Common
  import opened Pairing

  type Hash = seq<Byte> -> Block

  datatype Phase = Proving | AwaitProof | Pending | Confirming | AwaitConfirm | Approved | Trusted | Failed

  /** `sent` is everything written so far, `read` how much of the peer's bytes
      has been consumed. */
  datatype Endpoint = Endpoint(local: Hello, remote: Hello, phase: Phase, decision: Option<bool>, sent: seq<Byte>, read: nat)

  datatype State = State(listener: Endpoint, connector: Endpoint)

  datatype Step =
    | Write(amount: nat)
    | Receive
    | Decide(approved: bool)
    | Persist(ok: bool)
    | Cut

  function Get(s: State, role: Role): Endpoint {
    if role == Listener then s.listener else s.connector
  }

  function Put(s: State, role: Role, e: Endpoint): State {
    if role == Listener then s.(listener := e) else s.(connector := e)
  }

  function Peer(role: Role): Role {
    if role == Listener then Connector else Listener
  }

  function Transcript(role: Role, e: Endpoint): seq<Byte> {
    if role == Listener then Preimage(e.local, e.remote) else Preimage(e.remote, e.local)
  }

  function Digest(hash: Hash, role: Role, e: Endpoint): Block {
    hash(Transcript(role, e))
  }

  // ------------------------------------------------------------------- the steps

  /** All that this end has to say, given its decision so far. */
  function Script(digest: Block, decision: Option<bool>): seq<Byte> {
    Proof(digest) + if decision.Some? then Confirmation(digest, decision.value) else []
  }

  function DoWrite(digest: Block, e: Endpoint, amount: nat): Endpoint {
    if e.phase != Proving && e.phase != Confirming then e
    else
      var script := Script(digest, e.decision);
      var end := Min(|e.sent| + amount, |script|);
      e.(sent := script[..end],
         phase := if end < |script| then e.phase else if e.phase == Proving then AwaitProof else AwaitConfirm)
  }

  /** `exchange_tls_proof` and `confirm` block until a whole message is there. */
  function DoReceive(digest: Block, e: Endpoint, incoming: seq<Byte>): Endpoint {
    if e.phase == AwaitProof && |incoming| >= e.read + PROOF_LENGTH then
      e.(read := e.read + PROOF_LENGTH,
         phase := if incoming[e.read..e.read + PROOF_LENGTH] == Proof(digest) then Pending else Failed)
    else if e.phase == AwaitConfirm && |incoming| >= e.read + CONFIRM_LENGTH then
      var decision := Decision(digest, incoming[e.read..e.read + CONFIRM_LENGTH]);
      e.(read := e.read + CONFIRM_LENGTH,
         phase := if e.decision == Some(true) && decision == Some(true) then Approved else Failed)
    else e
  }

  function Act(hash: Hash, role: Role, e: Endpoint, incoming: seq<Byte>, step: Step): Endpoint {
    match step
    case Write(amount) => DoWrite(Digest(hash, role, e), e, amount)
    case Receive => DoReceive(Digest(hash, role, e), e, incoming)
    case Decide(approved) => if e.phase == Pending then e.(phase := Confirming, decision := Some(approved)) else e
    case Persist(ok) => if e.phase == Approved then e.(phase := if ok then Trusted else Failed) else e
    case Cut => if e.phase == Trusted then e else e.(phase := Failed)
  }

  function Apply(hash: Hash, s: State, move: (Role, Step)): State {
    Put(s, move.0, Act(hash, move.0, Get(s, move.0), Get(s, Peer(move.0)).sent, move.1))
  }

  function Run(hash: Hash, s: State, moves: seq<(Role, Step)>): State
    decreases |moves|
  {
    if moves == [] then s else Apply(hash, Run(hash, s, moves[..|moves| - 1]), moves[|moves| - 1])
  }

  /** Each end wrote its own hello and read some hello of the other role; the
      channel came up, so each holds the other's true certificate. */
  predicate Started(s: State) {
    && (forall role: Role :: Fresh(role, Get(s, role)))
    && s.listener.remote.certificate == s.connector.local.certificate
    && s.connector.remote.certificate == s.listener.local.certificate
  }

  predicate Fresh(role: Role, e: Endpoint) {
    && e.local.role == role && e.remote.role == Peer(role)
    && CertificateOk(e.local.certificate) && CertificateOk(e.remote.certificate)
    && e.phase == Proving && e.decision == None && e.sent == [] && e.read == 0
  }

  // --------------------------------------------------------------- the invariant

  predicate EndOk(hash: Hash, role: Role, e: Endpoint, peer: Endpoint) {
    var mine, theirs := Digest(hash, role, e), Digest(hash, Peer(role), peer);
    && e.sent <= Script(mine, e.decision)
    && (e.phase.Proving? || e.phase.AwaitProof? ==> e.read == 0 && e.decision == None)
    && (e.phase.Pending? ==> e.decision == None)
    && (e.phase.Confirming? || e.phase.AwaitConfirm? ==> e.decision.Some?)
    && (e.phase.Pending? || e.phase.Confirming? || e.phase.AwaitConfirm? ==> e.read == PROOF_LENGTH && mine == theirs)
    && (e.phase.Approved? || e.phase.Trusted? ==> mine == theirs && e.decision == peer.decision == Some(true))
  }

  predicate Inv(hash: Hash, s: State) {
    EndOk(hash, Listener, s.listener, s.connector) && EndOk(hash, Connector, s.connector, s.listener)
  }

  lemma ScriptGrows(digest: Block, decision: bool)
    ensures Script(digest, None) <= Script(digest, Some(decision))
    ensures Script(digest, None)[..PROOF_LENGTH] == Proof(digest)
    ensures Script(digest, Some(decision))[..PROOF_LENGTH] == Proof(digest)
    ensures Script(digest, Some(decision))[PROOF_LENGTH..] == Confirmation(digest, decision)
    ensures |Script(digest, None)| == PROOF_LENGTH && |Script(digest, Some(decision))| == PROOF_LENGTH + CONFIRM_LENGTH
  {
  }

  /** The peer's first forty bytes are its proof. */
  lemma ProofSent(digest: Block, decision: Option<bool>, sent: seq<Byte>)
    requires sent <= Script(digest, decision) && |sent| >= PROOF_LENGTH
    ensures sent[0..PROOF_LENGTH] == Proof(digest)
  {
    ScriptGrows(digest, if decision.Some? then decision.value else false);
    hide Script, Proof;
    assert decision == None || decision == Some(decision.value);
    assert sent[0..PROOF_LENGTH] == Script(digest, decision)[..PROOF_LENGTH];
  }

  /** The next forty-one are its decision, which it has then taken. */
  lemma ConfirmationSent(digest: Block, decision: Option<bool>, sent: seq<Byte>)
    requires sent <= Script(digest, decision) && |sent| >= PROOF_LENGTH + CONFIRM_LENGTH
    ensures decision.Some? && sent[PROOF_LENGTH..PROOF_LENGTH + CONFIRM_LENGTH] == Confirmation(digest, decision.value)
  {
    ScriptGrows(digest, if decision.Some? then decision.value else false);
    hide Script, Confirmation;
    assert decision == None || decision == Some(decision.value);
    assert sent == Script(digest, decision);
  }

  lemma ReceiveOk(hash: Hash, role: Role, e: Endpoint, peer: Endpoint)
    requires EndOk(hash, role, e, peer) && EndOk(hash, Peer(role), peer, e)
    ensures EndOk(hash, role, DoReceive(Digest(hash, role, e), e, peer.sent), peer)
  {
    var mine, theirs := Digest(hash, role, e), Digest(hash, Peer(role), peer);
    if e.phase == AwaitProof && |peer.sent| >= e.read + PROOF_LENGTH {
      ProofSent(theirs, peer.decision, peer.sent);
      ProofInjective(mine, theirs);
    } else if e.phase == AwaitConfirm && |peer.sent| >= e.read + CONFIRM_LENGTH {
      ConfirmationSent(theirs, peer.decision, peer.sent);
      DecisionOfConfirmation(mine, theirs, peer.decision.value);
    }
    hide Script, Proof, Confirmation, Decision;
  }

  lemma WriteOk(hash: Hash, role: Role, e: Endpoint, peer: Endpoint, amount: nat)
    requires EndOk(hash, role, e, peer)
    ensures EndOk(hash, role, DoWrite(Digest(hash, role, e), e, amount), peer)
  {
    hide Script;
  }

  /** An end relies on nothing of its peer but its hellos and a decision it has
      already taken. */
  lemma PeerMoved(hash: Hash, role: Role, e: Endpoint, peer: Endpoint, moved: Endpoint)
    requires EndOk(hash, role, e, peer) && moved.local == peer.local && moved.remote == peer.remote
    requires peer.decision.Some? ==> moved.decision == peer.decision
    ensures EndOk(hash, role, e, moved)
  {
    hide Script, Preimage;
  }

  lemma ActOk(hash: Hash, role: Role, e: Endpoint, peer: Endpoint, step: Step)
    requires EndOk(hash, role, e, peer) && EndOk(hash, Peer(role), peer, e)
    ensures var f := Act(hash, role, e, peer.sent, step);
      EndOk(hash, role, f, peer) && EndOk(hash, Peer(role), peer, f)
  {
    var f := Act(hash, role, e, peer.sent, step);
    match step {
      case Write(amount) => WriteOk(hash, role, e, peer, amount);
      case Receive => ReceiveOk(hash, role, e, peer);
      case Decide(approved) => ScriptGrows(Digest(hash, role, e), approved);
      case Persist(ok) =>
      case Cut =>
    }
    hide Script, Decision, Proof, Preimage;
    assert EndOk(hash, role, f, peer);
    hide DoReceive, DoWrite;
    DecisionKept(hash, role, e, peer, step);
    hide Act, EndOk;
    PeerMoved(hash, Peer(role), peer, e, f);
  }

  lemma DecisionKept(hash: Hash, role: Role, e: Endpoint, peer: Endpoint, step: Step)
    requires EndOk(hash, role, e, peer)
    ensures var f := Act(hash, role, e, peer.sent, step);
      f.local == e.local && f.remote == e.remote && (e.decision.Some? ==> f.decision == e.decision)
  {
    hide Script, Decision, Proof, Preimage;
  }

  lemma InvStep(hash: Hash, s: State, move: (Role, Step))
    requires Inv(hash, s)
    ensures Inv(hash, Apply(hash, s, move)) && SameHellos(s, Apply(hash, s, move))
  {
    var e, peer := Get(s, move.0), Get(s, Peer(move.0));
    ActOk(hash, move.0, e, peer, move.1);
    DecisionKept(hash, move.0, e, peer, move.1);
    hide Act, EndOk;
  }

  /** No step changes which hellos an end works with. */
  predicate SameHellos(s: State, t: State) {
    forall role: Role :: Get(s, role).local == Get(t, role).local && Get(s, role).remote == Get(t, role).remote
  }

  lemma {:induction false} InvRun(hash: Hash, s: State, moves: seq<(Role, Step)>)
    requires Started(s)
    ensures Inv(hash, Run(hash, s, moves)) && SameHellos(s, Run(hash, s, moves))
  {
    if moves == [] {
      InvStart(hash, s);
      hide Inv, Started;
    } else {
      InvRun(hash, s, moves[..|moves| - 1]);
      InvStep(hash, Run(hash, s, moves[..|moves| - 1]), moves[|moves| - 1]);
      hide Inv, Apply, Started;
    }
  }

  lemma InvStart(hash: Hash, s: State)
    requires Started(s)
    ensures Inv(hash, s)
  {
    assert Fresh(Listener, Get(s, Listener)) && Fresh(Connector, Get(s, Connector));
    hide Script;
  }

  // ------------------------------------------------------------------ over all runs

  /** The digest tells apart the two transcripts of this session. */
  predicate NoCollision(hash: Hash, s: State) {
    var a, b := Transcript(Listener, s.listener), Transcript(Connector, s.connector);
    hash(a) == hash(b) ==> a == b
  }

  /** The two ends exchanged hellos that arrived as they were sent. */
  predicate Undisturbed(s: State) {
    s.listener.local == s.connector.remote && s.connector.local == s.listener.remote
  }

  lemma SameTranscript(hash: Hash, s: State)
    requires Started(s) && NoCollision(hash, s)
    ensures Digest(hash, Listener, s.listener) == Digest(hash, Connector, s.connector) <==> Undisturbed(s)
  {
    assert Fresh(Listener, Get(s, Listener)) && Fresh(Connector, Get(s, Connector));
    PreimageInjective(s.listener.local, s.listener.remote, s.connector.remote, s.connector.local);
    hide Preimage;
  }

  predicate Shown(e: Endpoint) {
    e.phase in {Pending, Confirming, AwaitConfirm, Approved, Trusted}
  }

  /** An end shows a code only if both hellos arrived unaltered, and then it is
      the code the other end computes. */
  lemma CodesAgree(hash: Hash, s: State, moves: seq<(Role, Step)>, role: Role)
    requires Started(s) && NoCollision(hash, s) && Shown(Get(Run(hash, s, moves), role))
    ensures Undisturbed(s)
    ensures Code(Digest(hash, Listener, s.listener)) == Code(Digest(hash, Connector, s.connector))
  {
    InvRun(hash, s, moves);
    SameTranscript(hash, s);
    hide Run, Script, Preimage, Code;
    var t := Run(hash, s, moves);
    assert Get(t, role).local == Get(s, role).local && Get(t, Peer(role)).local == Get(s, Peer(role)).local;
  }

  /** An end stores trust only if both users approved, in the same session. */
  lemma TrustNeedsBoth(hash: Hash, s: State, moves: seq<(Role, Step)>, role: Role)
    requires Started(s) && NoCollision(hash, s) && Get(Run(hash, s, moves), role).phase == Trusted
    ensures var t := Run(hash, s, moves);
      t.listener.decision == t.connector.decision == Some(true) && Undisturbed(s)
  {
    InvRun(hash, s, moves);
    CodesAgree(hash, s, moves, role);
    hide Run, Script;
  }

  // ------------------------------------------------------------- what can be reached

  lemma {:induction false} RunAppend(hash: Hash, s: State, a: seq<(Role, Step)>, b: seq<(Role, Step)>)
    ensures Run(hash, s, a + b) == Run(hash, Run(hash, s, a), b)
  {
    hide Apply;
    if b == [] {
      assert a + b == a;
    } else {
      var init := b[..|b| - 1];
      RunAppend(hash, s, a, init);
      assert (a + b)[..|a + b| - 1] == a + init;
    }
  }

  /** Both ends take the same step, the listener first. */
  function Both(step: Step): seq<(Role, Step)> {
    [(Listener, step), (Connector, step)]
  }

  lemma TwoMoves(hash: Hash, s: State, a: (Role, Step), b: (Role, Step))
    ensures Run(hash, s, [a, b]) == Apply(hash, Apply(hash, s, a), b)
  {
    hide Apply;
    assert [a, b][..1] == [a] && [a][..0] == [];
    assert Run(hash, s, []) == s;
    assert Run(hash, s, [a]) == Apply(hash, s, a);
  }

  /** Both ends in one phase of an undisturbed session. */
  predicate InStep(hash: Hash, s: State, t: State, phase: Phase, decision: Option<bool>, sent: nat, read: nat) {
    forall role: Role ::
      var digest := Digest(hash, role, Get(s, role));
      && sent <= |Script(digest, decision)|
      && Get(t, role) == Get(s, role).(phase := phase, decision := decision, sent := Script(digest, decision)[..sent], read := read)
  }

  lemma Proved(hash: Hash, s: State, t: State)
    requires Undisturbed(s) && InStep(hash, s, t, Proving, None, 0, 0)
    ensures InStep(hash, s, Run(hash, t, Both(Write(PROOF_LENGTH))), AwaitProof, None, PROOF_LENGTH, 0)
  {
    TwoMoves(hash, t, (Listener, Write(PROOF_LENGTH)), (Connector, Write(PROOF_LENGTH)));
    hide Run, Preimage;
    assert Get(t, Listener).sent == [] && Get(t, Connector).sent == [];
  }

  lemma ProofsRead(hash: Hash, s: State, t: State)
    requires Undisturbed(s) && InStep(hash, s, t, AwaitProof, None, PROOF_LENGTH, 0)
    ensures InStep(hash, s, Run(hash, t, Both(Receive)), Pending, None, PROOF_LENGTH, PROOF_LENGTH)
  {
    TwoMoves(hash, t, (Listener, Receive), (Connector, Receive));
    ProofSent(Digest(hash, Listener, Get(s, Listener)), None, Get(t, Listener).sent);
    ProofSent(Digest(hash, Connector, Get(s, Connector)), None, Get(t, Connector).sent);
    hide Run, Preimage, Script, Proof;
  }

  lemma BothDecide(hash: Hash, s: State, t: State)
    requires Undisturbed(s) && InStep(hash, s, t, Pending, None, PROOF_LENGTH, PROOF_LENGTH)
    ensures InStep(hash, s, Run(hash, t, Both(Decide(true))), Confirming, Some(true), PROOF_LENGTH, PROOF_LENGTH)
  {
    TwoMoves(hash, t, (Listener, Decide(true)), (Connector, Decide(true)));
    ScriptGrows(Digest(hash, Listener, Get(s, Listener)), true);
    ScriptGrows(Digest(hash, Connector, Get(s, Connector)), true);
    hide Run, Preimage, Script, Proof;
  }

  lemma BothConfirm(hash: Hash, s: State, t: State)
    requires Undisturbed(s) && InStep(hash, s, t, Confirming, Some(true), PROOF_LENGTH, PROOF_LENGTH)
    ensures InStep(hash, s, Run(hash, t, Both(Write(CONFIRM_LENGTH))), AwaitConfirm, Some(true), PROOF_LENGTH + CONFIRM_LENGTH, PROOF_LENGTH)
  {
    TwoMoves(hash, t, (Listener, Write(CONFIRM_LENGTH)), (Connector, Write(CONFIRM_LENGTH)));
    ScriptGrows(Digest(hash, Listener, Get(s, Listener)), true);
    ScriptGrows(Digest(hash, Connector, Get(s, Connector)), true);
    hide Run, Preimage, Script, Proof;
  }

  lemma ConfirmsRead(hash: Hash, s: State, t: State)
    requires Undisturbed(s) && InStep(hash, s, t, AwaitConfirm, Some(true), PROOF_LENGTH + CONFIRM_LENGTH, PROOF_LENGTH)
    ensures InStep(hash, s, Run(hash, t, Both(Receive)), Approved, Some(true), PROOF_LENGTH + CONFIRM_LENGTH, PROOF_LENGTH + CONFIRM_LENGTH)
  {
    TwoMoves(hash, t, (Listener, Receive), (Connector, Receive));
    var digest := Digest(hash, Listener, Get(s, Listener));
    assert digest == Digest(hash, Connector, Get(s, Connector));
    ConfirmationSent(digest, Some(true), Get(t, Listener).sent);
    ConfirmationSent(digest, Some(true), Get(t, Connector).sent);
    DecisionOfConfirmation(digest, digest, true);
    hide Run, Preimage, Script, Confirmation, Decision;
  }

  const Ceremony: seq<(Role, Step)> :=
    Both(Write(PROOF_LENGTH)) + Both(Receive) + Both(Decide(true)) + Both(Write(CONFIRM_LENGTH)) + Both(Receive)

  /** Two ends whose hellos arrived intact and whose users approve reach the
      point where each may store the other. */
  lemma CeremonyApproves(hash: Hash, s: State)
    requires Started(s) && Undisturbed(s)
    ensures var t := Run(hash, s, Ceremony); t.listener.phase == t.connector.phase == Approved
  {
    assert Fresh(Listener, Get(s, Listener)) && Fresh(Connector, Get(s, Connector));
    hide Run, Both, Digest, Script;
    assert InStep(hash, s, s, Proving, None, 0, 0);
    var a, b, c, d, e := Both(Write(PROOF_LENGTH)), Both(Receive), Both(Decide(true)), Both(Write(CONFIRM_LENGTH)), Both(Receive);
    Proved(hash, s, s);
    ProofsRead(hash, s, Run(hash, s, a));
    RunAppend(hash, s, a, b);
    BothDecide(hash, s, Run(hash, s, a + b));
    RunAppend(hash, s, a + b, c);
    BothConfirm(hash, s, Run(hash, s, a + b + c));
    RunAppend(hash, s, a + b + c, d);
    ConfirmsRead(hash, s, Run(hash, s, a + b + c + d));
    RunAppend(hash, s, a + b + c + d, e);
    var t := Run(hash, s, Ceremony);
    assert Get(t, Listener).phase == Approved && Get(t, Connector).phase == Approved;
  }

  /** Both ends can come to trust each other. */
  lemma BothCanTrust(hash: Hash, s: State)
    requires Started(s) && Undisturbed(s)
    ensures var t := Run(hash, s, Ceremony + Both(Persist(true))); t.listener.phase == t.connector.phase == Trusted
  {
    CeremonyApproves(hash, s);
    RunAppend(hash, s, Ceremony, Both(Persist(true)));
    TwoMoves(hash, Run(hash, s, Ceremony), (Listener, Persist(true)), (Connector, Persist(true)));
    hide Run, Digest;
  }

  /** But trust need not be mutual: either end may fail to store it after the
      other has. */
  lemma OneMayTrustAlone(hash: Hash, s: State, role: Role)
    requires Started(s) && Undisturbed(s)
    ensures var t := Run(hash, s, Ceremony + [(role, Persist(true)), (Peer(role), Cut)]);
      Get(t, role).phase == Trusted && Get(t, Peer(role)).phase == Failed
  {
    CeremonyApproves(hash, s);
    RunAppend(hash, s, Ceremony, [(role, Persist(true)), (Peer(role), Cut)]);
    TwoMoves(hash, Run(hash, s, Ceremony), (role, Persist(true)), (Peer(role), Cut));
    hide Run, Digest;
  }

  // ---------------------------------------------------- when trust is not mutual

  /** The channel is cut, or storing trust fails: what the other end cannot see. */
  predicate Breaks(e: Endpoint, step: Step) {
    (step.Cut? && e.phase != Trusted) || (step == Persist(false) && e.phase == Approved)
  }

  ghost predicate BrokeAt(hash: Hash, s: State, moves: seq<(Role, Step)>, role: Role, i: nat)
    requires i < |moves|
  {
    moves[i].0 == role && Breaks(Get(Run(hash, s, moves[..i]), role), moves[i].1)
  }

  ghost predicate Broke(hash: Hash, s: State, moves: seq<(Role, Step)>, role: Role) {
    exists i :: 0 <= i < |moves| && BrokeAt(hash, s, moves, role, i)
  }

  lemma BrokeSplits(hash: Hash, s: State, moves: seq<(Role, Step)>, role: Role)
    requires moves != []
    ensures var n := |moves| - 1; Broke(hash, s, moves, role) <==> Broke(hash, s, moves[..n], role) || BrokeAt(hash, s, moves, role, n)
  {
    hide Run, Breaks;
    var n := |moves| - 1;
    assert forall i | 0 <= i < n :: moves[..n][..i] == moves[..i];
    assert forall i | 0 <= i < n :: BrokeAt(hash, s, moves[..n], role, i) <==> BrokeAt(hash, s, moves, role, i);
    if i :| 0 <= i < |moves[..n]| && BrokeAt(hash, s, moves[..n], role, i) {
      assert BrokeAt(hash, s, moves, role, i);
    }
  }

  lemma FailedStays(hash: Hash, s: State, move: (Role, Step), role: Role)
    requires Get(s, role).phase == Failed || (move.0 == role && Breaks(Get(s, role), move.1))
    ensures Get(Apply(hash, s, move), role).phase == Failed
  {
    hide Script, Proof, Decision, Preimage;
  }

  lemma {:induction false} BrokeFails(hash: Hash, s: State, moves: seq<(Role, Step)>, role: Role)
    requires Broke(hash, s, moves, role)
    ensures Get(Run(hash, s, moves), role).phase == Failed
  {
    var n := |moves| - 1;
    BrokeSplits(hash, s, moves, role);
    if Broke(hash, s, moves[..n], role) {
      BrokeFails(hash, s, moves[..n], role);
    }
    FailedStays(hash, Run(hash, s, moves[..n]), moves[n], role);
    hide Apply, Broke;
  }

  /** Without such an event of its own an end fails only over a transcript that
      differs or a refusal. */
  predicate FailedWhy(hash: Hash, role: Role, e: Endpoint, peer: Endpoint) {
    e.phase.Failed? ==>
      Digest(hash, role, e) != Digest(hash, Peer(role), peer) || e.decision == Some(false) || peer.decision == Some(false)
  }

  /** With equal digests a peer that wrote a proof or an approval was believed. */
  lemma WhyReceive(hash: Hash, role: Role, e: Endpoint, peer: Endpoint)
    requires EndOk(hash, role, e, peer) && EndOk(hash, Peer(role), peer, e) && FailedWhy(hash, role, e, peer)
    ensures FailedWhy(hash, role, DoReceive(Digest(hash, role, e), e, peer.sent), peer)
  {
    var mine, theirs := Digest(hash, role, e), Digest(hash, Peer(role), peer);
    if e.phase == AwaitProof && |peer.sent| >= e.read + PROOF_LENGTH {
      ProofSent(theirs, peer.decision, peer.sent);
      ProofInjective(mine, theirs);
    } else if e.phase == AwaitConfirm && |peer.sent| >= e.read + CONFIRM_LENGTH {
      ConfirmationSent(theirs, peer.decision, peer.sent);
      DecisionOfConfirmation(mine, theirs, peer.decision.value);
    }
    hide Script, Proof, Confirmation, Decision, Preimage;
  }

  lemma WhyAct(hash: Hash, role: Role, e: Endpoint, peer: Endpoint, step: Step)
    requires EndOk(hash, role, e, peer) && EndOk(hash, Peer(role), peer, e) && FailedWhy(hash, role, e, peer)
    requires !Breaks(e, step)
    ensures FailedWhy(hash, role, Act(hash, role, e, peer.sent, step), peer)
  {
    hide Script, Proof, Confirmation, Decision, Preimage, EndOk, DoReceive;
    if step.Receive? {
      WhyReceive(hash, role, e, peer);
    }
  }

  lemma WhyPeer(hash: Hash, role: Role, e: Endpoint, peer: Endpoint, step: Step)
    requires EndOk(hash, Peer(role), peer, e) && FailedWhy(hash, role, e, peer)
    ensures FailedWhy(hash, role, e, Act(hash, Peer(role), peer, e.sent, step))
  {
    DecisionKept(hash, Peer(role), peer, e, step);
    hide Act, EndOk, Preimage;
  }

  lemma {:induction false} UnbrokenWhy(hash: Hash, s: State, moves: seq<(Role, Step)>, role: Role)
    requires Started(s) && !Broke(hash, s, moves, role)
    ensures var t := Run(hash, s, moves); FailedWhy(hash, role, Get(t, role), Get(t, Peer(role)))
  {
    if moves == [] {
      assert Fresh(role, Get(s, role));
    } else {
      var n := |moves| - 1;
      var t := Run(hash, s, moves[..n]);
      BrokeSplits(hash, s, moves, role);
      UnbrokenWhy(hash, s, moves[..n], role);
      InvRun(hash, s, moves[..n]);
      hide Broke, Run, Started, EndOk, FailedWhy, Breaks;
      if moves[n].0 == role {
        WhyAct(hash, role, Get(t, role), Get(t, Peer(role)), moves[n].1);
      } else {
        WhyPeer(hash, role, Get(t, role), Get(t, Peer(role)), moves[n].1);
      }
      hide Act;
    }
  }

  /** How much each end has written by when. */
  predicate Paced(e: Endpoint, peer: Endpoint) {
    && (e.phase.Proving? ==> |e.sent| < PROOF_LENGTH)
    && (e.phase.Pending? || e.phase.Confirming? ==> |e.sent| < PROOF_LENGTH + CONFIRM_LENGTH)
    && (e.phase.AwaitConfirm? || e.phase.Approved? || e.phase.Trusted? ==> |e.sent| == PROOF_LENGTH + CONFIRM_LENGTH)
    && (e.phase.Approved? || e.phase.Trusted? ==> |peer.sent| >= PROOF_LENGTH + CONFIRM_LENGTH)
    && (e.decision == None ==> |e.sent| <= PROOF_LENGTH)
  }

  lemma PacedAct(hash: Hash, role: Role, e: Endpoint, peer: Endpoint, step: Step)
    requires EndOk(hash, role, e, peer) && Paced(e, peer)
    ensures var f := Act(hash, role, e, peer.sent, step); Paced(f, peer) && |f.sent| >= |e.sent|
  {
    var digest := Digest(hash, role, e);
    ScriptGrows(digest, if e.decision.Some? then e.decision.value else false);
    hide Script, Proof, Decision, Preimage;
    assert e.decision == None || e.decision == Some(e.decision.value);
  }

  predicate BothPaced(s: State) {
    Paced(s.listener, s.connector) && Paced(s.connector, s.listener)
  }

  lemma PacedStep(hash: Hash, s: State, move: (Role, Step))
    requires Inv(hash, s) && BothPaced(s)
    ensures BothPaced(Apply(hash, s, move))
  {
    PacedAct(hash, move.0, Get(s, move.0), Get(s, Peer(move.0)), move.1);
    hide Act, EndOk;
  }

  lemma {:induction false} PacedRun(hash: Hash, s: State, moves: seq<(Role, Step)>)
    requires Started(s)
    ensures BothPaced(Run(hash, s, moves))
  {
    if moves == [] {
      assert Fresh(Listener, Get(s, Listener)) && Fresh(Connector, Get(s, Connector));
    } else {
      PacedRun(hash, s, moves[..|moves| - 1]);
      InvRun(hash, s, moves[..|moves| - 1]);
      PacedStep(hash, Run(hash, s, moves[..|moves| - 1]), moves[|moves| - 1]);
      hide Apply, Started, BothPaced;
    }
  }

  /** An end that has not failed when the other stored its trust has all it
      needs. */
  lemma CanFinish(hash: Hash, role: Role, e: Endpoint, peer: Endpoint)
    requires EndOk(hash, role, e, peer) && EndOk(hash, Peer(role), peer, e) && Paced(e, peer) && Paced(peer, e)
    requires peer.phase == Trusted && e.phase != Failed
    ensures var f := Act(hash, role, e, peer.sent, Receive);
      Act(hash, role, f, peer.sent, Persist(true)).phase == Trusted
  {
    var mine, theirs := Digest(hash, role, e), Digest(hash, Peer(role), peer);
    if e.phase == AwaitConfirm {
      ConfirmationSent(theirs, peer.decision, peer.sent);
      DecisionOfConfirmation(mine, theirs, true);
    }
    hide Script, Confirmation, Decision, Preimage, Proof;
  }

  /** When trust is mutual, exactly: once one end has stored it, the other has
      failed if and only if its own channel was cut or its own storing failed;
      otherwise it can still finish alone. */
  lemma MutualExactly(hash: Hash, s: State, moves: seq<(Role, Step)>, role: Role)
    requires Started(s) && Get(Run(hash, s, moves), role).phase == Trusted
    ensures var other := Get(Run(hash, s, moves), Peer(role)); other.phase == Failed <==> Broke(hash, s, moves, Peer(role))
    ensures Get(Run(hash, s, moves), Peer(role)).phase != Failed ==>
      Get(Run(hash, s, moves + [(Peer(role), Receive), (Peer(role), Persist(true))]), Peer(role)).phase == Trusted
  {
    var t, other := Run(hash, s, moves), Peer(role);
    InvRun(hash, s, moves);
    PacedRun(hash, s, moves);
    if Broke(hash, s, moves, other) {
      BrokeFails(hash, s, moves, other);
    } else {
      UnbrokenWhy(hash, s, moves, other);
      TrustedAgree(hash, t, role);
    }
    RunAppend(hash, s, moves, [(other, Receive), (other, Persist(true))]);
    TwoMoves(hash, t, (other, Receive), (other, Persist(true)));
    if Get(t, other).phase != Failed {
      CanFinish(hash, other, Get(t, other), Get(t, role));
    }
    hide Run, Broke, EndOk, Act, Started, Digest;
  }

  lemma TrustedAgree(hash: Hash, t: State, role: Role)
    requires Inv(hash, t) && Get(t, role).phase == Trusted
    ensures Get(t, role).decision == Get(t, Peer(role)).decision == Some(true)
    ensures Digest(hash, role, Get(t, role)) == Digest(hash, Peer(role), Get(t, Peer(role)))
  {
    hide Script, Preimage;
  }
}
