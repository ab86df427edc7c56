/** The payloads inside the frames: credentials, the requests of a transfer and
    their replies (secure_transfer.rs). The server's and the client's values
    stand for fixed-width big-endian fields. */
module Messages {
  import opened Common
  import opened Bytes
  import opened ServerModel
  import opened Service
  import opened ServerInvariant
  import Coverage
  import Frames

  const CREDENTIALS_LEN: nat := 112
  const BEGIN_LEN: nat := 64
  const BEGUN_LEN: nat := 121
  const STATUS_LEN: nat := 10

  // ----------------------------------------------------------------- credentials

  predicate TypedCredentials(c: Credentials) {
    && c.offer < Pow256(16) && c.file < Pow256(16) && c.transfer < Pow256(16)
    && c.capability < Pow256(32) && c.serverNonce < Pow256(32)
  }

  function CredentialBytes(c: Credentials): (b: seq<Byte>)
    ensures |b| == CREDENTIALS_LEN
  {
    ToBe(c.offer, 16) + ToBe(c.file, 16) + ToBe(c.transfer, 16) + ToBe(c.capability, 32) + ToBe(c.serverNonce, 32)
  }

  function CredentialsAt(b: seq<Byte>): Credentials
    requires |b| >= CREDENTIALS_LEN
  {
    Credentials(FromBe(b[0..16]), FromBe(b[16..32]), FromBe(b[32..48]), FromBe(b[48..80]), FromBe(b[80..112]))
  }

  lemma CredentialSlices(c: Credentials, rest: seq<Byte>)
    ensures var b := CredentialBytes(c) + rest;
      && b[0..16] == ToBe(c.offer, 16) && b[16..32] == ToBe(c.file, 16) && b[32..48] == ToBe(c.transfer, 16)
      && b[48..80] == ToBe(c.capability, 32) && b[80..112] == ToBe(c.serverNonce, 32) && b[112..] == rest
  {
    hide ToBe;
  }

  lemma CredentialsRead(c: Credentials, rest: seq<Byte>)
    requires TypedCredentials(c)
    ensures CredentialsAt(CredentialBytes(c) + rest) == c
  {
    CredentialSlices(c, rest);
    FromTo(c.offer, 16);
    FromTo(c.file, 16);
    FromTo(c.transfer, 16);
    FromTo(c.capability, 32);
    FromTo(c.serverNonce, 32);
    hide ToBe, FromBe, Pow256, CredentialBytes;
  }

  lemma CredentialsWritten(b: seq<Byte>)
    requires |b| >= CREDENTIALS_LEN
    ensures TypedCredentials(CredentialsAt(b)) && CredentialBytes(CredentialsAt(b)) == b[..CREDENTIALS_LEN]
  {
    hide ToBe, FromBe, Pow256;
    Field(b, 0, 16);
    Field(b, 16, 32);
    Field(b, 32, 48);
    Field(b, 48, 80);
    Field(b, 80, 112);
    Glue(b, 16, 32);
    Glue(b, 32, 48);
    Glue(b, 48, 80);
    Glue(b, 80, 112);
  }

  /** The numbers both ends share. */
  lemma WireNumbers()
    ensures (ControlOf(5), ControlOf(6), ControlOf(7), ControlOf(9)) == (Some(Pause), Some(Resume), Some(Cancel), Some(ControlOp.Complete))
    ensures forall opcode | opcode !in {5, 6, 7, 9} :: ControlOf(opcode) == None
    ensures forall op :: ControlOf(OpcodeOf(op)) == Some(op)
    ensures (StateOf(0), StateOf(1), StateOf(2), StateOf(3)) == (Some(Running), Some(Paused), Some(Cancelled), Some(Completed))
    ensures forall b | b > 3 :: StateOf(b) == None
    ensures forall t :: StateOf(StateByte(t)) == Some(t)
    ensures (RefusalOf(1), RefusalOf(2), RefusalOf(3), RefusalOf(4)) == (Some(Invalid), Some(Denied), Some(Expired), Some(Replay))
    ensures (RefusalOf(5), RefusalOf(6), RefusalOf(8)) == (Some(Busy), Some(WasCancelled), Some(SourceChanged))
    ensures forall why :: RefusalOf(StatusByte(why)) == Some(why)
  {
  }

  // -------------------------------------------------------------------- requests

  function OpcodeOf(op: ControlOp): nat {
    match op
    case Pause => 5
    case Resume => 6
    case Cancel => 7
    case Complete => 9
  }

  function ControlOf(opcode: nat): Option<ControlOp> {
    if opcode == 5 then Some(Pause)
    else if opcode == 6 then Some(Resume)
    else if opcode == 7 then Some(Cancel)
    else if opcode == 9 then Some(Complete)
    else None
  }

  predicate TypedRequest(req: Request) {
    match req
    case BeginReq(offer, file, nonce) => offer < Pow256(16) && file < Pow256(16) && nonce < Pow256(32)
    case ReadReq(creds, offset, requested) => TypedCredentials(creds) && offset < Pow256(8) && requested < Pow256(4)
    case ControlReq(creds, sequence, _) => TypedCredentials(creds) && sequence < Pow256(8)
  }

  function RequestPayload(req: Request): seq<Byte> {
    match req
    case BeginReq(offer, file, nonce) => ToBe(offer, 16) + ToBe(file, 16) + ToBe(nonce, 32)
    case ReadReq(creds, offset, requested) => CredentialBytes(creds) + (ToBe(offset, 8) + ToBe(requested, 4))
    case ControlReq(creds, sequence, _) => CredentialBytes(creds) + ToBe(sequence, 8)
  }

  function RequestOpcode(req: Request): nat {
    match req
    case BeginReq(_, _, _) => 3
    case ReadReq(_, _, _) => 4
    case ControlReq(_, _, op) => OpcodeOf(op)
  }

  /** The frame the client sends, with the connection's next request number. */
  function RequestFrame(id: nat, req: Request): Frames.Frame {
    Frames.Frame(RequestOpcode(req), id, RequestPayload(req))
  }

  /** The server's reading of a frame; `None` is an unknown opcode, one of no
      transfer, or the Invalid status for a payload of the wrong length. */
  function ParseRequest(opcode: nat, b: seq<Byte>): Option<Request> {
    if opcode == 3 then
      if |b| != BEGIN_LEN then None else Some(BeginReq(FromBe(b[0..16]), FromBe(b[16..32]), FromBe(b[32..64])))
    else if opcode == 4 then
      if |b| != CREDENTIALS_LEN + 12 then None
      else Some(ReadReq(CredentialsAt(b), FromBe(b[112..120]), FromBe(b[120..124])))
    else if ControlOf(opcode).Some? then
      if |b| != CREDENTIALS_LEN + 8 then None
      else Some(ControlReq(CredentialsAt(b), FromBe(b[112..120]), ControlOf(opcode).value))
    else None
  }

  lemma BeginSlices(offer: nat, file: nat, nonce: nat)
    ensures var b := RequestPayload(BeginReq(offer, file, nonce));
      |b| == BEGIN_LEN && b[0..16] == ToBe(offer, 16) && b[16..32] == ToBe(file, 16) && b[32..64] == ToBe(nonce, 32)
  {
    hide ToBe;
  }

  lemma ReadSlices(creds: Credentials, offset: nat, requested: nat)
    ensures var b := RequestPayload(ReadReq(creds, offset, requested));
      && |b| == CREDENTIALS_LEN + 12 && b[..112] == CredentialBytes(creds)
      && b[112..120] == ToBe(offset, 8) && b[120..124] == ToBe(requested, 4)
  {
    hide ToBe, CredentialBytes;
  }

  lemma ControlSlices(creds: Credentials, sequence: nat, op: ControlOp)
    ensures var b := RequestPayload(ControlReq(creds, sequence, op));
      && |b| == CREDENTIALS_LEN + 8 && b[..112] == CredentialBytes(creds)
      && b[112..120] == ToBe(sequence, 8)
  {
    hide ToBe, CredentialBytes;
  }

  lemma BeginRead(offer: nat, file: nat, nonce: nat)
    requires TypedRequest(BeginReq(offer, file, nonce))
    ensures ParseRequest(3, RequestPayload(BeginReq(offer, file, nonce))) == Some(BeginReq(offer, file, nonce))
  {
    hide ToBe, FromBe, Pow256, RequestPayload;
    BeginSlices(offer, file, nonce);
    FromTo(offer, 16);
    FromTo(file, 16);
    FromTo(nonce, 32);
  }

  lemma ReadRead(creds: Credentials, offset: nat, requested: nat)
    requires TypedRequest(ReadReq(creds, offset, requested))
    ensures ParseRequest(4, RequestPayload(ReadReq(creds, offset, requested))) == Some(ReadReq(creds, offset, requested))
  {
    hide ToBe, FromBe, Pow256, CredentialsAt, CredentialBytes, TypedCredentials;
    ReadSlices(creds, offset, requested);
    CredentialsRead(creds, ToBe(offset, 8) + ToBe(requested, 4));
    FromTo(offset, 8);
    FromTo(requested, 4);
  }

  lemma ControlRead(creds: Credentials, sequence: nat, op: ControlOp)
    requires TypedRequest(ControlReq(creds, sequence, op))
    ensures ParseRequest(OpcodeOf(op), RequestPayload(ControlReq(creds, sequence, op))) == Some(ControlReq(creds, sequence, op))
  {
    hide ToBe, FromBe, Pow256, CredentialsAt, CredentialBytes, TypedCredentials;
    ControlSlices(creds, sequence, op);
    CredentialsRead(creds, ToBe(sequence, 8));
    FromTo(sequence, 8);
  }

  /** Every request reaches the server as it was meant. */
  lemma RequestRoundTrip(req: Request)
    requires TypedRequest(req)
    ensures ParseRequest(RequestOpcode(req), RequestPayload(req)) == Some(req)
  {
    hide RequestPayload, ParseRequest, TypedRequest;
    match req
    case BeginReq(offer, file, nonce) => BeginRead(offer, file, nonce);
    case ReadReq(creds, offset, requested) => ReadRead(creds, offset, requested);
    case ControlReq(creds, sequence, op) => ControlRead(creds, sequence, op);
  }

  lemma BeginUnique(b: seq<Byte>)
    requires |b| == BEGIN_LEN
    ensures var req := ParseRequest(3, b).value; TypedRequest(req) && RequestPayload(req) == b
  {
    hide ToBe, FromBe, Pow256;
    Field(b, 0, 16);
    Field(b, 16, 32);
    Field(b, 32, 64);
    Glue(b, 16, 32);
    Glue(b, 32, 64);
  }

  lemma ReadUnique(b: seq<Byte>)
    requires |b| == CREDENTIALS_LEN + 12
    ensures var req := ParseRequest(4, b).value; TypedRequest(req) && RequestPayload(req) == b
  {
    hide ToBe, FromBe, Pow256, CredentialBytes, CredentialsAt, TypedCredentials;
    CredentialsWritten(b);
    Field(b, 112, 120);
    Field(b, 120, 124);
    assert b == b[..112] + (b[112..120] + b[120..124]);
  }

  lemma ControlUnique(opcode: nat, b: seq<Byte>)
    requires |b| == CREDENTIALS_LEN + 8 && ControlOf(opcode).Some?
    ensures var req := ParseRequest(opcode, b).value;
      TypedRequest(req) && RequestOpcode(req) == opcode && RequestPayload(req) == b
  {
    hide ToBe, FromBe, Pow256, CredentialBytes, CredentialsAt, TypedCredentials;
    CredentialsWritten(b);
    Field(b, 112, 120);
    assert b == b[..112] + b[112..120];
  }

  /** No other payload is read as that request. */
  lemma RequestUnique(opcode: nat, b: seq<Byte>)
    requires ParseRequest(opcode, b).Some?
    ensures var req := ParseRequest(opcode, b).value;
      TypedRequest(req) && RequestOpcode(req) == opcode && RequestPayload(req) == b
  {
    hide RequestPayload, TypedRequest, CredentialsAt, FromBe;
    if opcode == 3 {
      BeginUnique(b);
    } else if opcode == 4 {
      ReadUnique(b);
    } else {
      ControlUnique(opcode, b);
    }
  }

  /** A request framed by the client, whatever follows it on the connection. */
  lemma RequestOverTheWire(id: nat, req: Request, rest: seq<Byte>, broken: bool)
    requires TypedRequest(req) && id <= U64_MAX
    ensures var (outcome, taken) := Frames.ParseFrame(Frames.FrameBytes(RequestFrame(id, req)) + rest, broken);
      && outcome == Frames.Got(RequestFrame(id, req)) && taken == |Frames.FrameBytes(RequestFrame(id, req))|
      && ParseRequest(outcome.frame.opcode, outcome.frame.payload) == Some(req)
  {
    RequestRoundTrip(req);
    PayloadFits(req);
    hide RequestPayload, Frames.FrameBytes, Frames.ParseFrame, ParseRequest;
    Frames.ParseEncoded(RequestFrame(id, req), rest, broken);
  }

  lemma PayloadFits(req: Request)
    ensures |RequestPayload(req)| <= Frames.MAX_FRAME_PAYLOAD && RequestOpcode(req) < 0x1_0000
  {
  }

  // --------------------------------------------------------------------- replies

  function StatusByte(why: Refusal): Byte {
    match why
    case Invalid => 1
    case Denied => 2
    case Expired => 3
    case Replay => 4
    case Busy => 5
    case WasCancelled => 6
    case SourceChanged => 8
  }

  function RefusalOf(status: nat): Option<Refusal> {
    match status
    case 1 => Some(Invalid)
    case 2 => Some(Denied)
    case 3 => Some(Expired)
    case 4 => Some(Replay)
    case 5 => Some(Busy)
    case 6 => Some(WasCancelled)
    case 8 => Some(SourceChanged)
    case _ => None
  }

  function StateByte(t: TransferState): Byte {
    match t
    case Running => 0
    case Paused => 1
    case Cancelled => 2
    case Completed => 3
  }

  function StateOf(b: nat): Option<TransferState> {
    match b
    case 0 => Some(Running)
    case 1 => Some(Paused)
    case 2 => Some(Cancelled)
    case 3 => Some(Completed)
    case _ => None
  }

  function StatusBytes(state: TransferState, unique: nat): (b: seq<Byte>)
    ensures |b| == STATUS_LEN
  {
    [0, StateByte(state)] + ToBe(unique, 8)
  }

  /** A lifetime past u64 milliseconds is sent as the largest one. */
  function AsSent(reply: Reply): Reply {
    if reply.Begun? then reply.(remaining := Min(reply.remaining, U64_MAX)) else reply
  }

  function ReplyPayload(reply: Reply): seq<Byte>
    requires !reply.Pending?
  {
    match reply
    case Refused(why) => [StatusByte(why)]
    case Begun(creds, remaining) => [0] + CredentialBytes(creds) + ToBe(Min(remaining, U64_MAX), 8)
    case Status(state, unique) => StatusBytes(state, unique)
    case Data(state, unique, bytes) => StatusBytes(state, unique) + ToBe(|bytes|, 4) + bytes
  }

  function ParseStatus(b: seq<Byte>): Option<(TransferState, nat)>
    requires |b| > 0
  {
    if b[0] != 0 || |b| < STATUS_LEN || StateOf(b[1]).None? then None
    else Some((StateOf(b[1]).value, FromBe(b[2..10])))
  }

  /** The client's reading of a reply. `None` is an error without a name here:
      a malformed reply, or a status the modelled server never sends. */
  function ParseReply(req: Request, b: seq<Byte>): Option<Reply> {
    if b == [] then None
    else if b[0] != 0 then (if RefusalOf(b[0]).Some? then Some(Refused(RefusalOf(b[0]).value)) else None)
    else
      match req
      case BeginReq(_, _, _) =>
        if |b| != BEGUN_LEN then None else Some(Begun(CredentialsAt(b[1..]), FromBe(b[113..121])))
      case ControlReq(_, _, _) =>
        var status := ParseStatus(b);
        if status.None? then None else Some(Status(status.value.0, status.value.1))
      case ReadReq(_, _, requested) =>
        var status := ParseStatus(b);
        if status.None? || |b| < 14 then None
        else
          var length := FromBe(b[10..14]);
          if |b| != 14 + length || length > requested then None
          else Some(Data(status.value.0, status.value.1, b[14..]))
  }

  /** A reply of the kind the request asks for, with fields in range. */
  predicate Answers(req: Request, reply: Reply) {
    reply.Refused? ||
    match req
    case BeginReq(_, _, _) => reply.Begun? && TypedCredentials(reply.creds)
    case ControlReq(_, _, _) => reply.Status? && reply.unique < Pow256(8)
    case ReadReq(_, _, requested) => reply.Data? && reply.unique < Pow256(8) && |reply.bytes| <= requested < Pow256(4)
  }

  lemma StatusSlices(state: TransferState, unique: nat, rest: seq<Byte>)
    requires unique < Pow256(8)
    ensures ParseStatus(StatusBytes(state, unique) + rest) == Some((state, unique))
  {
    FromTo(unique, 8);
    hide ToBe, FromBe, Pow256;
    assert (StatusBytes(state, unique) + rest)[2..10] == ToBe(unique, 8);
  }

  lemma DataSlices(state: TransferState, unique: nat, bytes: seq<Byte>)
    ensures var b := ReplyPayload(Data(state, unique, bytes));
      && |b| == 14 + |bytes| && b[0] == 0 && b[1] == StateByte(state) && b[2..10] == ToBe(unique, 8)
      && b[10..14] == ToBe(|bytes|, 4) && b[14..] == bytes
      && b == StatusBytes(state, unique) + (ToBe(|bytes|, 4) + bytes)
  {
    hide ToBe;
  }

  lemma BegunSlices(creds: Credentials, remaining: nat)
    ensures var b := ReplyPayload(Begun(creds, remaining)); var sent := ToBe(Min(remaining, U64_MAX), 8);
      |b| == BEGUN_LEN && b[0] == 0 && b[113..121] == sent && b[1..] == CredentialBytes(creds) + sent
  {
    hide ToBe, CredentialBytes;
  }

  /** Every answer reaches the client as it was meant. */
  lemma ReplyRoundTrip(req: Request, reply: Reply)
    requires !reply.Pending? && Answers(req, reply)
    ensures ParseReply(req, ReplyPayload(reply)) == Some(AsSent(reply))
  {
    match reply
    case Refused(why) =>
    case Begun(creds, remaining) =>
      BegunSlices(creds, remaining);
      Widths();
      CredentialsRead(creds, ToBe(Min(remaining, U64_MAX), 8));
      FromTo(Min(remaining, U64_MAX), 8);
      hide ToBe, FromBe, Pow256, CredentialsAt, CredentialBytes, ReplyPayload;
    case Status(state, unique) =>
      StatusSlices(state, unique, []);
      hide ToBe, FromBe, Pow256, ParseStatus;
      assert StatusBytes(state, unique) + [] == StatusBytes(state, unique);
    case Data(state, unique, bytes) =>
      DataSlices(state, unique, bytes);
      StatusSlices(state, unique, ToBe(|bytes|, 4) + bytes);
      FromTo(|bytes|, 4);
      hide ToBe, FromBe, Pow256, ParseStatus, StatusBytes, ReplyPayload;
  }

  const RESPONSE_BIT: nat := 0x8000

  /** The frame the server answers with. */
  function ReplyFrame(id: nat, req: Request, reply: Reply): Frames.Frame
    requires !reply.Pending?
  {
    Frames.Frame(RequestOpcode(req) + RESPONSE_BIT, id, ReplyPayload(reply))
  }

  lemma ProgressFits(s: State, r: Ref)
    requires Inv(s) && r < |s.sessions|
    ensures s.sessions[r].cover.unique <= U64_MAX
  {
    CoreSession(s, r);
    Coverage.NoteAllMeaning(s.sessions[r].notes);
  }

  lemma ReportedFits(s: State, creds: Credentials, state: TransferState, unique: nat)
    requires Inv(s) && Reported(s, creds, state, unique)
    ensures unique <= U64_MAX
  {
    hide Inv;
    var r :| 0 <= r < |s.sessions| && ReportedAt(s.sessions[r], creds, state, unique);
    ProgressFits(s, r);
  }

  lemma HonouredReports(s: State, creds: Credentials, sequence: nat, op: ControlOp, state: TransferState, unique: nat)
    requires Honoured(s, creds, sequence, op, state, unique)
    ensures Reported(s, creds, state, unique)
  {
    var r :| 0 <= r < |s.sessions| && ReportedAt(s.sessions[r], creds, state, unique) && LastControl(s.sessions[r], sequence, op);
  }

  lemma FittingAnswers(s: State, req: Request, reply: Reply)
    requires Inv(s) && Fits(s, req, reply)
    requires reply.Begun? ==> TypedCredentials(reply.creds)
    requires req.ReadReq? ==> req.requested <= MAX_RANGE_BYTES
    ensures Answers(req, reply)
  {
    hide Inv, Reported, Honoured, Issued, Counted, TypedCredentials, Pow256;
    Widths();
    if !reply.Refused? {
      match req
      case BeginReq(_, _, _) =>
      case ControlReq(creds, sequence, op) =>
        HonouredReports(s, creds, sequence, op, reply.state, reply.unique);
        ReportedFits(s, creds, reply.state, reply.unique);
      case ReadReq(creds, _, _) => ReportedFits(s, creds, reply.state, reply.unique);
    }
  }

  lemma ReplyFits(req: Request, reply: Reply)
    requires !reply.Pending? && Answers(req, reply) && (req.ReadReq? ==> req.requested <= MAX_RANGE_BYTES)
    ensures |ReplyPayload(reply)| <= Frames.MAX_FRAME_PAYLOAD && RequestOpcode(req) + RESPONSE_BIT < 0x1_0000
  {
    hide CredentialBytes, ToBe, Pow256, TypedCredentials;
  }

  /** What the server answers in any state it can be in reaches the client
      through the frame stream as that answer, to the request it belongs to. */
  lemma FittingRepliesArrive(s: State, id: nat, req: Request, reply: Reply, rest: seq<Byte>, broken: bool)
    requires Inv(s) && Fits(s, req, reply) && !reply.Pending? && id <= U64_MAX
    requires reply.Begun? ==> TypedCredentials(reply.creds)
    requires req.ReadReq? ==> req.requested <= MAX_RANGE_BYTES
    ensures var (outcome, taken) := Frames.ParseFrame(Frames.FrameBytes(ReplyFrame(id, req, reply)) + rest, broken);
      && outcome == Frames.Got(ReplyFrame(id, req, reply)) && taken == |Frames.FrameBytes(ReplyFrame(id, req, reply))|
      && ParseReply(req, outcome.frame.payload) == Some(AsSent(reply))
  {
    hide Inv, Fits, Answers, ReplyPayload, Frames.FrameBytes, Frames.ParseFrame, ParseReply, TypedCredentials;
    FittingAnswers(s, req, reply);
    ReplyRoundTrip(req, reply);
    ReplyFits(req, reply);
    Frames.ParseEncoded(ReplyFrame(id, req, reply), rest, broken);
  }
}
