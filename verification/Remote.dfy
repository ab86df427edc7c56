/** The remote file as a random-access source, and the stream cursor over it
    (`SecureRemoteSource` in secure_transfer.rs, `VirtualStream` in stream.rs,
    `MemorySource` in source.rs). Client, network and server together read
    exact pieces of an immutable byte sequence. */
module Remote {
  import opened Common
  import opened ServerModel
  import opened ServerHistory
  import opened ServerInvariant
  import opened Server
  import opened Service
  import opened Client
  import Coverage

  /** The contract of `read_at` over content `file`: a piece from `offset`, as
      long as it likes but empty only at the end or for an empty request. */
  ghost predicate ReadsFrom(file: seq<Byte>, offset: nat, wanted: nat, bytes: seq<Byte>) {
    && |bytes| <= wanted
    && (bytes == [] <==> wanted == 0 || offset >= |file|)
    && (bytes != [] ==> offset + |bytes| <= |file| && bytes == file[offset..offset + |bytes|])
  }

  /** The simplest source, for comparison. */
  class MemorySource {
    const bytes: seq<Byte>

    constructor (bytes: seq<Byte>)
      ensures this.bytes == bytes
    {
      this.bytes := bytes;
    }

    method ReadAt(offset: nat, destination: array<Byte>, from: nat) returns (copied: nat)
      requires from <= destination.Length
      modifies destination
      ensures copied == Min(Monus(|bytes|, offset), destination.Length - from)
      ensures ReadsFrom(bytes, offset, destination.Length - from, destination[from..from + copied])
      ensures destination[..from] == old(destination[..from])
      ensures destination[from + copied..] == old(destination[from + copied..])
    {
      if offset >= |bytes| {
        return 0;
      }
      copied := Min(|bytes| - offset, destination.Length - from);
      CopyInto(destination, from, bytes[offset..offset + copied]);
    }
  }

  method CopyInto(destination: array<Byte>, from: nat, bytes: seq<Byte>)
    requires from + |bytes| <= destination.Length
    modifies destination
    ensures destination[..] == old(destination[..from]) + bytes + old(destination[from + |bytes|..])
  {
    for i := 0 to |bytes|
      invariant forall k | 0 <= k < from || from + i <= k < destination.Length :: destination[k] == old(destination[k])
      invariant forall k | 0 <= k < i :: destination[from + k] == bytes[k]
    {
      destination[from + i] := bytes[i];
    }
  }

  /** Offset `x` was in a range the server committed for these credentials. */
  ghost predicate Delivered(s: State, creds: Credentials, x: nat) {
    exists offset: nat, length: nat :: offset <= x < offset + length && Counted(s, creds, offset, length)
  }

  ghost predicate AllDelivered(s: State, creds: Credentials, lo: nat, hi: nat) {
    forall x | lo <= x < hi :: Delivered(s, creds, x)
  }

  lemma DeliveredStays(s: State, t: State, creds: Credentials, lo: nat, hi: nat)
    requires Later(s, t) && AllDelivered(s, creds, lo, hi)
    ensures AllDelivered(t, creds, lo, hi)
  {
    hide Later;
    forall x | lo <= x < hi ensures Delivered(t, creds, x) {
      assert Delivered(s, creds, x);
      var offset: nat, length: nat :| offset <= x < offset + length && Counted(s, creds, offset, length);
      CountedStays(s, t, creds, offset, length);
    }
  }

  /** Delivered offsets are ones the session's coverage has noted. */
  lemma DeliveredIsCovered(s: State, creds: Credentials, x: nat)
    requires Delivered(s, creds, x)
    ensures exists r :: 0 <= r < |s.sessions| && NotedAt(s.sessions[r], creds, x)
  {
    var offset: nat, length: nat :| offset <= x < offset + length && Counted(s, creds, offset, length);
    var r :| 0 <= r < |s.sessions| && CountedAt(s.sessions[r], creds, offset, length);
    NotedByCommit(s.sessions[r], creds, offset, length, x);
  }

  ghost predicate NotedAt(session: Session, creds: Credentials, x: nat) {
    session.creds == creds && x in Coverage.Union(session.notes)
  }

  lemma NotedByCommit(session: Session, creds: Credentials, offset: nat, length: nat, x: nat)
    requires CountedAt(session, creds, offset, length) && offset <= x < offset + length
    ensures NotedAt(session, creds, x)
  {
    var notes := session.notes;
    var i :| 0 <= i < |notes| && notes[i] == Coverage.NoteCall(offset, length);
    assert notes[i].start <= x < notes[i].start + notes[i].length;
    Coverage.UnionMembers(notes);
    hide Coverage.Union;
  }

  /** The server has a session with these credentials. */
  ghost predicate Known(s: State, creds: Credentials) {
    exists r :: 0 <= r < |s.sessions| && s.sessions[r].creds == creds
  }

  lemma KnownStays(s: State, t: State, transfer: Option<Credentials>)
    requires Later(s, t) && (transfer.Some? ==> Known(s, transfer.value))
    ensures transfer.Some? ==> Known(t, transfer.value)
  {
    if transfer.Some? {
      var r :| 0 <= r < |s.sessions| && s.sessions[r].creds == transfer.value;
      assert SessionLater(s.sessions[r], t.sessions[r]);
    }
  }

  lemma IssuedIsKnown(s: State, creds: Credentials, remaining: nat)
    requires Issued(s, creds, remaining)
    ensures Known(s, creds)
  {
    var r :| 0 <= r < |s.sessions| && IssuedAt(s.sessions[r], s.clock, creds, remaining);
  }

  // ------------------------------------------- calls whose sendings are answered

  /** One control. In these functions no result means that some sending is not
      answered, and then nothing is said. */
  function SentOne(x: Wire, peer: Peer, creds: Credentials, sequence: nat, op: ControlOp): (r: (Wire, Option<Result<Reply>>))
    requires Wf(x.s)
    ensures Wf(r.0.s) && |r.0.net| <= |x.net|
  {
    var (y, reply) := Ask(x, peer, ControlReq(creds, sequence, op));
    (y, if reply.None? then None
        else Some(if reply.value.Refused? then Err(RefusedBy(reply.value.why)) else Ok(reply.value)))
  }

  function SentBegin(x: Wire, peer: Peer, offer: nat, file: FileId, nonce: Nonce): (r: (Wire, Option<Result<Credentials>>))
    requires Wf(x.s)
    ensures Wf(r.0.s) && |r.0.net| <= |x.net|
  {
    var (y, reply) := Ask(x, peer, BeginReq(offer, file, nonce));
    (y, if reply.None? then None
        else if reply.value.Refused? then Some(Err(RefusedBy(reply.value.why)))
        else if !reply.value.Begun? then None
        else if reply.value.creds.offer != offer || reply.value.creds.file != file then Some(Err(Mismatch))
        else Some(Ok(reply.value.creds)))
  }

  /** What a source knows of its group and its transfer. */
  datatype Standing = Standing(
    offer: nat, file: FileId, transfer: Option<Credentials>, nonce: Nonce, sequence: nat, paused: bool, cancelled: bool)

  /** Credentials; if that begins the transfer, a cancelled group ends it at once
      and a paused one pauses it first. */
  function SentCredentials(x: Wire, peer: Peer, g: Standing): (r: (Wire, Option<Result<Credentials>>))
    requires Wf(x.s)
    ensures Wf(r.0.s) && |r.0.net| <= |x.net|
  {
    if g.transfer.Some? then (x, Some(Ok(g.transfer.value)))
    else
      var (y, begun) := SentBegin(x, peer, g.offer, g.file, g.nonce);
      if begun.None? || begun.value.Err? then (y, begun)
      else if g.cancelled then (y, Some(Err(Interrupted)))
      else if !g.paused then (y, begun)
      else
        var (z, held) := SentOne(y, peer, begun.value.value, g.sequence, Pause);
        (z, if held.None? then None else if held.value.Err? then Some(Err(held.value.error)) else begun)
  }

  /** A control of a source: its number comes before anything credentials send. */
  function SentControl(x: Wire, peer: Peer, g: Standing, op: ControlOp): (Wire, Option<Result<Reply>>)
    requires Wf(x.s)
  {
    var (y, creds) := SentCredentials(x, peer, g.(sequence := g.sequence + 1));
    if creds.None? then (y, None)
    else if creds.value.Err? then (y, Some(Err(creds.value.error)))
    else SentOne(y, peer, creds.value.value, g.sequence, op)
  }

  /** What a source knows once it has these credentials. */
  function Holding(g: Standing, creds: Credentials): Standing {
    if g.transfer.Some? then g
    else g.(transfer := Some(creds), nonce := g.nonce + 1, sequence := g.sequence + if g.paused then 1 else 0)
  }

  /** A range: an empty answer of a paused session is asked again. */
  function SentRange(x: Wire, peer: Peer, creds: Credentials, offset: nat, requested: nat): (r: (Wire, Option<Result<seq<Byte>>>))
    requires Wf(x.s)
    ensures Wf(r.0.s) && |r.0.net| <= |x.net| && (r.1.Some? ==> |r.0.net| < |x.net|)
    decreases |x.net|
  {
    var (y, reply) := Ask(x, peer, ReadReq(creds, offset, requested));
    if reply.None? then (y, None)
    else if reply.value.Refused? then (y, Some(Err(RefusedBy(reply.value.why))))
    else if !reply.value.Data? then (y, None)
    else if reply.value.state.Paused? && reply.value.bytes == [] then SentRange(y, peer, creds, offset, requested)
    else (y, Some(Ok(reply.value.bytes)))
  }

  /** A source and what is before it. */
  datatype Reader = Reader(wire: Wire, standing: Standing, completed: bool)

  /** The transfer, begun if need be, and a piece of it. Here and below the
      reader that comes with a failure says nothing. */
  function SentPiece(x: Reader, peer: Peer, offset: nat, requested: nat): (r: (Reader, Option<Result<seq<Byte>>>))
    requires Wf(x.wire.s)
    ensures Wf(r.0.wire.s) && |r.0.wire.net| <= |x.wire.net|
    ensures r.1.Some? && r.1.value.Ok? ==> |r.0.wire.net| < |x.wire.net| && r.0.standing.transfer.Some?
  {
    var (y, creds) := SentCredentials(x.wire, peer, x.standing);
    if creds.None? then (x, None)
    else if creds.value.Err? then (x, Some(Err(creds.value.error)))
    else
      var (z, range) := SentRange(y, peer, creds.value.value, offset, requested);
      (Reader(z, Holding(x.standing, creds.value.value), x.completed), range)
  }

  /** A piece of a file of this size, and what an empty one means: a fault before
      the end of the file, and at the end, once, the completion of the transfer. */
  function SentEnd(x: Reader, peer: Peer, size: nat, offset: nat, requested: nat): (r: (Reader, Option<Result<seq<Byte>>>))
    requires Wf(x.wire.s)
    ensures Wf(r.0.wire.s) && |r.0.wire.net| <= |x.wire.net|
    ensures r.1.Some? && r.1.value.Ok? ==> |r.0.wire.net| < |x.wire.net|
  {
    var (y, piece) := SentPiece(x, peer, offset, requested);
    if piece.None? || piece.value.Err? || piece.value.value != [] then (y, piece)
    else if offset < size then (y, Some(Err(ReadFault)))
    else if x.completed then (y, piece)
    else
      var (z, done) := SentOne(y.wire, peer, y.standing.transfer.value, y.standing.sequence, ControlOp.Complete);
      if done.None? then (y, None)
      else if done.value.Err? then (y, Some(Err(done.value.error)))
      else (Reader(z, y.standing.(sequence := y.standing.sequence + 1), true), piece)
  }

  /** A read into a buffer with `room` left. */
  function SentRead(x: Reader, peer: Peer, size: nat, offset: nat, room: nat): (r: (Reader, Option<Result<seq<Byte>>>))
    requires Wf(x.wire.s)
    ensures Wf(r.0.wire.s) && |r.0.wire.net| <= |x.wire.net|
    ensures r.1.Some? && r.1.value.Ok? && room > 0 ==> |r.0.wire.net| < |x.wire.net|
  {
    if room == 0 then (x, Some(Ok([])))
    else if x.standing.cancelled then (x, Some(Err(Interrupted)))
    else SentEnd(x, peer, size, offset, Min(room, MAX_RANGE_BYTES))
  }

  /** Reads from `at` until `wanted` bytes are there or the end is; `got` is what
      came so far. */
  function StreamRead(x: Reader, peer: Peer, size: nat, at: nat, wanted: nat, got: seq<Byte>): (r: (Reader, Option<Result<seq<Byte>>>))
    requires Wf(x.wire.s)
    ensures Wf(r.0.wire.s)
    decreases |x.wire.net|
  {
    if |got| >= wanted then (x, Some(Ok(got)))
    else
      var (y, piece) := SentRead(x, peer, size, at + |got|, wanted - |got|);
      if piece.None? || piece.value.Err? then (y, piece)
      else if piece.value.value == [] then (y, Some(Ok(got)))
      else StreamRead(y, peer, size, at, wanted, got + piece.value.value)
  }

  /** A loop over a stream is still on the way to `goal`. */
  ghost predicate Toward(goal: (Reader, Option<Result<seq<Byte>>>), x: Reader, peer: Peer, size: nat, at: nat, wanted: nat,
                         got: seq<Byte>, ended: bool)
    requires Wf(x.wire.s)
  {
    goal.1.Some? ==>
      if ended || |got| >= wanted then goal == (x, Some(Ok(got))) else goal == StreamRead(x, peer, size, at, wanted, got)
  }

  lemma TowardNext(goal: (Reader, Option<Result<seq<Byte>>>), x: Reader, peer: Peer, size: nat, at: nat, wanted: nat,
                   got: seq<Byte>, chunk: Result<nat>, y: Reader, more: seq<Byte>)
    requires Wf(x.wire.s) && Wf(y.wire.s) && |got| < wanted && Toward(goal, x, peer, size, at, wanted, got, false)
    requires var (z, sent) := SentRead(x, peer, size, at + |got|, wanted - |got|);
      sent.Some? ==>
        && chunk == (if sent.value.Err? then Err(sent.value.error) else Ok(|sent.value.value|))
        && (chunk.Ok? ==> y == z && more == got + sent.value.value)
    ensures goal.1.Some? && chunk.Err? ==> goal.1.value == Err(chunk.error)
    ensures chunk.Ok? ==> Toward(goal, y, peer, size, at, wanted, more, chunk.value == 0)
  {
    hide SentRead, Wf;
    assert got + [] == got;
  }

  lemma TowardEnd(goal: (Reader, Option<Result<seq<Byte>>>), x: Reader, peer: Peer, size: nat, at: nat, wanted: nat,
                  got: seq<Byte>, ended: bool)
    requires Wf(x.wire.s) && Toward(goal, x, peer, size, at, wanted, got, ended) && (ended || |got| >= wanted)
    ensures goal.1.Some? ==> goal == (x, Some(Ok(got)))
  {
    hide Wf;
  }

  lemma TowardStart(x: Reader, peer: Peer, size: nat, at: nat, wanted: nat)
    requires Wf(x.wire.s)
    ensures Toward(StreamRead(x, peer, size, at, wanted, []), x, peer, size, at, wanted, [], false)
  {
    hide Wf, SentRead;
  }

  /** No two sessions were given the same credentials. */
  ghost predicate OneSessionEach(s: State) {
    forall q, r | 0 <= q < |s.sessions| && 0 <= r < |s.sessions| && s.sessions[q].creds == s.sessions[r].creds :: q == r
  }

  /** The session processed a pause with this number or a later one. */
  ghost predicate PausedAfter(s: State, creds: Credentials, sequence: nat) {
    exists r :: 0 <= r < |s.sessions| && PausedAfterAt(s.sessions[r], creds, sequence)
  }

  ghost predicate PausedAfterAt(session: Session, creds: Credentials, sequence: nat) {
    session.creds == creds && session.lastSequence >= sequence && session.lastOp == Some(Pause)
  }

  lemma PauseProcessed(s: State, creds: Credentials, sequence: nat, state: TransferState, unique: nat, least: nat)
    requires Honoured(s, creds, sequence, Pause, state, unique) && least <= sequence
    ensures PausedAfter(s, creds, least)
  {
    var r :| 0 <= r < |s.sessions| && ReportedAt(s.sessions[r], creds, state, unique) && LastControl(s.sessions[r], sequence, Pause);
    assert PausedAfterAt(s.sessions[r], creds, least);
  }

  /** After a later number was processed an earlier one never is. */
  lemma OutOfTurn(s: State, t: State, creds: Credentials, sequence: nat, op: ControlOp, state: TransferState, unique: nat)
    requires Later(s, t) && OneSessionEach(t) && PausedAfter(s, creds, sequence + 1)
    ensures !Honoured(t, creds, sequence, op, state, unique)
  {
    var q :| 0 <= q < |s.sessions| && PausedAfterAt(s.sessions[q], creds, sequence + 1);
    assert SessionLater(s.sessions[q], t.sessions[q]);
  }

  /** A Complete control is the last the session processed. */
  ghost predicate CompleteProcessed(s: State, creds: Credentials) {
    exists r :: 0 <= r < |s.sessions| && s.sessions[r].creds == creds && s.sessions[r].lastOp == Some(ControlOp.Complete)
  }

  lemma ProcessedComplete(s: State, creds: Credentials, sequence: nat, state: TransferState, unique: nat)
    requires Honoured(s, creds, sequence, ControlOp.Complete, state, unique)
    ensures CompleteProcessed(s, creds)
  {
  }

  class RemoteSource {
    const client: OfferClient
    const offer: nat
    const file: FileId
    const size: nat
    var transfer: Option<Credentials>
    var nextSequence: nat
    var nextNonce: Nonce
    var completionSent: bool
    var bytesRead: nat
    var groupPaused: bool
    var groupCancelled: bool

    ghost function Content(): seq<Byte>
      requires file in client.server.cfg.files
    {
      client.server.cfg.files[file]
    }

    /** The manifest entry this source was made for is an ordinary file of the
        offer, with the size of its content. */
    ghost predicate Valid()
      reads this, client, client.server
    {
      && Inv(client.server.View())
      && client.policy == Normalised(client.policy)
      && file in client.server.cfg.files && size == |Content()|
      && (transfer.Some? ==> transfer.value.file == file && Known(client.server.View(), transfer.value))
    }

    function Stands(): Standing
      reads this
    {
      Standing(offer, file, transfer, nextNonce, nextSequence, groupPaused, groupCancelled)
    }

    ghost function Now(): Reader
      reads this, client, client.server
    {
      Reader(client.WireNow(), Stands(), completionSent)
    }

    constructor (client: OfferClient, offer: nat, file: FileId, size: nat)
      requires Inv(client.server.View()) && client.policy == Normalised(client.policy)
      requires file in client.server.cfg.files && size == |client.server.cfg.files[file]|
      ensures Valid() && this.client == client && this.file == file && this.size == size && transfer == None
      ensures !groupPaused && !groupCancelled && !completionSent
    {
      this.client, this.offer, this.file, this.size := client, offer, file, size;
      transfer, nextSequence, nextNonce := None, 1, 1;
      completionSent, bytesRead, groupPaused, groupCancelled := false, 0, false, false;
    }

    /** `control_interruptible`: success means the server processed exactly this
        control, however often it was sent. */
    method Control(creds: Credentials, sequence: nat, op: ControlOp) returns (result: Result<Reply>)
      requires Valid()
      modifies client, client.server
      ensures Valid() && Later(old(client.server.View()), client.server.View())
      ensures |client.net| <= old(|client.net|)
      ensures result.Ok? ==>
        && result.value.Status?
        && Honoured(client.server.View(), creds, sequence, op, result.value.state, result.value.unique)
      ensures var (x, sent) := SentOne(old(client.WireNow()), client.peer, creds, sequence, op);
        sent.Some? ==> result == sent.value && client.WireNow() == x
    {
      hide Inv, Later, Honoured, Known, ServerState.View, Ask;
      ghost var before := client.server.View();
      var answer := client.Command(ControlReq(creds, sequence, op));
      KnownStays(before, client.server.View(), transfer);
      result := match answer
        case Err(error) => Err(error)
        case Ok(reply) => if reply.Refused? then Err(RefusedBy(reply.why)) else Ok(reply);
    }

    /** `send_control`: takes its sequence number before it asks for credentials.
        If that is what begins the transfer of a paused group, the pause gets a
        larger number and this control comes too late. */
    method SendControl(op: ControlOp) returns (result: Result<Reply>)
      requires Valid()
      modifies this`transfer, this`nextNonce, this`nextSequence, client, client.server
      ensures Valid() && Later(old(client.server.View()), client.server.View())
      ensures |client.net| <= old(|client.net|) && nextSequence > old(nextSequence)
      ensures old(transfer).Some? ==> transfer == old(transfer) && nextSequence == old(nextSequence) + 1
      ensures result.Ok? ==>
        && result.value.Status? && transfer.Some?
        && Honoured(client.server.View(), transfer.value, old(nextSequence), op, result.value.state, result.value.unique)
      ensures old(transfer).None? && groupCancelled ==> result.Err?
      ensures old(transfer).None? && groupPaused && OneSessionEach(client.server.View()) ==> result.Err?
      ensures var sent := SentControl(old(client.WireNow()), client.peer, old(Stands()), op).1; sent.Some? ==> result == sent.value
    {
      hide Inv, Later, Known, Honoured, OneSessionEach, PausedAfter, ServerState.View, SentOne, SentCredentials;
      ghost var start := client.server.View();
      var sequence := nextSequence;
      nextSequence := nextSequence + 1;
      var creds := Credentials();
      if creds.Err? {
        return Err(creds.error);
      }
      ghost var begun := client.server.View();
      result := Control(creds.value, sequence, op);
      LaterTrans(start, begun, client.server.View());
      if old(transfer).None? && groupPaused && result.Ok? && OneSessionEach(client.server.View()) {
        OutOfTurn(begun, client.server.View(), creds.value, sequence, op, result.value.state, result.value.unique);
      }
    }

    /** `status`: credentials first; `fault` is how the request itself fails, if
        it does. */
    method Status(fault: Option<Failure>) returns (result: Result<()>)
      requires Valid()
      modifies this`transfer, this`nextNonce, this`nextSequence, client, client.server
      ensures Valid() && Later(old(client.server.View()), client.server.View())
      ensures result.Ok? ==> fault == None
      ensures old(transfer).Some? ==> result == if fault.Some? then Err(fault.value) else Ok(())
    {
      hide Inv, Later, Known, Honoured, PausedAfter, ServerState.View, SentCredentials;
      var creds := Credentials();
      result := if creds.Err? then Err(creds.error) else if fault.Some? then Err(fault.value) else Ok(());
    }

    /** `complete`: sends Complete once, and afterwards only asks for the status. */
    method Complete(fault: Option<Failure>) returns (result: Result<()>)
      requires Valid()
      modifies this`transfer, this`nextNonce, this`nextSequence, this`completionSent, client, client.server
      ensures Valid() && Later(old(client.server.View()), client.server.View())
      ensures result.Ok? ==> completionSent
      ensures result.Ok? && old(completionSent) ==> fault == None
      ensures old(completionSent) && old(transfer).Some? ==> result == if fault.Some? then Err(fault.value) else Ok(())
      ensures result.Ok? && !old(completionSent) ==> transfer.Some? && CompleteProcessed(client.server.View(), transfer.value)
    {
      hide Inv, Later, Known, Honoured, ServerState.View, SentControl;
      if completionSent {
        result := Status(fault);
        return;
      }
      ghost var sequence := nextSequence;
      var sent := SendControl(ControlOp.Complete);
      if sent.Err? {
        return Err(sent.error);
      }
      ProcessedComplete(client.server.View(), transfer.value, sequence, sent.value.state, sent.value.unique);
      completionSent := true;
      return Ok(());
    }

    /** `begin_transfer_interruptible`: the same nonce on every resend. */
    method BeginTransfer() returns (result: Result<Credentials>)
      requires Valid()
      modifies this`nextNonce, client, client.server
      ensures Valid() && Later(old(client.server.View()), client.server.View())
      ensures |client.net| <= old(|client.net|)
      ensures nextNonce == old(nextNonce) + 1
      ensures result.Ok? ==> result.value.file == file && Known(client.server.View(), result.value)
      ensures var (x, sent) := SentBegin(old(client.WireNow()), client.peer, offer, file, old(nextNonce));
        sent.Some? ==> result == sent.value && client.WireNow() == x
    {
      hide Inv, Later, Known, Issued, Ask;
      ghost var before := client.server.View();
      var nonce := nextNonce;
      nextNonce := nextNonce + 1;
      var answer := client.Command(BeginReq(offer, file, nonce));
      KnownStays(before, client.server.View(), transfer);
      match answer
      case Err(error) => result := Err(error);
      case Ok(reply) =>
        if reply.Refused? {
          result := Err(RefusedBy(reply.why));
        } else if reply.creds.offer != offer || reply.creds.file != file {
          result := Err(Mismatch);
        } else {
          IssuedIsKnown(client.server.View(), reply.creds, reply.remaining);
          result := Ok(reply.creds);
        }
    }

    /** `credentials`: begin once, then honour a group cancel or pause that came
        before the transfer existed. */
    method Credentials() returns (result: Result<Credentials>)
      requires Valid()
      modifies this`transfer, this`nextNonce, this`nextSequence, client, client.server
      ensures Valid() && Later(old(client.server.View()), client.server.View())
      ensures |client.net| <= old(|client.net|)
      ensures old(transfer).Some? ==>
        && transfer == old(transfer) && result == Ok(transfer.value)
        && nextNonce == old(nextNonce) && client.server.View() == old(client.server.View())
      ensures nextSequence >= old(nextSequence) && (old(transfer).Some? ==> nextSequence == old(nextSequence))
      ensures result.Ok? ==> transfer == Some(result.value)
      ensures result.Ok? ==> Stands() == Holding(old(Stands()), result.value)
      ensures result.Ok? && old(transfer).None? && groupPaused ==>
        PausedAfter(client.server.View(), result.value, old(nextSequence))
      ensures old(transfer).None? && groupCancelled ==> result.Err?
      ensures var (x, sent) := SentCredentials(old(client.WireNow()), client.peer, old(Stands()));
        sent.Some? ==> result == sent.value && (result.Ok? ==> client.WireNow() == x)
    {
      hide Inv, Core, Wf, Later, Known, Honoured, PausedAfter, ServerState.View, SentOne, SentBegin, Normalised;
      if transfer.Some? {
        NothingHappened(client.server.View());
        return Ok(transfer.value);
      }
      ghost var start := client.server.View();
      result := BeginTransfer();
      if result.Err? {
        return;
      }
      transfer := Some(result.value);
      ghost var begun := client.server.View();
      if groupCancelled {
        nextSequence := nextSequence + 1;
        var _ := Control(transfer.value, nextSequence - 1, Cancel);
        LaterTrans(start, begun, client.server.View());
        return Err(Interrupted);
      }
      if groupPaused {
        nextSequence := nextSequence + 1;
        var paused := Control(transfer.value, nextSequence - 1, Pause);
        LaterTrans(start, begun, client.server.View());
        if paused.Err? {
          return Err(paused.error);
        }
        PauseProcessed(client.server.View(), transfer.value, nextSequence - 1, paused.value.state, paused.value.unique, old(nextSequence));
      }
    }

    /** `read_range_interruptible` and the loop around it: an empty answer from a
        paused session is asked again, it is never the end of the file. */
    method ReadRange(creds: Credentials, offset: nat, requested: nat) returns (result: Result<seq<Byte>>)
      requires Valid() && creds.file == file && requested <= MAX_RANGE_BYTES
      modifies client, client.server
      ensures Valid() && Later(old(client.server.View()), client.server.View())
      ensures |client.net| <= old(|client.net|)
      ensures result.Ok? && result.value != [] ==>
        && |result.value| <= requested && offset + |result.value| <= size
        && result.value == Content()[offset..offset + |result.value|]
        && AllDelivered(client.server.View(), creds, offset, offset + |result.value|)
      ensures result == Ok([]) ==> exists state: TransferState, unique: nat :: !state.Paused? && Reported(client.server.View(), creds, state, unique)
      ensures var (x, sent) := SentRange(old(client.WireNow()), client.peer, creds, offset, requested);
        sent.Some? ==> result == sent.value && client.WireNow() == x
    {
      hide Inv, Core, Later, AllDelivered, Known, Reported, Ask, Wf;
      InvWf(client.server.View());
      ghost var goal := SentRange(client.WireNow(), client.peer, creds, offset, requested);
      ghost var start := client.server.View();
      NothingHappened(start);
      while true
        invariant Valid() && Later(start, client.server.View())
        invariant |client.net| <= old(|client.net|)
        invariant Wf(client.server.View())
        invariant goal.1.Some? ==> SentRange(client.WireNow(), client.peer, creds, offset, requested) == goal
        decreases |client.net|
      {
        ghost var before := client.server.View();
        var answer := client.Command(ReadReq(creds, offset, requested));
        KnownStays(before, client.server.View(), transfer);
        LaterTrans(start, before, client.server.View());
        InvWf(client.server.View());
        if answer.Err? {
          return Err(answer.error);
        }
        var reply := answer.value;
        if reply.Refused? {
          return Err(RefusedBy(reply.why));
        }
        if !(reply.state.Paused? && reply.bytes == []) {
          if reply.bytes != [] {
            JustDelivered(client.server.View(), creds, offset, |reply.bytes|);
          }
          return Ok(reply.bytes);
        }
      }
    }

    /** The transfer, begun if need be, and a piece of it. */
    method Obtain(offset: nat, requested: nat) returns (result: Result<seq<Byte>>)
      requires Valid() && requested <= MAX_RANGE_BYTES
      modifies this`transfer, this`nextNonce, this`nextSequence, client, client.server
      ensures Valid() && Later(old(client.server.View()), client.server.View())
      ensures old(transfer).Some? ==> transfer == old(transfer)
      ensures result.Ok? ==>
        && transfer.Some?
        && (result.value != [] ==>
              && |result.value| <= requested && offset + |result.value| <= size
              && result.value == Content()[offset..offset + |result.value|]
              && AllDelivered(client.server.View(), transfer.value, offset, offset + |result.value|))
      ensures var (x, sent) := SentPiece(old(Now()), client.peer, offset, requested);
        sent.Some? ==> result == sent.value && (result.Ok? ==> Now() == x)
    {
      hide Inv, Later, AllDelivered, Known, Honoured, PausedAfter, Reported, ServerState.View, SentCredentials, SentRange, Wf;
      ghost var start := client.server.View();
      var creds := Credentials();
      if creds.Err? {
        return Err(creds.error);
      }
      ghost var begun := client.server.View();
      result := ReadRange(creds.value, offset, requested);
      LaterTrans(start, begun, client.server.View());
    }

    /** A piece, and what an empty one means: a fault before the end of the file,
        and at the end, once, the completion of the transfer. */
    method ObtainOrEnd(offset: nat, requested: nat) returns (result: Result<seq<Byte>>)
      requires Valid() && 0 < requested <= MAX_RANGE_BYTES
      modifies this`transfer, this`nextNonce, this`nextSequence, this`completionSent, client, client.server
      ensures Valid() && Later(old(client.server.View()), client.server.View())
      ensures old(transfer).Some? ==> transfer == old(transfer)
      ensures result.Ok? ==>
        && transfer.Some?
        && (result.value == [] ==> offset >= size && completionSent)
        && (result.value != [] ==>
              && |result.value| <= requested && offset + |result.value| <= size
              && result.value == Content()[offset..offset + |result.value|]
              && AllDelivered(client.server.View(), transfer.value, offset, offset + |result.value|))
      ensures var (x, sent) := SentEnd(old(Now()), client.peer, size, offset, requested);
        sent.Some? ==> result == sent.value && (result.Ok? ==> Now() == x)
    {
      hide Inv, Later, AllDelivered, Known, Honoured, ServerState.View, SentOne, SentPiece, Wf;
      ghost var start := client.server.View();
      result := Obtain(offset, requested);
      if result.Err? {
        return;
      }
      if result.value == [] && offset < size {
        return Err(ReadFault);
      }
      if result.value == [] && !completionSent {
        completionSent := true;
        ghost var read := client.server.View();
        nextSequence := nextSequence + 1;
        var completed := Control(transfer.value, nextSequence - 1, ControlOp.Complete);
        LaterTrans(start, read, client.server.View());
        if completed.Err? {
          completionSent := false;
          return Err(completed.error);
        }
      }
    }

    /** `read_at`, into `destination[from..]`. */
    method ReadAt(offset: nat, destination: array<Byte>, from: nat) returns (result: Result<nat>)
      requires Valid() && from <= destination.Length
      modifies this, client, client.server, destination
      ensures Valid() && Later(old(client.server.View()), client.server.View())
      ensures old(transfer).Some? ==> transfer == old(transfer)
      ensures result.Err? ==> destination[..] == old(destination[..])
      ensures result == Ok(0) && from < destination.Length ==> completionSent
      ensures result.Ok? && from < destination.Length ==> transfer.Some?
      // The outcome, when every sending is answered.
      ensures var (x, sent) := SentRead(old(Now()), client.peer, size, offset, destination.Length - from);
        sent.Some? ==>
          && result == (if sent.value.Err? then Err(sent.value.error) else Ok(|sent.value.value|))
          && (result.Ok? ==>
                && Now() == x && from + |sent.value.value| <= destination.Length
                && destination[from..from + |sent.value.value|] == sent.value.value)
      ensures groupCancelled && from < destination.Length ==> result == Err(Interrupted) && client.WireNow() == old(client.WireNow())
      ensures result.Ok? ==>
        var n := result.value;
        && from + n <= destination.Length
        && destination[..from] == old(destination[..from])
        && destination[from + n..] == old(destination[from + n..])
        && ReadsFrom(Content(), offset, destination.Length - from, destination[from..from + n])
        && (n > 0 ==> transfer.Some? && AllDelivered(client.server.View(), transfer.value, offset, offset + n))
    {
      hide Inv, Later, AllDelivered, Known, ServerState.View, SentEnd, Wf;
      ghost var start := client.server.View();
      if destination.Length == from {
        NothingHappened(start);
        return Ok(0);
      }
      if groupCancelled {
        NothingHappened(start);
        return Err(Interrupted);
      }
      var piece := ObtainOrEnd(offset, Min(destination.Length - from, MAX_RANGE_BYTES));
      if piece.Err? {
        return Err(piece.error);
      }
      CopyInto(destination, from, piece.value);
      bytesRead := bytesRead + |piece.value|;
      assert destination[..][from..from + |piece.value|] == piece.value;
      return Ok(|piece.value|);
    }
  }

  lemma JustDelivered(s: State, creds: Credentials, offset: nat, length: nat)
    requires Counted(s, creds, offset, length)
    ensures AllDelivered(s, creds, offset, offset + length)
  {
  }

  /** What was delivered before stays so, and a further piece joins it. */
  lemma DeliveredGrows(s: State, t: State, was: Option<Credentials>, now: Option<Credentials>, lo: nat, mid: nat, hi: nat)
    requires Later(s, t) && lo <= mid <= hi
    requires lo < mid ==> was.Some? && now == was && AllDelivered(s, was.value, lo, mid)
    requires mid < hi ==> now.Some? && AllDelivered(t, now.value, mid, hi)
    ensures lo < hi ==> now.Some? && AllDelivered(t, now.value, lo, hi)
  {
    if lo < mid {
      DeliveredStays(s, t, was.value, lo, mid);
    }
    hide Later, Delivered;
  }

  /** A further piece behind the bytes read so far. */
  lemma Extended(content: seq<Byte>, at: nat, read: nat, buffer: seq<Byte>, got: seq<Byte>, more: nat)
    requires read + more <= |buffer| && buffer[..read] == got
    requires read > 0 ==> at + read <= |content| && got == content[at..at + read]
    requires ReadsFrom(content, at + read, |buffer| - read, buffer[read..read + more])
    ensures more == 0 ==> read == |buffer| || at + read >= |content|
    ensures read + more > 0 ==> at + (read + more) <= |content| && buffer[..read + more] == content[at..at + (read + more)]
  {
    if more > 0 {
      assert buffer[..read + more] == buffer[..read] + buffer[read..read + more];
    }
  }

  datatype Origin = FromStart | FromCurrent | FromEnd

  class VirtualStream {
    const source: RemoteSource
    var position: nat

    ghost predicate Valid()
      reads this, source, source.client, source.client.server
    {
      source.Valid() && source.size <= U64_MAX && position <= U64_MAX
    }

    constructor (source: RemoteSource, position: nat)
      requires source.Valid() && source.size <= U64_MAX && position <= U64_MAX
      ensures Valid() && this.source == source && this.position == position
    {
      this.source, this.position := source, position;
    }

    /** The first `read` bytes of the buffer are the file's from the cursor on,
        and the server has counted them all. */
    ghost predicate Filled(destination: array<Byte>, read: nat)
      requires Valid() && read <= destination.Length
      reads this, source, source.client, source.client.server, destination
    {
      read > 0 ==>
        && position + read <= source.size
        && destination[..read] == source.Content()[position..position + read]
        && source.transfer.Some?
        && AllDelivered(source.client.server.View(), source.transfer.value, position, position + read)
    }

    lemma SoundServer()
      requires Valid()
      ensures Inv(source.client.server.View())
    {
    }

    lemma FilledMeans(destination: array<Byte>, read: nat)
      requires Valid() && read <= destination.Length
      ensures Filled(destination, 0)
      ensures read > 0 && Filled(destination, read) ==>
        && position + read <= source.size
        && destination[..read] == source.Content()[position..position + read]
        && source.transfer.Some?
        && AllDelivered(source.client.server.View(), source.transfer.value, position, position + read)
    {
      hide AllDelivered, ServerState.View, Inv, Known, Normalised;
    }

    /** One pass of the loop. */
    method ReadPiece(destination: array<Byte>, read: nat) returns (chunk: Result<nat>)
      requires Valid() && read < destination.Length && Filled(destination, read)
      modifies source, source.client, source.client.server, destination
      ensures Valid() && Later(old(source.client.server.View()), source.client.server.View())
      ensures chunk.Ok? ==>
        && read + chunk.value <= destination.Length && Filled(destination, read + chunk.value)
        && (forall k | read + chunk.value <= k < destination.Length :: destination[k] == old(destination[k]))
        && (chunk.value == 0 ==> position + read >= source.size)
      ensures var (x, sent) := SentRead(old(source.Now()), source.client.peer, source.size, position + read, destination.Length - read);
        sent.Some? ==>
          && chunk == (if sent.value.Err? then Err(sent.value.error) else Ok(|sent.value.value|))
          && (chunk.Ok? ==> source.Now() == x && destination[..read + chunk.value] == old(destination[..read]) + sent.value.value)
    {
      hide Inv, Later, AllDelivered, Normalised, Known, ServerState.View, SentRead, Wf;
      ghost var before := source.client.server.View();
      ghost var got := destination[..read];
      ghost var creds := source.transfer;
      chunk := source.ReadAt(position + read, destination, read);
      if chunk.Err? {
        return;
      }
      assert destination[..read] == got;
      Extended(source.Content(), position, read, destination[..], got, chunk.value);
      hide ReadsFrom;
      DeliveredGrows(before, source.client.server.View(), creds, source.transfer,
                     position, position + read, position + read + chunk.value);
    }

    /** `read_impl`: loop over short reads until the request is met or the source
        reports the end. A success is exact; a failure leaves the cursor. */
    method Read(destination: array<Byte>) returns (result: Result<nat>)
      requires Valid()
      modifies this`position, source, source.client, source.client.server, destination
      ensures Valid() && Later(old(source.client.server.View()), source.client.server.View())
      ensures result.Err? ==> position == old(position)
      ensures result.Ok? ==>
        var n := Min(destination.Length, Monus(source.size, old(position)));
        && result.value == n && position == old(position) + n
        && destination[n..] == old(destination[n..])
        && (n > 0 ==>
              && destination[..n] == source.Content()[old(position)..old(position) + n]
              && source.transfer.Some?
              && AllDelivered(source.client.server.View(), source.transfer.value, old(position), old(position) + n))
      // The outcome, when every sending is answered.
      ensures var (x, sent) := StreamRead(old(source.Now()), source.client.peer, source.size, old(position), destination.Length, []);
        sent.Some? ==>
          && result == (if sent.value.Err? then Err(sent.value.error) else Ok(|sent.value.value|))
          && (result.Ok? ==> source.Now() == x && destination[..result.value] == sent.value.value)
    {
      hide Inv, Core, Later, AllDelivered, ServerState.View, SentRead, StreamRead, Toward, Filled, RemoteSource.Valid, Wf;
      ghost var start := source.client.server.View();
      FilledMeans(destination, 0);
      assert Inv(start) by {
        SoundServer();
      }
      NothingHappened(start);
      InvWf(start);
      ghost var goal := StreamRead(source.Now(), source.client.peer, source.size, position, destination.Length, []);
      TowardStart(source.Now(), source.client.peer, source.size, position, destination.Length);
      var read := 0;
      var ended := false;
      while read < destination.Length && !ended
        invariant Valid() && position == old(position) && Later(start, source.client.server.View())
        invariant read <= destination.Length && Filled(destination, read)
        invariant ended ==> position + read >= source.size
        invariant forall k | read <= k < destination.Length :: destination[k] == old(destination[k])
        invariant Wf(source.client.server.View())
        invariant Toward(goal, source.Now(), source.client.peer, source.size, position, destination.Length, destination[..read], ended)
        decreases destination.Length - read, !ended
      {
        FilledMeans(destination, read);
        assert position + read <= U64_MAX;  // the checked addition cannot fail
        ghost var before, got := source.Now(), destination[..read];
        var chunk := ReadPiece(destination, read);
        LaterTrans(start, before.wire.s, source.client.server.View());
        SoundServer();
        InvWf(source.client.server.View());
        TowardNext(goal, before, source.client.peer, source.size, position, destination.Length, got, chunk, source.Now(),
                   if chunk.Ok? then destination[..read + chunk.value] else []);
        if chunk.Err? {
          return Err(chunk.error);
        }
        ended := chunk.value == 0;
        read := read + chunk.value;
      }
      TowardEnd(goal, source.Now(), source.client.peer, source.size, position, destination.Length, destination[..read], ended);
      FilledMeans(destination, read);
      position := position + read;
      return Ok(read);
    }

    /** `seek_impl`: the wanted position must fit u64, otherwise nothing moves. */
    method Seek(displacement: int, origin: Origin) returns (result: Option<nat>)
      requires Valid()
      modifies this`position
      ensures Valid()
      ensures var base := if origin.FromStart? then 0 else if origin.FromCurrent? then old(position) else source.size;
        if 0 <= base + displacement <= U64_MAX
        then result == Some(base + displacement) && position == base + displacement
        else result == None && position == old(position)
    {
      var base := match origin
        case FromStart => 0
        case FromCurrent => position
        case FromEnd => source.size;
      var next := base + displacement;
      if next < 0 || next > U64_MAX {
        return None;
      }
      position := next;
      return Some(next);
    }

    /** `Clone`: a second cursor at the same place over the same source. */
    method Clone() returns (twin: VirtualStream)
      requires Valid()
      ensures fresh(twin) && twin.Valid() && twin.source == source && twin.position == position
    {
      twin := new VirtualStream(source, position);
    }
  }
}
