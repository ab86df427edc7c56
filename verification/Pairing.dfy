/** The messages of first pairing and the calls that exchange them (pairing.rs).
    Hashing is a parameter: nothing here depends on how a digest is computed. */
module Pairing {
  import opened Common
  import opened Bytes
  import opened Streams

  const HELLO_MAGIC: seq<Byte> := [0x43, 0x46, 0x50, 0x41, 0x49, 0x52, 0x30, 0x31]
  const PROOF_MAGIC: seq<Byte> := [0x43, 0x46, 0x50, 0x52, 0x4F, 0x4F, 0x46, 0x31]
  const CONFIRM_MAGIC: seq<Byte> := [0x43, 0x46, 0x50, 0x43, 0x4E, 0x46, 0x30, 0x31]
  const TRANSCRIPT_DOMAIN: seq<Byte> := [
    0x43, 0x6C, 0x69, 0x70, 0x46, 0x65, 0x72, 0x72, 0x79, 0x20, 0x70, 0x61, 0x69, 0x72, 0x69, 0x6E, 0x67, 0x20,
    0x74, 0x72, 0x61, 0x6E, 0x73, 0x63, 0x72, 0x69, 0x70, 0x74, 0x20, 0x76, 0x31]
  const PAIRING_VERSION: nat := 1
  const CERTIFICATE_LIMIT: nat := 64 * 1024
  const HELLO_HEADER_LENGTH: nat := 47
  const PROOF_LENGTH: nat := 40
  const CONFIRM_LENGTH: nat := 41

  type Block = s: seq<Byte> | |s| == 32 witness seq(32, i => 0)

  datatype Role = Listener | Connector

  datatype Hello = Hello(role: Role, nonce: Block, certificate: seq<Byte>)

  function RoleByte(role: Role): Byte {
    if role == Listener then 1 else 2
  }

  // ----------------------------------------------------------------------- hello

  predicate CertificateOk(certificate: seq<Byte>) {
    1 <= |certificate| <= CERTIFICATE_LIMIT
  }

  function HelloHeader(h: Hello): (r: seq<Byte>)
    ensures |r| == HELLO_HEADER_LENGTH
  {
    HELLO_MAGIC + ToLe(PAIRING_VERSION, 2) + [RoleByte(h.role)] + h.nonce + ToLe(|h.certificate|, 4)
  }

  function HelloBytes(h: Hello): seq<Byte> {
    HelloHeader(h) + h.certificate
  }

  predicate HeaderOk(header: seq<Byte>, role: Role)
    requires |header| == HELLO_HEADER_LENGTH
  {
    && header[..8] == HELLO_MAGIC && FromLe(header[8..10]) == PAIRING_VERSION && header[10] == RoleByte(role)
    && 1 <= FromLe(header[43..47]) <= CERTIFICATE_LIMIT
  }

  /** The hello at the front of `b`, and the bytes consumed either way. */
  function ParseHello(b: seq<Byte>, role: Role): (r: (Option<Hello>, nat))
    ensures r.1 <= |b|
  {
    if |b| < HELLO_HEADER_LENGTH then (None, |b|)
    else
      var header := b[..HELLO_HEADER_LENGTH];
      if !HeaderOk(header, role) then (None, HELLO_HEADER_LENGTH)
      else
        var end := HELLO_HEADER_LENGTH + FromLe(header[43..47]);
        if |b| < end then (None, |b|)
        else (Some(Hello(role, header[11..43], b[HELLO_HEADER_LENGTH..end])), end)
  }

  /** `Hello::read_from`. */
  method ReadHello(stream: Reader, role: Role) returns (hello: Option<Hello>)
    requires stream.Valid()
    modifies stream`fragments
    ensures stream.Valid()
    ensures var (h, taken) := ParseHello(old(stream.Pending()), role);
      hello == h && stream.Pending() == old(stream.Pending())[taken..]
  {
    hide FromLe, Flatten;
    ghost var was := stream.Pending();
    var buffer: array<Byte> := new Byte[HELLO_HEADER_LENGTH](_ => 0);
    var ok := stream.ReadExact(buffer, 0);
    if !ok {
      return None;
    }
    var header := buffer[..];
    assert header == was[..HELLO_HEADER_LENGTH];
    if header[..8] != HELLO_MAGIC || FromLe(header[8..10]) != PAIRING_VERSION {
      return None;
    }
    if header[10] != 1 && header[10] != 2 {
      return None;
    }
    if (if header[10] == 1 then Listener else Connector) != role {
      return None;
    }
    var length := FromLe(header[43..47]);
    if length == 0 || length > CERTIFICATE_LIMIT {
      return None;
    }
    var certificate: array<Byte> := new Byte[length](_ => 0);
    ok := stream.ReadExact(certificate, 0);
    if !ok {
      return None;
    }
    assert certificate[..] == was[HELLO_HEADER_LENGTH..][..length] == was[HELLO_HEADER_LENGTH..HELLO_HEADER_LENGTH + length];
    return Some(Hello(role, header[11..43], certificate[..]));
  }

  lemma HeaderSlices(h: Hello)
    ensures var r := HelloHeader(h);
      && r[..8] == HELLO_MAGIC && r[8..10] == ToLe(PAIRING_VERSION, 2) && r[10] == RoleByte(h.role)
      && r[11..43] == h.nonce && r[43..47] == ToLe(|h.certificate|, 4)
  {
    hide ToLe;
  }

  lemma HeaderFields(h: Hello)
    requires CertificateOk(h.certificate)
    ensures var r := HelloHeader(h);
      && (forall role :: HeaderOk(r, role) <==> role == h.role)
      && r[11..43] == h.nonce && FromLe(r[43..47]) == |h.certificate|
  {
    Widths();
    FromToLe(PAIRING_VERSION, 2);
    FromToLe(|h.certificate|, 4);
    HeaderSlices(h);
    hide HelloHeader, ToLe, FromLe;
  }

  /** A hello is read back whatever follows it, by a reader that expects its
      role, and refused by one that expects the other. */
  lemma HelloRoundTrip(h: Hello, rest: seq<Byte>, role: Role)
    requires CertificateOk(h.certificate)
    ensures var r := ParseHello(HelloBytes(h) + rest, role);
      if role == h.role then r == (Some(h), |HelloBytes(h)|) else r.0 == None
  {
    HeaderFields(h);
    hide HelloHeader, HeaderOk, FromLe;
    var b := HelloBytes(h) + rest;
    assert b[..HELLO_HEADER_LENGTH] == HelloHeader(h);
    assert b[HELLO_HEADER_LENGTH..|HelloBytes(h)|] == h.certificate;
  }

  lemma HeaderJoin(h: Hello, r: seq<Byte>)
    requires |r| == HELLO_HEADER_LENGTH && r[..8] == HELLO_MAGIC && r[8..10] == ToLe(PAIRING_VERSION, 2)
    requires r[10] == RoleByte(h.role) && r[11..43] == h.nonce && r[43..47] == ToLe(|h.certificate|, 4)
    ensures HelloHeader(h) == r
  {
    hide ToLe;
    assert r == r[..8] + r[8..10] + [r[10]] + r[11..43] + r[43..47];
  }

  /** Nothing but the encoding of a hello is read as that hello. */
  lemma HelloParsed(b: seq<Byte>, role: Role)
    requires ParseHello(b, role).0.Some?
    ensures var (h, taken) := ParseHello(b, role);
      HelloBytes(h.value) == b[..taken] && h.value.role == role && CertificateOk(h.value.certificate)
  {
    var (h, taken) := ParseHello(b, role);
    var header := b[..HELLO_HEADER_LENGTH];
    ToFromLe(header[8..10]);
    ToFromLe(header[43..47]);
    HeaderJoin(h.value, header);
    hide ToLe, FromLe, HelloHeader;
    assert b[..taken] == header + b[HELLO_HEADER_LENGTH..taken];
  }

  // ------------------------------------------------------------------ transcript

  /** What is hashed: a domain, then the listener's hello, then the connector's. */
  function Preimage(listener: Hello, connector: Hello): seq<Byte> {
    TRANSCRIPT_DOMAIN + HelloBytes(listener) + HelloBytes(connector)
  }

  /** The preimage determines both hellos and which is whose. */
  lemma PreimageInjective(l1: Hello, c1: Hello, l2: Hello, c2: Hello)
    requires CertificateOk(l1.certificate) && CertificateOk(c1.certificate)
    requires CertificateOk(l2.certificate) && CertificateOk(c2.certificate)
    requires l1.role == l2.role == Listener && c1.role == c2.role == Connector
    ensures Preimage(l1, c1) == Preimage(l2, c2) <==> l1 == l2 && c1 == c2
  {
    if Preimage(l1, c1) == Preimage(l2, c2) {
      assert Preimage(l1, c1)[|TRANSCRIPT_DOMAIN|..] == HelloBytes(l1) + HelloBytes(c1);
      assert Preimage(l2, c2)[|TRANSCRIPT_DOMAIN|..] == HelloBytes(l2) + HelloBytes(c2);
      HelloRoundTrip(l1, HelloBytes(c1), Listener);
      HelloRoundTrip(l2, HelloBytes(c2), Listener);
      hide HelloBytes, ParseHello;
      assert (HelloBytes(l1) + HelloBytes(c1))[|HelloBytes(l1)|..] == HelloBytes(c1);
      assert (HelloBytes(l2) + HelloBytes(c2))[|HelloBytes(l2)|..] == HelloBytes(c2);
      SameHello(c1, c2);
    }
  }

  lemma SameHello(a: Hello, b: Hello)
    requires CertificateOk(a.certificate) && CertificateOk(b.certificate) && a.role == b.role
    requires HelloBytes(a) == HelloBytes(b)
    ensures a == b
  {
    HelloRoundTrip(a, [], a.role);
    HelloRoundTrip(b, [], a.role);
    hide ParseHello, HelloBytes;
    assert HelloBytes(a) + [] == HelloBytes(b) + [];
  }

  /** `pairing_code`. */
  function Code(digest: Block): (code: seq<Byte>)
    ensures |code| == 8 && code <= digest
  {
    digest[..8]
  }

  // ------------------------------------------------------------- proof and decision

  function Proof(digest: Block): (r: seq<Byte>)
    ensures |r| == PROOF_LENGTH
  {
    PROOF_MAGIC + digest
  }

  function Confirmation(digest: Block, approved: bool): (r: seq<Byte>)
    ensures |r| == CONFIRM_LENGTH
  {
    CONFIRM_MAGIC + digest + [if approved then 1 else 0]
  }

  /** What the peer's decision message says, if it is one for this digest. */
  function Decision(digest: Block, message: seq<Byte>): Option<bool>
    requires |message| == CONFIRM_LENGTH
  {
    if message[..8] != CONFIRM_MAGIC || message[8..40] != digest || message[40] > 1 then None
    else Some(message[40] == 1)
  }

  /** Decisions are read as they were sent, and only under the same digest. */
  lemma DecisionOfConfirmation(mine: Block, theirs: Block, approved: bool)
    ensures Decision(mine, Confirmation(theirs, approved)) == if mine == theirs then Some(approved) else None
  {
    var m := Confirmation(theirs, approved);
    assert m[..8] == CONFIRM_MAGIC && m[8..40] == theirs && m[40] == if approved then 1 else 0;
  }

  lemma ProofInjective(a: Block, b: Block)
    ensures Proof(a) == Proof(b) <==> a == b
  {
    assert Proof(a)[8..] == a && Proof(b)[8..] == b;
  }

  /** `exchange_tls_proof`. */
  method ExchangeProof(writer: Writer, reader: Reader, digest: Block) returns (ok: bool)
    requires reader.Valid()
    modifies writer, reader`fragments
    ensures reader.Valid()
    ensures ok <==> old(writer.room) >= PROOF_LENGTH && Proof(digest) <= old(reader.Pending())
    ensures writer.written == old(writer.written) + Proof(digest)[..Min(PROOF_LENGTH, old(writer.room))]
    ensures ok ==> reader.Pending() == old(reader.Pending())[PROOF_LENGTH..]
  {
    hide Flatten, Proof;
    ghost var was := reader.Pending();
    ok := writer.WriteAll(Proof(digest));
    if !ok {
      return;
    }
    var remote: array<Byte> := new Byte[PROOF_LENGTH](_ => 0);
    ok := reader.ReadExact(remote, 0);
    if ok {
      assert remote[..] == was[..PROOF_LENGTH];
      ok := remote[..] == Proof(digest);
    }
  }

  datatype Confirmed = Stored | Refused | Broken

  /** `confirm`, up to the persisting of trust. `identityKept` is the check that
      the local identity is still the one that was paired, `persisted` the
      result of storing the peer. */
  method Confirm(writer: Writer, reader: Reader, digest: Block, approved: bool, identityKept: bool, persisted: bool)
    returns (result: Confirmed)
    requires reader.Valid()
    modifies writer, reader`fragments
    ensures writer.written == old(writer.written) + Confirmation(digest, approved)[..Min(CONFIRM_LENGTH, old(writer.room))]
    ensures result == Stored <==>
      && approved && old(writer.room) >= CONFIRM_LENGTH && |old(reader.Pending())| >= CONFIRM_LENGTH
      && Decision(digest, old(reader.Pending())[..CONFIRM_LENGTH]) == Some(true)
      && identityKept && persisted
    ensures result == Refused <==>
      && old(writer.room) >= CONFIRM_LENGTH && |old(reader.Pending())| >= CONFIRM_LENGTH
      && var decision := Decision(digest, old(reader.Pending())[..CONFIRM_LENGTH]);
         decision.Some? && !(approved && decision.value)
  {
    hide Flatten, Confirmation;
    ghost var was := reader.Pending();
    var ok := writer.WriteAll(Confirmation(digest, approved));
    if !ok {
      return Broken;
    }
    var buffer: array<Byte> := new Byte[CONFIRM_LENGTH](_ => 0);
    ok := reader.ReadExact(buffer, 0);
    if !ok {
      return Broken;
    }
    var remote := buffer[..];
    assert remote == was[..CONFIRM_LENGTH];
    if remote[..8] != CONFIRM_MAGIC || remote[8..40] != digest {
      return Broken;
    }
    if remote[40] > 1 {
      return Broken;
    }
    if !approved || remote[40] == 0 {
      return Refused;
    }
    return if identityKept && persisted then Stored else Broken;
  }
}
