/** The frame stream under every request and response (`write_frame`,
    `read_frame_optional` in secure_transfer.rs). */
module Frames {
  import opened Common
  import opened Bytes
  import opened Streams

  const MAGIC: seq<Byte> := [0x43, 0x46, 0x53, 0x34]
  const PROTOCOL_VERSION: nat := 2
  const FRAME_HEADER_LEN: nat := 20
  const MAX_FRAME_PAYLOAD: nat := 1024 * 1024

  datatype Frame = Frame(opcode: nat, requestId: nat, payload: seq<Byte>)

  predicate Typed(f: Frame) {
    f.opcode < 0x1_0000 && f.requestId <= U64_MAX && |f.payload| <= MAX_FRAME_PAYLOAD
  }

  function Header(f: Frame): (h: seq<Byte>)
    ensures |h| == FRAME_HEADER_LEN
  {
    MAGIC + ToBe(PROTOCOL_VERSION, 2) + ToBe(f.opcode, 2) + ToBe(f.requestId, 8) + ToBe(|f.payload|, 4)
  }

  function FrameBytes(f: Frame): seq<Byte> {
    Header(f) + f.payload
  }

  function Concat(fs: seq<Frame>): seq<Byte> {
    if fs == [] then [] else FrameBytes(fs[0]) + Concat(fs[1..])
  }

  // ------------------------------------------------------------ reading a frame

  datatype Outcome = Closed | Failed | Got(frame: Frame)

  predicate HeaderOk(h: seq<Byte>)
    requires |h| == FRAME_HEADER_LEN
  {
    h[..4] == MAGIC && FromBe(h[4..6]) == PROTOCOL_VERSION && FromBe(h[16..20]) <= MAX_FRAME_PAYLOAD
  }

  /** The next frame and the bytes consumed, given all the bytes still to come. */
  function ParseFrame(b: seq<Byte>, broken: bool): (r: (Outcome, nat))
    ensures r.1 <= |b| && (r.0.Got? ==> r.1 > 0)
  {
    if b == [] then (if broken then Failed else Closed, 0)
    else if |b| < FRAME_HEADER_LEN then (Failed, |b|)
    else
      var h := b[..FRAME_HEADER_LEN];
      if !HeaderOk(h) then (Failed, FRAME_HEADER_LEN)
      else
        var end := FRAME_HEADER_LEN + FromBe(h[16..20]);
        if |b| < end then (Failed, |b|)
        else (Got(Frame(FromBe(h[6..8]), FromBe(h[8..16]), b[FRAME_HEADER_LEN..end])), end)
  }

  /** The first byte decides between a clean end and a frame; from then on the
      end of the stream is an error. */
  method ReadFrameOptional(stream: Reader) returns (outcome: Outcome)
    requires stream.Valid()
    modifies stream`fragments
    ensures stream.Valid()
    ensures (outcome, stream.Pending()) ==
      var (o, taken) := ParseFrame(old(stream.Pending()), stream.broken); (o, old(stream.Pending())[taken..])
  {
    hide FromBe, Flatten;
    ghost var was := stream.Pending();
    var header: array<Byte> := new Byte[FRAME_HEADER_LEN](_ => 0);
    var first := stream.Read(header, 0, 1);
    if first.None? {
      return Failed;
    }
    if first.value == 0 {
      return Closed;
    }
    assert header[..1] == was[..1];
    var ok := stream.ReadExact(header, 1);
    if !ok {
      return Failed;
    }
    var h := header[..];
    assert h == header[..1] + header[1..];
    assert h == was[..FRAME_HEADER_LEN];
    if h[..4] != MAGIC || FromBe(h[4..6]) != PROTOCOL_VERSION {
      return Failed;
    }
    var length := FromBe(h[16..20]);
    if length > MAX_FRAME_PAYLOAD {
      return Failed;
    }
    var payload: array<Byte> := new Byte[length](_ => 0);
    ok := stream.ReadExact(payload, 0);
    if !ok {
      return Failed;
    }
    assert payload[..] == was[FRAME_HEADER_LEN..][..length] == was[FRAME_HEADER_LEN..FRAME_HEADER_LEN + length];
    return Got(Frame(FromBe(h[6..8]), FromBe(h[8..16]), payload[..]));
  }

  /** `write_frame`: an oversized payload is refused before a byte is written;
      a failing writer leaves a proper prefix of the frame. */
  method WriteFrame(stream: Writer, f: Frame) returns (ok: bool)
    modifies stream
    ensures ok <==> |f.payload| <= MAX_FRAME_PAYLOAD && |FrameBytes(f)| <= old(stream.room)
    ensures stream.written == old(stream.written) +
      if |f.payload| > MAX_FRAME_PAYLOAD then [] else FrameBytes(f)[..Min(|FrameBytes(f)|, old(stream.room))]
  {
    hide Header;
    if |f.payload| > MAX_FRAME_PAYLOAD {
      return false;
    }
    ok := stream.WriteAll(Header(f));
    if !ok {
      return;
    }
    ok := stream.WriteAll(f.payload);
  }

  // -------------------------------------------------------- reading a connection

  /** Every frame up to the first end or failure, and whether that was clean. */
  function ParseAll(b: seq<Byte>, broken: bool): (seq<Frame>, bool)
    decreases |b|
  {
    var (outcome, taken) := ParseFrame(b, broken);
    if outcome.Got? then
      var rest := ParseAll(b[taken..], broken);
      ([outcome.frame] + rest.0, rest.1)
    else ([], outcome == Closed)
  }

  function Prefixed(done: seq<Frame>, rest: (seq<Frame>, bool)): (seq<Frame>, bool) {
    (done + rest.0, rest.1)
  }

  /** One pass of the loop. */
  lemma ParseNext(done: seq<Frame>, b: seq<Byte>, broken: bool)
    ensures var (outcome, taken) := ParseFrame(b, broken); var goal := Prefixed(done, ParseAll(b, broken));
      if outcome.Got? then goal == Prefixed(done + [outcome.frame], ParseAll(b[taken..], broken))
      else goal == (done, outcome == Closed)
  {
    var (outcome, taken) := ParseFrame(b, broken);
    hide ParseFrame;
    if outcome.Got? {
      var rest := ParseAll(b[taken..], broken).0;
      assert done + ([outcome.frame] + rest) == done + [outcome.frame] + rest;
    } else {
      assert done + [] == done;
    }
  }

  /** The request loop of one connection, as far as the stream is concerned.
      What it reads depends on the bytes alone, never on their fragmentation. */
  method ReadConnection(stream: Reader) returns (frames: seq<Frame>, clean: bool)
    requires stream.Valid()
    modifies stream`fragments
    ensures (frames, clean) == ParseAll(old(stream.Pending()), stream.broken)
  {
    frames := [];
    ghost var goal := ParseAll(stream.Pending(), stream.broken);
    hide ParseFrame, ParseAll;
    assert [] + goal.0 == goal.0;
    while true
      invariant stream.Valid() && goal == Prefixed(frames, ParseAll(stream.Pending(), stream.broken))
      decreases |stream.Pending()|
    {
      ParseNext(frames, stream.Pending(), stream.broken);
      var outcome := ReadFrameOptional(stream);
      match outcome
      case Closed => return frames, true;
      case Failed => return frames, false;
      case Got(frame) => frames := frames + [frame];
    }
  }

  // ------------------------------------------------------------ self-delimiting

  lemma HeaderFields(f: Frame)
    requires Typed(f)
    ensures var h := Header(f);
      HeaderOk(h) && FromBe(h[6..8]) == f.opcode && FromBe(h[8..16]) == f.requestId && FromBe(h[16..20]) == |f.payload|
  {
    Widths();
    FromTo(PROTOCOL_VERSION, 2);
    FromTo(f.opcode, 2);
    FromTo(f.requestId, 8);
    FromTo(|f.payload|, 4);
    HeaderSlices(f);
    hide Header, ToBe, FromBe;
  }

  lemma HeaderSlices(f: Frame)
    ensures var h := Header(f);
      && h[..4] == MAGIC && h[4..6] == ToBe(PROTOCOL_VERSION, 2) && h[6..8] == ToBe(f.opcode, 2)
      && h[8..16] == ToBe(f.requestId, 8) && h[16..20] == ToBe(|f.payload|, 4)
  {
    hide ToBe;
  }

  lemma ParseEncoded(f: Frame, rest: seq<Byte>, broken: bool)
    requires Typed(f)
    ensures ParseFrame(FrameBytes(f) + rest, broken) == (Got(f), |FrameBytes(f)|)
  {
    HeaderFields(f);
    hide Header, HeaderOk, FromBe;
    var b := FrameBytes(f) + rest;
    assert b[..FRAME_HEADER_LEN] == Header(f);
    assert b[FRAME_HEADER_LEN..|FrameBytes(f)|] == f.payload;
  }

  /** A frame cut short is never a frame, and never a clean end. */
  lemma ParseCut(f: Frame, k: nat, broken: bool)
    requires Typed(f) && 0 < k < |FrameBytes(f)|
    ensures ParseFrame(FrameBytes(f)[..k], broken) == (Failed, k)
  {
    HeaderFields(f);
    hide Header, HeaderOk, FromBe;
    var b := FrameBytes(f)[..k];
    if k >= FRAME_HEADER_LEN {
      assert b[..FRAME_HEADER_LEN] == Header(f);
    }
  }

  lemma ParseFirst(f: Frame, tail: seq<Byte>, broken: bool)
    requires Typed(f)
    ensures ParseAll(FrameBytes(f) + tail, broken) == Prefixed([f], ParseAll(tail, broken))
  {
    ParseEncoded(f, tail, broken);
    assert (FrameBytes(f) + tail)[|FrameBytes(f)|..] == tail;
    hide ParseFrame, FrameBytes, Typed;
  }

  lemma PrefixedTwice(f: Frame, fs: seq<Frame>, rest: (seq<Frame>, bool))
    ensures Prefixed([f], Prefixed(fs, rest)) == Prefixed([f] + fs, rest) && Prefixed([], rest) == rest
  {
    assert [f] + (fs + rest.0) == [f] + fs + rest.0;
    assert [] + rest.0 == rest.0;
  }

  lemma ConcatCons(f: Frame, fs: seq<Frame>, rest: seq<Byte>)
    ensures Concat([f] + fs) + rest == FrameBytes(f) + (Concat(fs) + rest)
  {
    hide FrameBytes;
    assert ([f] + fs)[1..] == fs;
    assert FrameBytes(f) + Concat(fs) + rest == FrameBytes(f) + (Concat(fs) + rest);
  }

  /** Encoded frames in front of any bytes are read off first. */
  lemma {:induction false} ParseAllConcat(fs: seq<Frame>, rest: seq<Byte>, broken: bool)
    requires forall f | f in fs :: Typed(f)
    ensures ParseAll(Concat(fs) + rest, broken) == Prefixed(fs, ParseAll(rest, broken))
  {
    hide FrameBytes, Typed, ParseAll, Prefixed;
    if fs == [] {
      assert Concat(fs) + rest == rest;
      PrefixedTwice(Frame(0, 0, []), [], ParseAll(rest, broken));
    } else {
      hide Concat;
      var first, others := fs[0], fs[1..];
      assert fs == [first] + others;
      ConcatCons(first, others, rest);
      ParseFirst(first, Concat(others) + rest, broken);
      ParseAllConcat(others, rest, broken);
      PrefixedTwice(first, others, ParseAll(rest, broken));
    }
  }

  /** The frame stream is self-delimiting. */
  lemma SelfDelimiting(fs: seq<Frame>)
    requires forall f | f in fs :: Typed(f)
    ensures ParseAll(Concat(fs), false) == (fs, true)
  {
    ParseAllConcat(fs, [], false);
    NothingLeft(false);
    hide ParseAll, Concat, Typed;
    assert Concat(fs) + [] == Concat(fs) && fs + [] == fs;
  }

  lemma {:induction false} ConcatSplit(fs: seq<Frame>, m: nat)
    requires m <= |fs|
    ensures Concat(fs) == Concat(fs[..m]) + Concat(fs[m..])
  {
    hide FrameBytes;
    if m > 0 {
      ConcatSplit(fs[1..], m - 1);
      assert fs[..m][1..] == fs[1..][..m - 1] && fs[m..] == fs[1..][m - 1..];
    }
  }

  /** What a cut leaves of the frame it falls in. */
  function Remnant(fs: seq<Frame>, m: nat, over: nat): seq<Byte>
    requires m <= |fs| && (m < |fs| ==> over < |FrameBytes(fs[m])|)
  {
    if m < |fs| then FrameBytes(fs[m])[..over] else []
  }

  lemma CutSplit(fs: seq<Frame>, m: nat, cut: nat)
    requires m <= |fs| && |Concat(fs[..m])| <= cut <= |Concat(fs)|
    requires m < |fs| ==> cut < |Concat(fs[..m + 1])|
    ensures var over := cut - |Concat(fs[..m])|;
      && (m < |fs| ==> over < |FrameBytes(fs[m])|) && (m == |fs| ==> over == 0)
      && Concat(fs)[..cut] == Concat(fs[..m]) + Remnant(fs, m, over)
  {
    ConcatSplit(fs, m);
    if m < |fs| {
      ConcatSplit(fs[..m + 1], m);
      assert fs[..m + 1][..m] == fs[..m] && fs[..m + 1][m..] == [fs[m]];
      ConcatFirst([fs[m]]);
      ConcatFirst(fs[m..]);
    } else {
      assert fs[..m] == fs;
    }
    hide Concat, FrameBytes;
  }

  lemma {:induction false} CutPoint(fs: seq<Frame>, cut: nat, from: nat) returns (m: nat)
    requires from <= |fs| && |Concat(fs[..from])| <= cut <= |Concat(fs)|
    ensures m <= |fs| && |Concat(fs[..m])| <= cut && (m < |fs| ==> cut < |Concat(fs[..m + 1])|)
    decreases |fs| - from
  {
    hide Concat;
    if from < |fs| && |Concat(fs[..from + 1])| <= cut {
      m := CutPoint(fs, cut, from + 1);
    } else {
      m := from;
    }
  }

  /** A stream cut at any byte yields exactly the frames that are complete, and
      ends cleanly only if the cut falls between two frames. */
  lemma CutAnywhere(fs: seq<Frame>, cut: nat, broken: bool) returns (m: nat)
    requires (forall f | f in fs :: Typed(f)) && cut <= |Concat(fs)|
    ensures m <= |fs| && |Concat(fs[..m])| <= cut && (m < |fs| ==> cut < |Concat(fs[..m + 1])|)
    ensures ParseAll(Concat(fs)[..cut], broken) == (fs[..m], !broken && cut == |Concat(fs[..m])|)
  {
    assert fs[..0] == [];
    m := CutPoint(fs, cut, 0);
    CutSplit(fs, m, cut);
    hide FrameBytes, Typed, ParseAll, Concat;
    var over := cut - |Concat(fs[..m])|;
    ParseAllConcat(fs[..m], Remnant(fs, m, over), broken);
    if over == 0 {
      NothingLeft(broken);
    } else {
      OneCut(fs[m], over, broken);
    }
    assert fs[..m] + [] == fs[..m];
  }

  lemma ConcatFirst(fs: seq<Frame>)
    requires fs != []
    ensures FrameBytes(fs[0]) <= Concat(fs) && (|fs| == 1 ==> Concat(fs) == FrameBytes(fs[0]))
  {
    hide FrameBytes;
    if |fs| == 1 {
      assert Concat(fs[1..]) == [];
    }
  }

  lemma OneCut(f: Frame, k: nat, broken: bool)
    requires Typed(f) && 0 < k < |FrameBytes(f)|
    ensures ParseAll(FrameBytes(f)[..k], broken) == ([], false)
  {
    ParseCut(f, k, broken);
    hide ParseFrame, FrameBytes, Typed;
  }

  lemma NothingLeft(broken: bool)
    ensures ParseAll([], broken) == ([], !broken)
  {
  }

  lemma HeaderParsed(h: seq<Byte>, payload: seq<Byte>)
    requires |h| == FRAME_HEADER_LEN && HeaderOk(h) && FromBe(h[16..20]) == |payload|
    ensures var f := Frame(FromBe(h[6..8]), FromBe(h[8..16]), payload); Typed(f) && Header(f) == h
  {
    Widths();
    ToFrom(h[4..6]);
    ToFrom(h[6..8]);
    ToFrom(h[8..16]);
    ToFrom(h[16..20]);
    HeaderJoin(Frame(FromBe(h[6..8]), FromBe(h[8..16]), payload), h);
    hide ToBe, FromBe, Header;
  }

  lemma HeaderJoin(f: Frame, h: seq<Byte>)
    requires |h| == FRAME_HEADER_LEN && h[..4] == MAGIC && h[4..6] == ToBe(PROTOCOL_VERSION, 2) && h[6..8] == ToBe(f.opcode, 2)
    requires h[8..16] == ToBe(f.requestId, 8) && h[16..20] == ToBe(|f.payload|, 4)
    ensures Header(f) == h
  {
    hide ToBe;
    assert h == h[..4] + h[4..6] + h[6..8] + h[8..16] + h[16..20];
  }

  lemma EncodeParsed(b: seq<Byte>, broken: bool)
    requires ParseFrame(b, broken).0.Got?
    ensures var (outcome, taken) := ParseFrame(b, broken); Typed(outcome.frame) && FrameBytes(outcome.frame) == b[..taken]
  {
    var (outcome, taken) := ParseFrame(b, broken);
    var h := b[..FRAME_HEADER_LEN];
    HeaderParsed(h, outcome.frame.payload);
    hide Header, HeaderOk, FromBe;
    assert b[..taken] == h + outcome.frame.payload;
  }

  /** Whatever the bytes are, the frames read encode to a prefix of them, and to
      all of them after a clean end: no second byte form of any frame. */
  lemma {:induction false} NothingInvented(b: seq<Byte>, broken: bool)
    ensures var (fs, clean) := ParseAll(b, broken);
      && (forall f | f in fs :: Typed(f)) && Concat(fs) <= b && (clean ==> Concat(fs) == b)
    decreases |b|
  {
    hide FrameBytes, Typed;
    var (outcome, taken) := ParseFrame(b, broken);
    if outcome.Got? {
      EncodeParsed(b, broken);
      NothingInvented(b[taken..], broken);
      var fs := ParseAll(b, broken).0;
      hide ParseFrame;
      assert fs[1..] == ParseAll(b[taken..], broken).0;
      assert b == b[..taken] + b[taken..];
    }
  }
}
