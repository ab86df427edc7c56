/** Byte streams as the codecs see them: a reader that hands out whatever
    fragment has arrived, and a writer that may fail part-way. */
module Streams {
  import opened Common

  function Flatten(chunks: seq<seq<Byte>>): seq<Byte> {
    if chunks == [] then [] else chunks[0] + Flatten(chunks[1..])
  }

  /** One read takes from the first fragment only, so `fragments` fixes how the
      bytes are cut up in transit. After them the stream ends, or fails if
      `broken`. */
  class Reader {
    var fragments: seq<seq<Byte>>
    const broken: bool

    constructor (fragments: seq<seq<Byte>>, broken: bool)
      requires forall f | f in fragments :: f != []
      ensures Valid() && Pending() == Flatten(fragments) && this.broken == broken
    {
      this.fragments, this.broken := fragments, broken;
    }

    ghost predicate Valid()
      reads this
    {
      forall f | f in fragments :: f != []
    }

    /** What is still to be read, however it is fragmented. */
    ghost function Pending(): seq<Byte>
      reads this
    {
      Flatten(fragments)
    }

    /** `Read::read` into `buffer[from..to]`; `None` is an error. */
    method Read(buffer: array<Byte>, from: nat, to: nat) returns (count: Option<nat>)
      requires Valid() && from < to <= buffer.Length
      modifies this`fragments, buffer
      ensures Valid()
      ensures count.None? <==> old(Pending()) == [] && broken
      ensures count.Some? ==> count.value <= to - from && count.value <= |old(Pending())|
      ensures count == Some(0) <==> old(Pending()) == [] && !broken
      ensures var n := if count.Some? then count.value else 0;
        && Pending() == old(Pending())[n..]
        && buffer[from..from + n] == old(Pending())[..n]
        && buffer[..from] == old(buffer[..from]) && buffer[from + n..] == old(buffer[from + n..])
    {
      if fragments == [] {
        return if broken then None else Some(0);
      }
      var first := fragments[0];
      var n := Min(|first|, to - from);
      assert first in fragments && forall f | f in fragments[1..] :: f in fragments;
      Taken(fragments, n);
      hide Flatten;
      forall i | 0 <= i < n {
        buffer[from + i] := first[i];
      }
      fragments := if n == |first| then fragments[1..] else [first[n..]] + fragments[1..];
      return Some(n);
    }

    /** `Read::read_exact` into `buffer[from..]`: all of it or an error. */
    method ReadExact(buffer: array<Byte>, from: nat) returns (ok: bool)
      requires Valid() && from <= buffer.Length
      modifies this`fragments, buffer
      ensures Valid() && buffer[..from] == old(buffer[..from])
      ensures var wanted := buffer.Length - from;
        && ok == (wanted <= |old(Pending())|)
        && Pending() == old(Pending())[Min(wanted, |old(Pending())|)..]
        && (ok ==> buffer[from..] == old(Pending())[..wanted])
    {
      hide Flatten, Valid, Pending;
      ghost var was := Pending();
      var filled := from;
      while filled < buffer.Length
        invariant Valid() && from <= filled <= buffer.Length && filled - from <= |was|
        invariant Pending() == was[filled - from..]
        invariant buffer[..from] == old(buffer[..from]) && buffer[from..filled] == was[..filled - from]
      {
        ghost var start := filled - from;
        var count := Read(buffer, filled, buffer.Length);
        if count.None? || count.value == 0 {
          return false;
        }
        Extended(buffer[..], from, filled, filled + count.value, was);
        filled := filled + count.value;
      }
      return true;
    }
  }

  lemma Taken(fragments: seq<seq<Byte>>, n: nat)
    requires fragments != [] && n <= |fragments[0]|
    ensures var rest := if n == |fragments[0]| then fragments[1..] else [fragments[0][n..]] + fragments[1..];
      && n <= |Flatten(fragments)|
      && Flatten(fragments)[..n] == fragments[0][..n]
      && Flatten(rest) == Flatten(fragments)[n..]
      && (fragments[0] != [] ==> Flatten(fragments) != [])
  {
  }

  lemma Extended(s: seq<Byte>, from: nat, mid: nat, to: nat, was: seq<Byte>)
    requires from <= mid <= to <= |s| && to - from <= |was|
    requires s[from..mid] == was[..mid - from] && s[mid..to] == was[mid - from..][..to - mid]
    ensures s[from..to] == was[..to - from]
  {
    assert s[from..to] == s[from..mid] + s[mid..to];
  }

  /** A writer that takes `room` more bytes and then fails. */
  class Writer {
    var written: seq<Byte>
    var room: nat

    constructor (room: nat)
      ensures written == [] && this.room == room
    {
      written, this.room := [], room;
    }

    /** `Write::write_all`. */
    method WriteAll(bytes: seq<Byte>) returns (ok: bool)
      modifies this
      ensures ok == (|bytes| <= old(room))
      ensures written == old(written) + bytes[..Min(|bytes|, old(room))]
      ensures room == Monus(old(room), |bytes|)
    {
      var n := Min(|bytes|, room);
      written, room := written + bytes[..n], room - n;
      return n == |bytes|;
    }
  }
}
