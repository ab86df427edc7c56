/** The life of a local offer (`StableFileSource`, `LocalFileOffer` and
    `LocalOfferRegistry` in local_file.rs): sources open their file at the first
    read, and publishing revokes what was offered before. */
module Offers {
  import opened Common
  import Remote

  const OFFER_UNAVAILABLE: nat := 0x8007_05B4
  const SOURCE_CHANGED: nat := 0x8007_03EE

  datatype SourceState = Unstarted | Active | Failed(code: nat)

  datatype Opening = Opened | Refused(code: nat)

  /** What decides whether a source can be read. */
  datatype Life = Life(expiresAt: nat, revoked: bool, state: SourceState)

  /** What other threads and readers may do to a source, in any order. */
  datatype Event = Revoke | Use(now: nat, opening: Opening)

  function Used(l: Life, now: nat, opening: Opening): Life {
    if l.state != Unstarted then l
    else if l.revoked || now >= l.expiresAt then l.(state := Failed(OFFER_UNAVAILABLE))
    else l.(state := if opening == Opened then Active else Failed(opening.code))
  }

  function After(l: Life, e: Event): Life {
    match e
    case Revoke => l.(revoked := true)
    case Use(now, opening) => Used(l, now, opening)
  }

  function Lived(l: Life, events: seq<Event>): Life
    decreases |events|
  {
    if events == [] then l else Lived(After(l, events[0]), events[1..])
  }

  predicate NoUse(events: seq<Event>) {
    forall e | e in events :: e == Revoke
  }

  /** Once read, a source stays as it is: a failure is permanent, with its code,
      and an open file stays readable after the offer is replaced or expires. */
  lemma {:induction false} StartedStays(l: Life, events: seq<Event>)
    requires l.state != Unstarted
    ensures Lived(l, events).state == l.state
    decreases |events|
  {
    if events != [] {
      StartedStays(After(l, events[0]), events[1..]);
    }
  }

  lemma {:induction false} BeforeUse(l: Life, events: seq<Event>, k: nat)
    requires k <= |events| && NoUse(events[..k])
    ensures Lived(l, events) == Lived(l.(revoked := l.revoked || k > 0), events[k..])
    decreases |events|
  {
    if k > 0 {
      var begin, rest := events[..k], events[1..][..k - 1];
      assert begin[0] in begin && forall i | 0 <= i < k - 1 :: rest[i] == begin[i + 1] && begin[i + 1] in begin;
      BeforeUse(After(l, events[0]), events[1..], k - 1);
      assert events[1..][k - 1..] == events[k..];
    } else {
      assert events[k..] == events;
    }
  }

  /** In every run the first read alone decides what becomes of a source, and it
      is too late exactly from revocation or expiry on. */
  lemma FirstUseDecides(l: Life, events: seq<Event>, k: nat)
    requires l.state == Unstarted && k < |events| && NoUse(events[..k]) && events[k].Use?
    ensures Lived(l, events).state ==
      if l.revoked || k > 0 || events[k].now >= l.expiresAt then Failed(OFFER_UNAVAILABLE)
      else if events[k].opening == Opened then Active
      else Failed(events[k].opening.code)
  {
    BeforeUse(l, events, k);
    var ready := l.(revoked := l.revoked || k > 0);
    assert events[k..][0] == events[k] && events[k..][1..] == events[k + 1..];
    StartedStays(After(ready, events[k]), events[k + 1..]);
  }

  // --------------------------------------------------------------------- sources

  /** What the file system shows during one read: whether the open file still
      has its size and identity before and after it, and the bytes there. */
  datatype Look = Look(matches: bool, file: seq<Byte>, matchesAfter: bool)

  function Wanted(size: nat, offset: nat, length: nat): nat {
    Min(length, Monus(size, offset))
  }

  class StableFileSource {
    const size: nat
    const expiresAt: nat
    var revoked: bool
    var state: SourceState

    constructor (size: nat, expiresAt: nat)
      ensures this.size == size && Now() == Life(expiresAt, false, Unstarted)
    {
      this.size, this.expiresAt, revoked, state := size, expiresAt, false, Unstarted;
    }

    function Now(): Life
      reads this
    {
      Life(expiresAt, revoked, state)
    }

    /** `context`; `None` is success. */
    method Context(now: nat, opening: Opening) returns (error: Option<nat>)
      modifies this`state
      ensures Now() == After(old(Now()), Use(now, opening))
      ensures error == if state == Active then None else Some(state.code)
    {
      match state {
        case Active => return None;
        case Failed(code) => return Some(code);
        case Unstarted =>
      }
      if revoked || now >= expiresAt {
        state := Failed(OFFER_UNAVAILABLE);
        return Some(OFFER_UNAVAILABLE);
      }
      match opening {
        case Opened =>
          state := Active;
          return None;
        case Refused(code) =>
          state := Failed(code);
          return Some(code);
      }
    }

    method Revoke()
      modifies this`revoked
      ensures Now() == After(old(Now()), Event.Revoke)
    {
      revoked := true;
    }

    /** `read_at`. Nothing but a whole piece is ever returned, and against a
        file of the advertised size it is what a source must return. */
    method ReadAt(now: nat, opening: Opening, look: Look, offset: nat, destination: array<Byte>)
      returns (error: Option<nat>, count: nat)
      modifies this`state, destination
      ensures Now() == if destination.Length == 0 then old(Now()) else After(old(Now()), Use(now, opening))
      ensures var n := Wanted(size, offset, destination.Length);
        error == None <==>
          || destination.Length == 0
          || (state == Active && look.matches
              && (n > 0 ==> offset + n <= |look.file| && (offset + n >= size ==> look.matchesAfter)))
      ensures error == None ==>
        && count == Wanted(size, offset, destination.Length)
        && (count > 0 ==> offset + count <= |look.file| && destination[..count] == look.file[offset..offset + count])
        && destination[count..] == old(destination[count..])
        && (|look.file| == size ==> Remote.ReadsFrom(look.file, offset, destination.Length, destination[..count]))
    {
      count := 0;
      if destination.Length == 0 {
        return None, 0;
      }
      error := Context(now, opening);
      if error.Some? {
        return;
      }
      if !look.matches {
        return Some(SOURCE_CHANGED), 0;
      }
      if offset >= size {
        return None, 0;
      }
      var length := Min(destination.Length, size - offset);
      var read := Min(length, Monus(|look.file|, offset));
      if read > 0 {
        Remote.CopyInto(destination, 0, look.file[offset..offset + read]);
      }
      if read != length {
        return Some(SOURCE_CHANGED), 0;
      }
      if offset + read >= size && !look.matchesAfter {
        return Some(SOURCE_CHANGED), 0;
      }
      return None, read;
    }
  }

  // ---------------------------------------------------------------------- offers

  class LocalFileOffer {
    const sources: seq<StableFileSource>

    constructor (sources: seq<StableFileSource>)
      ensures this.sources == sources
    {
      this.sources := sources;
    }

    ghost predicate AllRevoked()
      reads sources
    {
      forall s | s in sources :: s.revoked
    }

    method Revoke()
      modifies sources
      ensures AllRevoked()
      ensures forall s | s in sources :: s.state == old(s.state)
    {
      for i := 0 to |sources|
        invariant forall s | s in sources[..i] :: s.revoked
        invariant forall s | s in sources :: s.state == old(s.state)
      {
        sources[i].Revoke();
        assert sources[..i + 1] == sources[..i] + [sources[i]];
      }
      assert sources[..|sources|] == sources;
    }
  }

  /** One source for each file among the entries. */
  method NewSources(sizes: seq<Option<nat>>, expiresAt: nat) returns (sources: seq<StableFileSource>)
    ensures |sources| == |Files(sizes)|
    ensures forall i | 0 <= i < |sources| ::
      fresh(sources[i]) && sources[i].size == Files(sizes)[i] && sources[i].Now() == Life(expiresAt, false, Unstarted)
  {
    sources := [];
    for i := 0 to |sizes|
      invariant |sources| == |Files(sizes[..i])|
      invariant forall k | 0 <= k < |sources| ::
        && fresh(sources[k]) && sources[k].size == Files(sizes[..i])[k]
        && sources[k].Now() == Life(expiresAt, false, Unstarted)
    {
      assert sizes[..i + 1][..i] == sizes[..i];
      if sizes[i].Some? {
        var s := new StableFileSource(sizes[i].value, expiresAt);
        sources := sources + [s];
      }
    }
    assert sizes[..|sizes|] == sizes;
  }

  /** `published` remembers every offer there ever was. */
  class LocalOfferRegistry {
    var current: LocalFileOffer?
    ghost var published: seq<LocalFileOffer>

    constructor ()
      ensures Valid() && current == null && published == []
    {
      current, published := null, [];
    }

    ghost function Sources(): set<StableFileSource>
      reads this
    {
      set o, s | o in published && s in o.sources :: s
    }

    /** Every offer but the current one is revoked. */
    ghost predicate Valid()
      reads this, Sources()
    {
      && (current != null ==> current in published)
      && forall o | o in published && o != current :: forall s | s in o.sources :: s.revoked
    }

    /** `publish_tree` of files of these sizes, directories having none. */
    method PublishTree(sizes: seq<Option<nat>>, now: nat, ttl: nat) returns (offer: LocalFileOffer?)
      requires Valid()
      modifies this, if current == null then [] else current.sources
      ensures Valid()
      ensures offer == null <==> ttl == 0
      ensures offer == null ==> current == old(current) && published == old(published)
      ensures offer != null ==>
        && current == offer && published == old(published) + [offer] && fresh(offer)
        && |offer.sources| == |Files(sizes)|
        && (forall i | 0 <= i < |offer.sources| :: offer.sources[i].size == Files(sizes)[i])
        && forall s | s in offer.sources :: fresh(s) && s.Now() == Life(now + ttl, false, Unstarted)
      ensures forall o, s | o in old(published) && s in o.sources :: s.state == old(s.state)
    {
      if ttl == 0 {
        return null;
      }
      var sources := NewSources(sizes, now + ttl);
      offer := new LocalFileOffer(sources);
      if current != null {
        current.Revoke();
      }
      current := offer;
      published := published + [offer];
    }

    method RevokeCurrent()
      requires Valid()
      modifies this, if current == null then [] else current.sources
      ensures Valid() && current == null && published == old(published)
      ensures forall o, s | o in published && s in o.sources :: s.revoked && s.state == old(s.state)
    {
      if current != null {
        current.Revoke();
      }
      current := null;
    }
  }

  /** The files among the entries, in order. */
  function Files(sizes: seq<Option<nat>>): seq<nat> {
    if sizes == [] then []
    else Files(sizes[..|sizes| - 1]) + if sizes[|sizes| - 1].Some? then [sizes[|sizes| - 1].value] else []
  }
}
