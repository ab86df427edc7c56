/** The offer manifest on the wire: `encode_manifest_response` on the server,
    `decode_manifest_response` on the client (secure_transfer.rs). */
module Manifest {
  import opened Common
  import opened Bytes
  import opened Paths

  const HEADER_LEN: nat := 29
  const ENTRY_FIXED_LEN: nat := 55
  const MAX_MANIFEST_BYTES: nat := 1024 * 1024

  type Id = s: seq<Byte> | |s| == 16 witness seq(16, i => 0)

  /** The three presence bits of the optional times. */
  type Flags = n: nat | n < 8

  datatype Entry = Entry(fileId: Id, descriptor: Descriptor)

  /** `ttl` is the remaining lifetime in whole milliseconds. */
  datatype Offer = Offer(id: Id, ttl: nat, entries: seq<Entry>)

  /** An entry as it stands on the wire, with its time bits whatever the flags say. */
  datatype Raw = Raw(fileId: Id, size: nat, attributes: nat, flags: Flags, created: nat, accessed: nat, written: nat, name: seq<Byte>)

  // ------------------------------------------------------------------ encoding

  predicate Fits64(t: Option<nat>) {
    t.Some? ==> t.value <= U64_MAX
  }

  /** Field values within the widths of the program's types. */
  predicate Typed(d: Descriptor) {
    d.size <= U64_MAX && d.attributes < 0x1_0000_0000 && Fits64(d.created) && Fits64(d.accessed) && Fits64(d.written)
  }

  function Bits(t: Option<nat>): nat {
    if t.Some? then t.value else 0
  }

  function Flag(t: Option<nat>, weight: nat): nat {
    if t.Some? then weight else 0
  }

  function ToRaw(e: Entry): Raw {
    var d := e.descriptor;
    Raw(e.fileId, d.size, d.attributes, Flag(d.created, 1) + Flag(d.accessed, 2) + Flag(d.written, 4),
        Bits(d.created), Bits(d.accessed), Bits(d.written), EncodeUtf8(d.name))
  }

  predicate RawOk(r: Raw) {
    && r.size <= U64_MAX && r.attributes < 0x1_0000_0000
    && r.created <= U64_MAX && r.accessed <= U64_MAX && r.written <= U64_MAX && |r.name| < 0x1_0000
  }

  function RawBytes(r: Raw): seq<Byte> {
    r.fileId + ToBe(r.size, 8) + ToBe(r.attributes, 4) + [r.flags]
    + ToBe(r.created, 8) + ToBe(r.accessed, 8) + ToBe(r.written, 8)
    + ToBe(|r.name|, 2) + r.name
  }

  function EntriesBytes(rs: seq<Raw>): seq<Byte> {
    if rs == [] then [] else RawBytes(rs[0]) + EntriesBytes(rs[1..])
  }

  function Header(id: Id, ttl: nat, count: nat): (h: seq<Byte>)
    ensures |h| == HEADER_LEN
  {
    [0] + id + ToBe(ttl, 8) + ToBe(count, 4)
  }

  function Raws(entries: seq<Entry>): (rs: seq<Raw>)
    ensures |rs| == |entries| && forall i | 0 <= i < |rs| :: rs[i] == ToRaw(entries[i])
  {
    seq(|entries|, (i: nat) requires i < |entries| => ToRaw(entries[i]))
  }

  function OfferBytes(o: Offer): seq<Byte> {
    Header(o.id, o.ttl, |o.entries|) + EntriesBytes(Raws(o.entries))
  }

  function Descriptors(entries: seq<Entry>): (ds: seq<Descriptor>)
    ensures |ds| == |entries| && forall i | 0 <= i < |ds| :: ds[i] == entries[i].descriptor
  {
    seq(|entries|, (i: nat) requires i < |entries| => entries[i].descriptor)
  }

  predicate DistinctIds(entries: seq<Entry>) {
    forall i, j | 0 <= i < j < |entries| :: entries[i].fileId != entries[j].fileId
  }

  // ------------------------------------------------------------ the size bound

  function NameBytes(ds: seq<Descriptor>): nat {
    if ds == [] then 0 else NameBytes(ds[..|ds| - 1]) + |EncodeUtf8(ds[|ds| - 1].name)|
  }

  lemma {:induction false} EntriesAppend(a: seq<Raw>, r: Raw)
    ensures EntriesBytes(a + [r]) == EntriesBytes(a) + RawBytes(r)
  {
    hide RawBytes;
    if a == [] {
      assert a + [r] == [r] && [r][1..] == [];
    } else {
      EntriesAppend(a[1..], r);
      assert (a + [r])[1..] == a[1..] + [r];
    }
  }

  lemma {:induction false} EntriesLength(entries: seq<Entry>)
    ensures |EntriesBytes(Raws(entries))| == ENTRY_FIXED_LEN * |entries| + NameBytes(Descriptors(entries))
  {
    hide RawBytes, EntriesBytes, EncodeUtf8, ToRaw;
    NoEntries();
    assert Raws([]) == [];
    if entries != [] {
      var init, last := entries[..|entries| - 1], entries[|entries| - 1];
      EntriesLength(init);
      assert Raws(entries) == Raws(init) + [ToRaw(last)];
      EntriesAppend(Raws(init), ToRaw(last));
      RawLength(ToRaw(last));
      RawName(last);
      assert Descriptors(entries)[..|entries| - 1] == Descriptors(init);
    }
  }

  lemma {:induction false} NamesBound(ds: seq<Descriptor>)
    ensures NameBytes(ds) <= 3 * TotalUnits(ds)
  {
    if ds != [] {
      NamesBound(ds[..|ds| - 1]);
      Utf8Bound(ds[|ds| - 1].name);
    }
  }

  /** Every tree the validator accepts encodes within 1 MiB, and every name
      length fits its 16-bit field. */
  lemma SizeBound(lower: LowerCase, o: Offer)
    requires TreeAccepted(lower, Descriptors(o.entries))
    ensures |OfferBytes(o)| <= HEADER_LEN + 4096 * ENTRY_FIXED_LEN + 3 * 262144 < MAX_MANIFEST_BYTES
    ensures forall i | 0 <= i < |o.entries| :: |EncodeUtf8(o.entries[i].descriptor.name)| <= 777
  {
    EntriesLength(o.entries);
    NamesBound(Descriptors(o.entries));
    forall i | 0 <= i < |o.entries| ensures |EncodeUtf8(o.entries[i].descriptor.name)| <= 777 {
      assert Proper(Descriptors(o.entries)[i]);
      Utf8Bound(o.entries[i].descriptor.name);
    }
  }

  /** `encode_manifest_response` after its expiry check; `None` is the Internal
      status. */
  method Encode(o: Offer) returns (response: Option<seq<Byte>>)
    requires |o.entries| < 0x1_0000_0000
    ensures response.Some? ==> response.value == OfferBytes(o)
    ensures response.Some? <==>
      && |OfferBytes(o)| <= MAX_MANIFEST_BYTES
      && forall i | 0 <= i < |o.entries| :: |EncodeUtf8(o.entries[i].descriptor.name)| < 0x1_0000
  {
    hide RawBytes, ToRaw, Header, EntriesBytes, EncodeUtf8;
    var bytes := Header(o.id, o.ttl, |o.entries|);
    assert EntriesBytes([]) == [] by {
      NoEntries();
    }
    ghost var raws := Raws(o.entries);
    for i := 0 to |o.entries|
      invariant bytes == Header(o.id, o.ttl, |o.entries|) + EntriesBytes(raws[..i]) && |bytes| <= MAX_MANIFEST_BYTES
      invariant forall k | 0 <= k < i :: |EncodeUtf8(o.entries[k].descriptor.name)| < 0x1_0000
    {
      var raw := ToRaw(o.entries[i]);
      RawName(o.entries[i]);
      if |raw.name| >= 0x1_0000 {
        return None;
      }
      EntriesAppend(raws[..i], raw);
      assert raws[..i + 1] == raws[..i] + [raw];
      bytes := bytes + RawBytes(raw);
      if |bytes| > MAX_MANIFEST_BYTES {
        EntriesGrow(raws, i + 1);
        return None;
      }
    }
    assert raws[..|raws|] == raws;
    return Some(bytes);
  }

  lemma NoEntries()
    ensures EntriesBytes([]) == []
  {
  }

  lemma RawName(e: Entry)
    ensures ToRaw(e).name == EncodeUtf8(e.descriptor.name)
  {
  }

  lemma {:induction false} EntriesGrow(rs: seq<Raw>, k: nat)
    requires k <= |rs|
    ensures |EntriesBytes(rs[..k])| <= |EntriesBytes(rs)|
    decreases |rs| - k
  {
    if k < |rs| {
      EntriesGrow(rs, k + 1);
      EntriesAppend(rs[..k], rs[k]);
      assert rs[..k + 1] == rs[..k] + [rs[k]];
    } else {
      assert rs[..k] == rs;
    }
  }

  // ------------------------------------------------------------------ decoding

  /** One entry from the front of `b`, and how many bytes it took. */
  function ParseRaw(b: seq<Byte>): (p: Option<(Raw, nat)>)
    ensures p.Some? ==> RawOk(p.value.0) && ENTRY_FIXED_LEN <= p.value.1 <= |b|
  {
    if |b| < ENTRY_FIXED_LEN || b[28] >= 8 then None
    else
      var nameLength := FromBe(b[53..55]);
      if |b| < ENTRY_FIXED_LEN + nameLength then None
      else
        FieldWidths(b);
        Some((Raw(b[..16], FromBe(b[16..24]), FromBe(b[24..28]), b[28],
                  FromBe(b[29..37]), FromBe(b[37..45]), FromBe(b[45..53]), b[55..55 + nameLength]),
              ENTRY_FIXED_LEN + nameLength))
  }

  lemma FieldWidths(b: seq<Byte>)
    requires |b| >= ENTRY_FIXED_LEN
    ensures FromBe(b[16..24]) <= U64_MAX && FromBe(b[24..28]) < 0x1_0000_0000
    ensures FromBe(b[29..37]) <= U64_MAX && FromBe(b[37..45]) <= U64_MAX && FromBe(b[45..53]) <= U64_MAX
    ensures FromBe(b[53..55]) < 0x1_0000
  {
    Widths();
    ToFrom(b[16..24]);
    ToFrom(b[24..28]);
    ToFrom(b[29..37]);
    ToFrom(b[37..45]);
    ToFrom(b[45..53]);
    ToFrom(b[53..55]);
  }

  function Time(flags: nat, weight: nat, bits: nat): Option<nat>
    requires weight > 0
  {
    if flags / weight % 2 == 1 then Some(bits) else None
  }

  /** The entry a raw entry stands for; its name must be UTF-8. */
  function Clean(r: Raw): Option<Entry> {
    var name := DecodeUtf8(r.name);
    if name.None? then None
    else Some(Entry(r.fileId, Descriptor(name.value, r.size, r.attributes,
      Time(r.flags, 1, r.created), Time(r.flags, 2, r.accessed), Time(r.flags, 4, r.written))))
  }

  /** Exactly `count` entries with fresh identifiers and nothing after them. */
  function ParseEntries(b: seq<Byte>, count: nat, seen: set<Id>): Option<seq<Entry>>
    decreases count
  {
    if count == 0 then if b == [] then Some([]) else None
    else
      var first := ParseRaw(b);
      if first.None? || first.value.0.fileId in seen then None
      else
        var (raw, taken) := first.value;
        var entry := Clean(raw);
        var rest := ParseEntries(b[taken..], count - 1, seen + {raw.fileId});
        if entry.None? || rest.None? then None else Some([entry.value] + rest.value)
  }

  /** `decode_manifest_response`. */
  ghost function Decode(lower: LowerCase, b: seq<Byte>): Option<Offer> {
    if |b| < HEADER_LEN || b[0] != 0 then None
    else
      var ttl, count := FromBe(b[17..25]), FromBe(b[25..29]);
      if ttl == 0 || count == 0 || count > MAX_VIRTUAL_ITEMS then None
      else if |b| < HEADER_LEN + count * ENTRY_FIXED_LEN || |b| > MAX_MANIFEST_BYTES then None
      else
        var entries := ParseEntries(b[HEADER_LEN..], count, {});
        if entries.None? || !TreeAccepted(lower, Descriptors(entries.value)) then None
        else Some(Offer(b[1..17], ttl, entries.value))
  }

  function Prepend(done: seq<Entry>, rest: Option<seq<Entry>>): Option<seq<Entry>> {
    if rest.None? then None else Some(done + rest.value)
  }

  /** The client's cursor loop. */
  method DecodeResponse(lower: LowerCase, response: seq<Byte>) returns (offer: Option<Offer>)
    ensures offer == Decode(lower, response)
  {
    if response == [] || response[0] != 0 || |response| < HEADER_LEN {
      return None;
    }
    var ttl := FromBe(response[17..25]);
    if ttl == 0 {
      return None;
    }
    var count := FromBe(response[25..29]);
    if count == 0 || count > MAX_VIRTUAL_ITEMS {
      return None;
    }
    if |response| < HEADER_LEN + count * ENTRY_FIXED_LEN || |response| > MAX_MANIFEST_BYTES {
      return None;
    }
    var entries := DecodeEntries(response, count);
    if entries.None? {
      return None;
    }
    var verdict := ValidateTree(lower, Descriptors(entries.value));
    return if verdict == Accepted then Some(Offer(response[1..17], ttl, entries.value)) else None;
  }

  /** What one pass of the loop does to the entries still to be parsed. */
  lemma ParseOne(done: seq<Entry>, rest: seq<Byte>, count: nat, seen: set<Id>)
    requires count > 0
    ensures var goal := Prepend(done, ParseEntries(rest, count, seen));
      if ParseRaw(rest).None? || ParseRaw(rest).value.0.fileId in seen || Clean(ParseRaw(rest).value.0).None? then goal == None
      else
        var (raw, taken) := ParseRaw(rest).value;
        goal == Prepend(done + [Clean(raw).value], ParseEntries(rest[taken..], count - 1, seen + {raw.fileId}))
  {
    if ParseRaw(rest).Some? {
      var (raw, taken) := ParseRaw(rest).value;
      var entry, tail := Clean(raw), ParseEntries(rest[taken..], count - 1, seen + {raw.fileId});
      hide ParseRaw, Clean;
      if entry.Some? && tail.Some? {
        assert done + ([entry.value] + tail.value) == (done + [entry.value]) + tail.value;
      }
    }
  }

  method DecodeEntries(response: seq<Byte>, count: nat) returns (entries: Option<seq<Entry>>)
    requires |response| >= HEADER_LEN
    ensures entries == ParseEntries(response[HEADER_LEN..], count, {})
  {
    hide ParseEntries, ParseRaw, Clean;
    var cursor := HEADER_LEN;
    var done: seq<Entry> := [];
    var identifiers: set<Id> := {};
    ghost var goal := ParseEntries(response[HEADER_LEN..], count, {});
    assert goal.Some? ==> [] + goal.value == goal.value;
    for i := 0 to count
      invariant HEADER_LEN <= cursor <= |response|
      invariant goal == Prepend(done, ParseEntries(response[cursor..], count - i, identifiers))
    {
      ParseOne(done, response[cursor..], count - i, identifiers);
      var parsed := ParseRaw(response[cursor..]);
      if parsed.None? || parsed.value.0.fileId in identifiers {
        return None;
      }
      var raw := parsed.value.0;
      var entry := Clean(raw);
      if entry.None? {
        return None;
      }
      assert response[cursor..][parsed.value.1..] == response[cursor + parsed.value.1..];
      identifiers := identifiers + {raw.fileId};
      done := done + [entry.value];
      cursor := cursor + parsed.value.1;
    }
    ParseNone(response[cursor..], identifiers);
    if cursor != |response| {
      return None;
    }
    assert done + [] == done;
    return Some(done);
  }

  lemma ParseNone(b: seq<Byte>, seen: set<Id>)
    ensures ParseEntries(b, 0, seen) == if b == [] then Some([]) else None
  {
  }

  // ---------------------------------------------------------------- round trips

  lemma ParseEncoded(r: Raw, rest: seq<Byte>)
    requires RawOk(r)
    ensures ParseRaw(RawBytes(r) + rest) == Some((r, |RawBytes(r)|))
  {
    Widths();
    hide ToBe, FromBe, Pow256;
    FromTo(r.size, 8);
    FromTo(r.attributes, 4);
    FromTo(r.created, 8);
    FromTo(r.accessed, 8);
    FromTo(r.written, 8);
    FromTo(|r.name|, 2);
    RawSlices(r, rest);
    RawLength(r);
    hide RawBytes;
  }

  lemma RawLength(r: Raw)
    ensures |RawBytes(r)| == ENTRY_FIXED_LEN + |r.name|
  {
  }

  lemma RawSlices(r: Raw, rest: seq<Byte>)
    requires RawOk(r)
    ensures var b := RawBytes(r) + rest;
      && |b| == ENTRY_FIXED_LEN + |r.name| + |rest|
      && b[..16] == r.fileId && b[16..24] == ToBe(r.size, 8) && b[24..28] == ToBe(r.attributes, 4) && b[28] == r.flags
      && b[29..37] == ToBe(r.created, 8) && b[37..45] == ToBe(r.accessed, 8) && b[45..53] == ToBe(r.written, 8)
      && b[53..55] == ToBe(|r.name|, 2) && b[55..55 + |r.name|] == r.name
  {
    hide ToBe, RawOk;
  }

  lemma EncodeParsed(b: seq<Byte>)
    requires ParseRaw(b).Some?
    ensures RawBytes(ParseRaw(b).value.0) == b[..ParseRaw(b).value.1]
  {
    hide ToBe, FromBe;
    var (r, taken) := ParseRaw(b).value;
    ToFrom(b[16..24]);
    ToFrom(b[24..28]);
    ToFrom(b[29..37]);
    ToFrom(b[37..45]);
    ToFrom(b[45..53]);
    ToFrom(b[53..55]);
    Glue(b, 16, 24);
    Glue(b, 24, 28);
    Glue(b, 28, 29);
    Glue(b, 29, 37);
    Glue(b, 37, 45);
    Glue(b, 45, 53);
    Glue(b, 53, 55);
    Glue(b, 55, taken);
    assert b[28..29] == [b[28]];
  }

  lemma CleanOfRaw(e: Entry)
    requires Typed(e.descriptor) && |EncodeUtf8(e.descriptor.name)| < 0x1_0000
    ensures RawOk(ToRaw(e)) && Clean(ToRaw(e)) == Some(e)
  {
    DecodeEncoded(e.descriptor.name);
  }

  /** Parsing the encoding of one clean entry takes it off the front. */
  lemma ParseOneEncoded(e: Entry, tail: seq<Byte>, count: nat, seen: set<Id>)
    requires count > 0 && e.fileId !in seen && RawOk(ToRaw(e)) && Clean(ToRaw(e)) == Some(e)
    requires ParseEntries(tail, count - 1, seen + {e.fileId}).Some?
    ensures ParseEntries(RawBytes(ToRaw(e)) + tail, count, seen)
         == Some([e] + ParseEntries(tail, count - 1, seen + {e.fileId}).value)
  {
    var r := ToRaw(e);
    assert r.fileId == e.fileId;
    hide ToRaw, RawOk, Clean, RawBytes, ParseRaw;
    ParseEncoded(r, tail);
    assert (RawBytes(r) + tail)[|RawBytes(r)|..] == tail;
  }

  lemma {:induction false} ParseEntriesEncoded(entries: seq<Entry>, seen: set<Id>)
    requires DistinctIds(entries) && forall i | 0 <= i < |entries| :: entries[i].fileId !in seen
    requires forall i | 0 <= i < |entries| ::
      Typed(entries[i].descriptor) && |EncodeUtf8(entries[i].descriptor.name)| < 0x1_0000
    ensures ParseEntries(EntriesBytes(Raws(entries)), |entries|, seen) == Some(entries)
  {
    hide ToRaw, RawOk, Clean, RawBytes, ParseRaw, ParseEntries, EncodeUtf8, Typed, EntriesBytes;
    if entries != [] {
      var first, rest := entries[0], entries[1..];
      CleanOfRaw(first);
      assert Raws(entries) == [ToRaw(first)] + Raws(rest);
      EntriesCons(ToRaw(first), Raws(rest));
      ParseEntriesEncoded(rest, seen + {first.fileId});
      ParseOneEncoded(first, EntriesBytes(Raws(rest)), |entries|, seen);
      assert [first] + rest == entries;
    } else {
      assert Raws(entries) == [];
      NoEntries();
      ParseNone([], seen);
    }
  }

  /** Round trip: an accepted tree with fresh identifiers comes back unchanged,
      exactly when at least one whole millisecond of its lifetime is left. */
  lemma RoundTrip(lower: LowerCase, o: Offer)
    requires TreeAccepted(lower, Descriptors(o.entries)) && DistinctIds(o.entries) && o.ttl <= U64_MAX
    requires forall i | 0 <= i < |o.entries| :: Typed(o.entries[i].descriptor)
    ensures Decode(lower, OfferBytes(o)) == Some(o) <==> o.ttl > 0
  {
    var b := OfferBytes(o);
    SizeBound(lower, o);
    EntriesLength(o.entries);
    Widths();
    FromTo(o.ttl, 8);
    FromTo(|o.entries|, 4);
    HeaderSlices(o);
    ParseEntriesEncoded(o.entries, {});
    hide TreeAccepted, EntriesBytes, Header, ParseEntries;
  }

  lemma HeaderSlices(o: Offer)
    ensures var b := OfferBytes(o);
      && b[0] == 0 && b[1..17] == o.id && b[17..25] == ToBe(o.ttl, 8) && b[25..29] == ToBe(|o.entries|, 4)
      && b[HEADER_LEN..] == EntriesBytes(Raws(o.entries))
  {
    hide ToBe, EntriesBytes;
  }

  /** Which wire forms are the ones the encoder writes: an absent time is zero. */
  predicate AbsentTimesZero(r: Raw) {
    && (r.flags % 2 == 0 ==> r.created == 0)
    && (r.flags / 2 % 2 == 0 ==> r.accessed == 0)
    && (r.flags / 4 % 2 == 0 ==> r.written == 0)
  }

  lemma TimeField(flags: Flags, weight: nat, bits: nat)
    requires weight in {1, 2, 4}
    ensures Flag(Time(flags, weight, bits), weight) == flags / weight % 2 * weight
    ensures Bits(Time(flags, weight, bits)) == bits <==> (flags / weight % 2 == 0 ==> bits == 0)
  {
  }

  lemma FlagsSum(flags: Flags)
    ensures flags == flags % 2 + flags / 2 % 2 * 2 + flags / 4 % 2 * 4
  {
  }

  lemma RawOfClean(r: Raw)
    requires Clean(r).Some?
    ensures ToRaw(Clean(r).value) == r <==> AbsentTimesZero(r)
  {
    EncodeDecoded(r.name);
    TimeField(r.flags, 1, r.created);
    TimeField(r.flags, 2, r.accessed);
    TimeField(r.flags, 4, r.written);
    FlagsSum(r.flags);
    hide EncodeUtf8, DecodeUtf8, Flag, Bits, Time;
  }

  /** The raw entries behind an accepted input. */
  function RawEntries(b: seq<Byte>, count: nat): seq<Raw>
    decreases count
  {
    if count == 0 || ParseRaw(b).None? then []
    else [ParseRaw(b).value.0] + RawEntries(b[ParseRaw(b).value.1..], count - 1)
  }

  lemma ParsedSplit(b: seq<Byte>, count: nat, seen: set<Id>)
    requires count > 0 && ParseEntries(b, count, seen).Some?
    ensures ParseRaw(b).Some?
    ensures var (raw, taken) := ParseRaw(b).value; var rest := ParseEntries(b[taken..], count - 1, seen + {raw.fileId});
      && raw.fileId !in seen && Clean(raw).Some? && rest.Some?
      && ParseEntries(b, count, seen).value == [Clean(raw).value] + rest.value
      && RawEntries(b, count) == [raw] + RawEntries(b[taken..], count - 1)
      && RawOk(raw) && b == RawBytes(raw) + b[taken..] && Clean(raw).value.fileId == raw.fileId
  {
    EncodeParsed(b);
    hide RawBytes, RawOk;
    var taken := ParseRaw(b).value.1;
    assert b == b[..taken] + b[taken..];
  }

  lemma EntriesCons(raw: Raw, rest: seq<Raw>)
    ensures EntriesBytes([raw] + rest) == RawBytes(raw) + EntriesBytes(rest)
  {
    assert ([raw] + rest)[1..] == rest;
  }

  lemma NoRaws(b: seq<Byte>)
    ensures RawEntries(b, 0) == []
  {
  }

  lemma {:induction false} ParsedEntries(b: seq<Byte>, count: nat, seen: set<Id>)
    requires ParseEntries(b, count, seen).Some?
    ensures var entries := ParseEntries(b, count, seen).value; var raws := RawEntries(b, count);
      && |entries| == |raws| == count
      && (forall i | 0 <= i < count :: RawOk(raws[i]) && Clean(raws[i]) == Some(entries[i]))
      && EntriesBytes(raws) == b
      && DistinctIds(entries) && (forall i | 0 <= i < count :: entries[i].fileId !in seen)
    decreases count
  {
    hide ParseEntries, ParseRaw, RawEntries, EntriesBytes, RawBytes, Clean, RawOk;
    if count > 0 {
      ParsedSplit(b, count, seen);
      var (raw, taken) := ParseRaw(b).value;
      ParsedEntries(b[taken..], count - 1, seen + {raw.fileId});
      EntriesCons(raw, RawEntries(b[taken..], count - 1));
    } else {
      ParseNone(b, seen);
      NoEntries();
      NoRaws(b);
    }
  }

  lemma DecodeParts(lower: LowerCase, b: seq<Byte>)
    requires Decode(lower, b).Some?
    ensures var o := Decode(lower, b).value; var count := FromBe(b[25..29]);
      && |b| >= HEADER_LEN && b[0] == 0 && o.id == b[1..17] && o.ttl == FromBe(b[17..25]) && o.ttl > 0
      && ParseEntries(b[HEADER_LEN..], count, {}) == Some(o.entries)
      && TreeAccepted(lower, Descriptors(o.entries))
  {
    hide TreeAccepted, ParseEntries, FromBe;
  }

  /** Whatever the client accepts is a valid tree with distinct identifiers and a
      non-zero lifetime, it was consumed to the last byte, and every entry is
      the reading of one wire entry. */
  lemma {:induction false} DecodeMeaning(lower: LowerCase, b: seq<Byte>)
    requires Decode(lower, b).Some?
    ensures var o := Decode(lower, b).value; var raws := RawEntries(b[HEADER_LEN..], |o.entries|);
      && TreeAccepted(lower, Descriptors(o.entries)) && DistinctIds(o.entries) && 0 < o.ttl <= U64_MAX
      && |raws| == |o.entries|
      && (forall i | 0 <= i < |raws| :: RawOk(raws[i]) && Clean(raws[i]) == Some(o.entries[i]))
      && b == Header(o.id, o.ttl, |o.entries|) + EntriesBytes(raws)
  {
    hide Decode, ToBe, FromBe, EntriesBytes, TreeAccepted, ParseEntries, RawEntries, RawOk, Clean, Pow256, Header, DistinctIds;
    DecodeParts(lower, b);
    ParsedEntries(b[HEADER_LEN..], FromBe(b[25..29]), {});
    HeaderOf(b);
    assert b == b[..HEADER_LEN] + b[HEADER_LEN..];
  }

  lemma HeaderOf(b: seq<Byte>)
    requires |b| >= HEADER_LEN && b[0] == 0
    ensures b[..HEADER_LEN] == Header(b[1..17], FromBe(b[17..25]), FromBe(b[25..29]))
    ensures FromBe(b[17..25]) <= U64_MAX
  {
    Widths();
    hide ToBe, FromBe, Pow256;
    ToFrom(b[17..25]);
    ToFrom(b[25..29]);
    Glue(b, 1, 17);
    Glue(b, 17, 25);
    Glue(b, 25, HEADER_LEN);
  }

  lemma {:induction false} EntriesBytesInjective(a: seq<Raw>, b: seq<Raw>)
    requires |a| == |b| && forall i | 0 <= i < |a| :: RawOk(a[i]) && RawOk(b[i])
    requires EntriesBytes(a) == EntriesBytes(b)
    ensures a == b
  {
    if a != [] {
      ParseEncoded(a[0], EntriesBytes(a[1..]));
      ParseEncoded(b[0], EntriesBytes(b[1..]));
      assert a[0] == b[0];
      var k := |RawBytes(a[0])|;
      assert EntriesBytes(a)[k..] == EntriesBytes(a[1..]) && EntriesBytes(b)[k..] == EntriesBytes(b[1..]);
      EntriesBytesInjective(a[1..], b[1..]);
      assert a == [a[0]] + a[1..] && b == [b[0]] + b[1..];
    }
  }

  lemma HeadersAgree(h: seq<Byte>, a: seq<Raw>, b: seq<Raw>)
    requires |a| == |b| && forall i | 0 <= i < |a| :: RawOk(a[i]) && RawOk(b[i])
    ensures h + EntriesBytes(a) == h + EntriesBytes(b) <==> a == b
  {
    if h + EntriesBytes(a) == h + EntriesBytes(b) {
      assert (h + EntriesBytes(a))[|h|..] == EntriesBytes(a) && (h + EntriesBytes(b))[|h|..] == EntriesBytes(b);
      EntriesBytesInjective(a, b);
    }
  }

  lemma RawsOfClean(raws: seq<Raw>, entries: seq<Entry>)
    requires |raws| == |entries| && forall i | 0 <= i < |raws| :: RawOk(raws[i]) && Clean(raws[i]) == Some(entries[i])
    ensures forall i | 0 <= i < |raws| :: RawOk(Raws(entries)[i])
    ensures Raws(entries) == raws <==> forall r | r in raws :: AbsentTimesZero(r)
  {
    var again := Raws(entries);
    forall i | 0 <= i < |raws| ensures RawOk(again[i]) && (again[i] == raws[i] <==> AbsentTimesZero(raws[i])) {
      RawOfClean(raws[i]);
      EncodeDecoded(raws[i].name);
    }
    hide RawOk, AbsentTimesZero, Clean, ToRaw;
    if forall r | r in raws :: AbsentTimesZero(r) {
      assert again == raws;
    }
  }

  /** Encoding what was decoded gives the input back exactly when every absent
      time was written as zero. */
  lemma {:induction false} Canonical(lower: LowerCase, b: seq<Byte>)
    requires Decode(lower, b).Some?
    ensures var o := Decode(lower, b).value;
      OfferBytes(o) == b <==> forall r | r in RawEntries(b[HEADER_LEN..], |o.entries|) :: AbsentTimesZero(r)
  {
    hide Decode, RawEntries, Clean, RawOk, AbsentTimesZero, TreeAccepted, ToRaw, EntriesBytes, Header, Raws;
    var o := Decode(lower, b).value;
    DecodeParts(lower, b);
    DecodeMeaning(lower, b);
    var raws := RawEntries(b[HEADER_LEN..], |o.entries|);
    RawsOfClean(raws, o.entries);
    HeadersAgree(Header(o.id, o.ttl, |o.entries|), Raws(o.entries), raws);
  }
}
