/** Fixed-width big-endian numbers and UTF-8, as the wire formats use them. */
module Bytes {
  import opened Common

  // ------------------------------------------------------------- big-endian

  function Pow256(width: nat): nat {
    if width == 0 then 1 else 256 * Pow256(width - 1)
  }

  function ToBe(n: nat, width: nat): (r: seq<Byte>)
    ensures |r| == width
  {
    if width == 0 then [] else ToBe(n / 256, width - 1) + [n % 256]
  }

  function FromBe(bytes: seq<Byte>): nat {
    if bytes == [] then 0 else 256 * FromBe(bytes[..|bytes| - 1]) + bytes[|bytes| - 1]
  }

  lemma {:induction false} FromTo(n: nat, width: nat)
    requires n < Pow256(width)
    ensures FromBe(ToBe(n, width)) == n
  {
    if width > 0 {
      FromTo(n / 256, width - 1);
      assert ToBe(n, width)[..width - 1] == ToBe(n / 256, width - 1);
    }
  }

  /** The last four bytes of a number. */
  lemma LastFour(n: nat, width: nat)
    requires width >= 4
    ensures ToBe(n, width) ==
      ToBe(n / 0x1_0000_0000, width - 4) + [n / 0x100_0000 % 256, n / 0x1_0000 % 256, n / 0x100 % 256, n % 256]
  {
    var (a, b, c) := (n / 0x100, n / 0x1_0000, n / 0x100_0000);
    assert a / 256 == b && b / 256 == c && c / 256 == n / 0x1_0000_0000;
    assert ToBe(n, width) == ToBe(a, width - 1) + [n % 256];
    assert ToBe(a, width - 1) == ToBe(b, width - 2) + [a % 256];
    assert ToBe(b, width - 2) == ToBe(c, width - 3) + [b % 256];
    assert ToBe(c, width - 3) == ToBe(n / 0x1_0000_0000, width - 4) + [c % 256];
  }

  /** Most significant byte first. */
  lemma BigEndian(n: nat)
    ensures ToBe(n, 2) == [n / 0x100 % 256, n % 256]
    ensures ToBe(n, 4) == [n / 0x100_0000 % 256, n / 0x1_0000 % 256, n / 0x100 % 256, n % 256]
    ensures ToBe(n, 8) == ToBe(n / 0x1_0000_0000, 4) + ToBe(n, 4)
  {
    LastFour(n, 4);
    LastFour(n, 8);
  }

  lemma {:induction false} ToFrom(bytes: seq<Byte>)
    ensures FromBe(bytes) < Pow256(|bytes|)
    ensures ToBe(FromBe(bytes), |bytes|) == bytes
  {
    if bytes != [] {
      var init, last := bytes[..|bytes| - 1], bytes[|bytes| - 1];
      ToFrom(init);
      assert FromBe(bytes) / 256 == FromBe(init) && FromBe(bytes) % 256 == last;
    }
  }

  lemma Widths()
    ensures Pow256(2) == 0x1_0000 && Pow256(4) == 0x1_0000_0000 && Pow256(8) == U64_MAX + 1
  {
    assert Pow256(1) == 256 && Pow256(2) == 0x1_0000 && Pow256(3) == 0x100_0000 && Pow256(4) == 0x1_0000_0000;
    assert Pow256(5) == 0x100_0000_0000 && Pow256(6) == 0x1_0000_0000_0000 && Pow256(7) == 0x100_0000_0000_0000;
  }

  /** A field of `b` is the big-endian form of its value. */
  lemma Field(b: seq<Byte>, i: nat, j: nat)
    requires i <= j <= |b|
    ensures FromBe(b[i..j]) < Pow256(j - i) && ToBe(FromBe(b[i..j]), j - i) == b[i..j]
  {
    ToFrom(b[i..j]);
  }

  lemma Glue(b: seq<Byte>, i: nat, j: nat)
    requires i <= j <= |b|
    ensures b[..j] == b[..i] + b[i..j]
  {
  }

  // ----------------------------------------------------------- little-endian

  function ToLe(n: nat, width: nat): (r: seq<Byte>)
    ensures |r| == width
  {
    if width == 0 then [] else [n % 256] + ToLe(n / 256, width - 1)
  }

  function FromLe(bytes: seq<Byte>): nat {
    if bytes == [] then 0 else bytes[0] + 256 * FromLe(bytes[1..])
  }

  /** Least significant byte first. */
  lemma LittleEndian(n: nat)
    ensures ToLe(n, 2) == [n % 256, n / 0x100 % 256]
    ensures ToLe(n, 4) == [n % 256, n / 0x100 % 256, n / 0x1_0000 % 256, n / 0x100_0000 % 256]
  {
    var (a, b, c) := (n / 0x100, n / 0x1_0000, n / 0x100_0000);
    assert a / 256 == b && b / 256 == c;
    assert ToLe(c, 1) == [c % 256] + ToLe(c / 256, 0);
    assert ToLe(b, 2) == [b % 256] + ToLe(c, 1);
    assert ToLe(a, 3) == [a % 256] + ToLe(b, 2);
  }

  lemma {:induction false} FromToLe(n: nat, width: nat)
    requires n < Pow256(width)
    ensures FromLe(ToLe(n, width)) == n
  {
    if width > 0 {
      FromToLe(n / 256, width - 1);
      assert ToLe(n, width)[1..] == ToLe(n / 256, width - 1);
    }
  }

  lemma {:induction false} ToFromLe(bytes: seq<Byte>)
    ensures ToLe(FromLe(bytes), |bytes|) == bytes
  {
    if bytes != [] {
      ToFromLe(bytes[1..]);
      assert FromLe(bytes) / 256 == FromLe(bytes[1..]) && FromLe(bytes) % 256 == bytes[0];
    }
  }

  // ------------------------------------------------------------------- UTF-8

  /** UTF-16 code units of a string: two for a supplementary character. */
  function Utf16Units(s: string): nat {
    if s == [] then 0 else Units(s[0]) + Utf16Units(s[1..])
  }

  function Units(c: char): nat {
    if c as int < 0x10000 then 1 else 2
  }

  lemma {:induction false} UnitsAppend(a: string, b: string)
    ensures Utf16Units(a + b) == Utf16Units(a) + Utf16Units(b)
  {
    if a == [] {
      assert a + b == b;
    } else {
      UnitsAppend(a[1..], b);
      assert (a + b)[1..] == a[1..] + b;
    }
  }

  /** Six payload bits per continuation byte, most significant first. */
  function EncodeValue(n: nat): (r: seq<Byte>)
    requires n < 0x110000
    ensures 1 <= |r| <= 4
  {
    if n < 0x80 then [n]
    else if n < 0x800 then [0xC0 + n / 64, 0x80 + n % 64]
    else if n < 0x10000 then [0xE0 + n / 64 / 64, 0x80 + n / 64 % 64, 0x80 + n % 64]
    else [0xF0 + n / 64 / 64 / 64, 0x80 + n / 64 / 64 % 64, 0x80 + n / 64 % 64, 0x80 + n % 64]
  }

  function EncodeChar(c: char): seq<Byte> {
    EncodeValue(c as int)
  }

  function EncodeUtf8(s: string): seq<Byte> {
    if s == [] then [] else EncodeChar(s[0]) + EncodeUtf8(s[1..])
  }

  /** One example for each length, the euro sign among them. */
  lemma Utf8Examples()
    ensures EncodeValue(0x6E) == [0x6E] && EncodeValue(0xE9) == [0xC3, 0xA9]
    ensures EncodeValue(0x20AC) == [0xE2, 0x82, 0xAC] && EncodeValue(0x1F600) == [0xF0, 0x9F, 0x98, 0x80]
  {
  }

  predicate Trail(b: Byte) {
    0x80 <= b < 0xC0
  }

  function Value2(a: int, b: int): int {
    (a - 0xC0) * 64 + (b - 0x80)
  }

  function Value3(a: int, b: int, c: int): int {
    ((a - 0xE0) * 64 + (b - 0x80)) * 64 + (c - 0x80)
  }

  function Value4(a: int, b: int, c: int, d: int): int {
    (((a - 0xF0) * 64 + (b - 0x80)) * 64 + (c - 0x80)) * 64 + (d - 0x80)
  }

  /** The scalar value and length of the first well-formed sequence. Overlong
      forms, surrogates and values past U+10FFFF are ill-formed. */
  function DecodeFirst(b: seq<Byte>): (r: Option<(nat, nat)>)
    ensures r.Some? ==> 1 <= r.value.1 <= |b| && (r.value.0 < 0xD800 || 0xE000 <= r.value.0 < 0x110000)
  {
    if b == [] then None
    else if b[0] < 0x80 then Some((b[0], 1))
    else if 0xC2 <= b[0] < 0xE0 && |b| >= 2 && Trail(b[1]) then Some((Value2(b[0], b[1]), 2))
    else if 0xE0 <= b[0] < 0xF0 && |b| >= 3 && Trail(b[1]) && Trail(b[2]) then
      var n := Value3(b[0], b[1], b[2]);
      if n < 0x800 || 0xD800 <= n < 0xE000 then None else Some((n, 3))
    else if 0xF0 <= b[0] < 0xF5 && |b| >= 4 && Trail(b[1]) && Trail(b[2]) && Trail(b[3]) then
      var n := Value4(b[0], b[1], b[2], b[3]);
      if n < 0x10000 || 0x110000 <= n then None else Some((n, 4))
    else None
  }

  /** `str::from_utf8`. */
  function DecodeUtf8(b: seq<Byte>): Option<string>
    decreases |b|
  {
    if b == [] then Some("")
    else
      var first := DecodeFirst(b);
      if first.None? then None
      else
        var (n, length) := first.value;
        var rest := DecodeUtf8(b[length..]);
        if rest.None? then None else Some([n as char] + rest.value)
  }

  lemma FirstOfEncoded(n: nat, rest: seq<Byte>)
    requires n < 0xD800 || 0xE000 <= n < 0x110000
    ensures DecodeFirst(EncodeValue(n) + rest) == Some((n, |EncodeValue(n)|))
  {
    var e := EncodeValue(n);
    var b := e + rest;
    assert forall i | 0 <= i < |e| :: b[i] == e[i];
    if n < 0x80 {
    } else if n < 0x800 {
      assert Value2(e[0], e[1]) == n;
    } else if n < 0x10000 {
      assert Value3(e[0], e[1], e[2]) == n;
    } else {
      assert Value4(e[0], e[1], e[2], e[3]) == n;
    }
  }

  lemma Digits(n: nat, m: nat, r: nat)
    requires r < 64 && n == 64 * m + r
    ensures n / 64 == m && n % 64 == r
  {
  }

  lemma ThreeBytes(a: Byte, b: Byte, c: Byte)
    requires 0xE0 <= a < 0xF0 && Trail(b) && Trail(c) && 0x800 <= Value3(a, b, c)
    ensures Value3(a, b, c) < 0x10000 && EncodeValue(Value3(a, b, c)) == [a, b, c]
  {
    var n := Value3(a, b, c);
    var m := 64 * (a - 0xE0) + (b - 0x80);
    Digits(n, m, c - 0x80);
    Digits(m, a - 0xE0, b - 0x80);
  }

  lemma FourBytes(a: Byte, b: Byte, c: Byte, d: Byte)
    requires 0xF0 <= a < 0xF5 && Trail(b) && Trail(c) && Trail(d) && 0x10000 <= Value4(a, b, c, d) < 0x110000
    ensures EncodeValue(Value4(a, b, c, d)) == [a, b, c, d]
  {
    var n := Value4(a, b, c, d);
    var k := 64 * (a - 0xF0) + (b - 0x80);
    var m := 64 * k + (c - 0x80);
    Digits(n, m, d - 0x80);
    Digits(m, k, c - 0x80);
    Digits(k, a - 0xF0, b - 0x80);
  }

  lemma EncodedOfFirst(b: seq<Byte>)
    requires DecodeFirst(b).Some?
    ensures var (n, length) := DecodeFirst(b).value; EncodeValue(n) == b[..length]
  {
    var (n, length) := DecodeFirst(b).value;
    if length == 4 {
      FourBytes(b[0], b[1], b[2], b[3]);
    } else if length == 3 {
      ThreeBytes(b[0], b[1], b[2]);
    }
    hide Value3, Value4;
  }

  lemma {:induction false} DecodeEncoded(s: string)
    ensures DecodeUtf8(EncodeUtf8(s)) == Some(s)
  {
    if s != [] {
      var first, rest := EncodeChar(s[0]), EncodeUtf8(s[1..]);
      FirstOfEncoded(s[0] as int, rest);
      DecodeEncoded(s[1..]);
      assert (first + rest)[|first|..] == rest;
      assert first + rest != [];
      assert [s[0]] + s[1..] == s;
    }
  }

  /** Decoding accepts nothing but encodings, so encodings are unique. */
  lemma {:induction false} EncodeDecoded(b: seq<Byte>)
    requires DecodeUtf8(b).Some?
    ensures EncodeUtf8(DecodeUtf8(b).value) == b
    decreases |b|
  {
    hide DecodeFirst, EncodeValue;
    if b != [] {
      var (n, length) := DecodeFirst(b).value;
      EncodedOfFirst(b);
      EncodeDecoded(b[length..]);
      var s := DecodeUtf8(b).value;
      assert s[0] as int == n && s[1..] == DecodeUtf8(b[length..]).value;
      assert b == b[..length] + b[length..];
    }
  }

  /** Three bytes per UTF-16 unit always suffice. */
  lemma {:induction false} Utf8Bound(s: string)
    ensures |EncodeUtf8(s)| <= 3 * Utf16Units(s)
  {
    if s != [] {
      Utf8Bound(s[1..]);
    }
  }
}
