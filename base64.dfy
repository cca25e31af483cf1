/** The transport encoding of src/crypto/crypto.ts: `btoa` (the base64
    encoding of section 4 of RFC 4648, with `=` padding), `atob` (the
    forgiving base64 decode of the WHATWG HTML standard, which drops ASCII
    whitespace, accepts missing padding and fails on anything else), and
    the two loops `toBase64` and `fromBase64` that move between bytes and
    the Latin-1 "binary strings" those functions work on. */
module Base64 {
  import opened Wrappers

  /** An octet, as held by a `Uint8Array`. */
  type Byte = x: int | 0 <= x < 256

  /** A six-bit value, one base64 digit. */
  type Sextet = x: int | 0 <= x < 64

  // ---------------------------------------------------------------------
  // The alphabet (RFC 4648, section 4, table 1)
  // ---------------------------------------------------------------------

  /** The base64 digit for a six-bit value. */
  function DigitOf(v: Sextet): (c: char)
    ensures IsDigit64(c) && ValueOf(c) == v
  {
    if v < 26 then ('A' as int + v) as char
    else if v < 52 then ('a' as int + v - 26) as char
    else if v < 62 then ('0' as int + v - 52) as char
    else if v == 62 then '+'
    else '/'
  }

  /** `c` is a base64 digit (not the pad character). */
  predicate IsDigit64(c: char) {
    ('A' <= c <= 'Z') || ('a' <= c <= 'z') || ('0' <= c <= '9') || c == '+' || c == '/'
  }

  /** The six-bit value of a base64 digit. */
  function ValueOf(c: char): (v: Sextet)
    requires IsDigit64(c)
  {
    if 'A' <= c <= 'Z' then c as int - 'A' as int
    else if 'a' <= c <= 'z' then c as int - 'a' as int + 26
    else if '0' <= c <= '9' then c as int - '0' as int + 52
    else if c == '+' then 62
    else 63
  }

  /** Every base64 digit is the digit of its value. */
  lemma DigitOfValue(c: char)
    requires IsDigit64(c)
    ensures DigitOf(ValueOf(c)) == c
  {
  }

  predicate AllDigits64(s: string) {
    forall i :: 0 <= i < |s| ==> IsDigit64(s[i])
  }

  // ---------------------------------------------------------------------
  // Encoding (`btoa`)
  // ---------------------------------------------------------------------

  /** The six-bit values of `b` (RFC 4648, section 4): each group of
      three octets gives four values, a final group of one octet two values
      and a final group of two octets three; unused low bits are zero. */
  function SextetsOfOctets(b: seq<Byte>): (v: seq<Sextet>)
    ensures |v| % 4 == (if |b| % 3 == 0 then 0 else |b| % 3 + 1)
    ensures |b| < 3 ==> |v| == (if |b| == 0 then 0 else |b| + 1)
    decreases |b|
  {
    if |b| == 0 then []
    else if |b| == 1 then [High(b[0]), Second(b[0], 0)]
    else if |b| == 2 then [High(b[0]), Second(b[0], b[1]), Third(b[1], 0)]
    else
      var rest := SextetsOfOctets(b[3..]);
      GroupShift(|b| - 3, |rest|);
      [High(b[0]), Second(b[0], b[1]), Third(b[1], b[2]), Low(b[2])] + rest
  }

  /** One more group of three octets adds one group of four values. */
  lemma GroupShift(n: nat, m: nat)
    ensures (n + 3) % 3 == n % 3 && (m + 4) % 4 == m % 4
  {
  }

  /** The four six-bit values of three octets `x`, `y`, `z`. */
  function High(x: Byte): Sextet { x / 4 }
  function Second(x: Byte, y: Byte): Sextet { (x % 4) * 16 + y / 16 }
  function Third(y: Byte, z: Byte): Sextet { (y % 16) * 4 + z / 64 }
  function Low(z: Byte): Sextet { z % 64 }

  /** The digits of six-bit values. */
  function Digits(v: seq<Sextet>): (r: string)
    ensures |r| == |v| && AllDigits64(r)
  {
    seq(|v|, i requires 0 <= i < |v| => DigitOf(v[i]))
  }

  /** The base64 encoding of `b` without padding. */
  function EncodeUnpadded(b: seq<Byte>): (r: string)
    ensures AllDigits64(r)
    ensures |r| % 4 == (if |b| % 3 == 0 then 0 else |b| % 3 + 1)
  {
    Digits(SextetsOfOctets(b))
  }

  /** The `=` characters that fill the last quantum to four characters. */
  function Padding(n: nat): (r: string)
    ensures |r| == (if n % 3 == 0 then 0 else 3 - n % 3)
    ensures forall i :: 0 <= i < |r| ==> r[i] == '='
  {
    if n % 3 == 1 then "==" else if n % 3 == 2 then "=" else ""
  }

  /** Base64 encoding with padding, as `btoa` produces. */
  function Encode(b: seq<Byte>): (r: string)
    ensures |r| % 4 == 0
    ensures forall i :: 0 <= i < |r| ==> IsDigit64(r[i]) || r[i] == '='
  {
    var u := EncodeUnpadded(b);
    FillQuantum(|u|, |b| % 3);
    u + Padding(|b|)
  }

  /** The padding completes the last quantum of four characters. */
  lemma FillQuantum(u: nat, k: nat)
    requires k < 3 && u % 4 == (if k == 0 then 0 else k + 1)
    ensures (u + (if k == 0 then 0 else 3 - k)) % 4 == 0
  {
  }

  // ---------------------------------------------------------------------
  // Decoding (`atob`)
  // ---------------------------------------------------------------------

  /** ASCII whitespace in the sense of the WHATWG Infra standard: TAB, LF,
      FF, CR and SPACE. */
  predicate IsAsciiWs(c: char) {
    c == '\t' || c == '\n' || c == '\U{000C}' || c == '\r' || c == ' '
  }

  /** `s` with every ASCII whitespace character removed. */
  function StripAsciiWs(s: string): (r: string)
    ensures |r| <= |s|
    ensures forall i :: 0 <= i < |r| ==> !IsAsciiWs(r[i])
    decreases |s|
  {
    if |s| == 0 then ""
    else if IsAsciiWs(s[0]) then StripAsciiWs(s[1..])
    else [s[0]] + StripAsciiWs(s[1..])
  }

  /** The data left once one or two final `=` are dropped from a string
      whose length is a multiple of four. */
  function DropPadding(t: string): (u: string)
    ensures |u| <= |t|
  {
    if |t| % 4 == 0 && |t| >= 2 && t[|t| - 2..] == "==" then t[..|t| - 2]
    else if |t| % 4 == 0 && |t| >= 1 && t[|t| - 1] == '=' then t[..|t| - 1]
    else t
  }

  /** The six-bit values of a string of base64 digits. */
  function Sextets(u: string): (v: seq<Sextet>)
    requires AllDigits64(u)
    ensures |v| == |u|
  {
    seq(|u|, i requires 0 <= i < |u| => ValueOf(u[i]))
  }

  /** Octets from six-bit values: four values give three octets, a final
      three give two and a final two give one, discarding the leftover
      low bits. */
  function OctetsOf(v: seq<Sextet>): (b: seq<Byte>)
    requires |v| % 4 != 1
    decreases |v|
  {
    if |v| == 0 then []
    else if |v| == 2 then [First(v[0], v[1])]
    else if |v| == 3 then [First(v[0], v[1]), Middle(v[1], v[2])]
    else [First(v[0], v[1]), Middle(v[1], v[2]), Last(v[2], v[3])] + OctetsOf(v[4..])
  }

  /** The three octets of four six-bit values `a`, `b`, `c`, `d`. */
  function First(a: Sextet, b: Sextet): Byte { a * 4 + b / 16 }
  function Middle(b: Sextet, c: Sextet): Byte { (b % 16) * 16 + c / 4 }
  function Last(c: Sextet, d: Sextet): Byte { (c % 4) * 64 + d }

  /** The forgiving base64 decode: `None` is the `InvalidCharacterError`
      that `atob` throws. */
  function Decode(s: string): (r: Option<seq<Byte>>)
    ensures r.None? <==>
      |DropPadding(StripAsciiWs(s))| % 4 == 1 || !AllDigits64(DropPadding(StripAsciiWs(s)))
  {
    var u := DropPadding(StripAsciiWs(s));
    if |u| % 4 == 1 || !AllDigits64(u) then None
    else Some(OctetsOf(Sextets(u)))
  }

  // ---------------------------------------------------------------------
  // Binary strings
  // ---------------------------------------------------------------------

  /** The Latin-1 string whose character codes are the octets. */
  function Latin1(b: seq<Byte>): (s: string)
    ensures |s| == |b|
    ensures forall i :: 0 <= i < |b| ==> s[i] as int == b[i]
  {
    seq(|b|, i requires 0 <= i < |b| => b[i] as char)
  }

  /** Every character code is below 256. */
  predicate IsBinary(s: string) {
    forall i :: 0 <= i < |s| ==> s[i] as int < 256
  }

  /** The octets of a binary string. */
  function Codes(s: string): (b: seq<Byte>)
    requires IsBinary(s)
    ensures |b| == |s|
    ensures forall i :: 0 <= i < |s| ==> b[i] == s[i] as int
  {
    seq(|s|, i requires 0 <= i < |s| => s[i] as int)
  }

  /** `btoa(s)`: fails on a character above U+00FF. */
  function Btoa(s: string): (r: Option<string>)
    ensures r.Some? <==> IsBinary(s)
  {
    if IsBinary(s) then Some(Encode(Codes(s))) else None
  }

  /** `atob(s)`: a binary string, or failure. */
  function Atob(s: string): (r: Option<string>)
    ensures r.Some? ==> IsBinary(r.value)
    ensures r.None? <==> Decode(s).None?
  {
    match Decode(s)
    case Some(b) => Some(Latin1(b))
    case None => None
  }

  // ---------------------------------------------------------------------
  // The loops of `toBase64` and `fromBase64`
  // ---------------------------------------------------------------------

  /** `toBase64` (lines 5-11): the bytes, one Latin-1 character each, then
      `btoa`. */
  method ToBase64(bytes: array<Byte>) returns (r: string)
    ensures r == Encode(bytes[..])
  {
    var binary := "";
    for i := 0 to bytes.Length
      invariant binary == Latin1(bytes[..i])
    {
      binary := binary + [bytes[i] as char];
    }
    assert bytes[..] == bytes[..bytes.Length];
    assert Codes(binary) == bytes[..];
    var encoded := Btoa(binary);
    r := encoded.value;
  }

  /** `fromBase64` (lines 13-20): `atob`, then one byte per character of
      the binary string, written into a fresh array. `None` is the
      exception `atob` throws. */
  method FromBase64(base64: string) returns (r: Option<seq<Byte>>)
    ensures r == Decode(base64)
  {
    var binary := Atob(base64);
    if binary.None? {
      return None;
    }
    var text := binary.value;
    var bytes := new Byte[|text|](_ => 0);
    for i := 0 to |text|
      invariant forall j :: 0 <= j < i ==> bytes[j] == text[j] as int
    {
      bytes[i] := text[i] as int;
    }
    assert bytes[..] == Decode(base64).value;
    r := Some(bytes[..]);
  }

  // ---------------------------------------------------------------------
  // Round trip
  // ---------------------------------------------------------------------

  /** Reading digits back gives their values. */
  lemma SextetsOfDigits(v: seq<Sextet>)
    ensures Sextets(Digits(v)) == v
  {
  }

  /** Each octet of a group is read back from the six-bit values it was
      spread over, whatever the neighbouring octets are. */
  lemma FirstOctetBack(x: Byte, y: Byte)
    ensures First(High(x), Second(x, y)) == x
  {
    assert Second(x, y) == (x % 4) * 16 + y / 16;
    assert Second(x, y) / 16 == x % 4;
    assert (x / 4) * 4 + x % 4 == x;
  }

  lemma MiddleOctetBack(x: Byte, y: Byte, z: Byte)
    ensures Middle(Second(x, y), Third(y, z)) == y
  {
    var hi, lo := y / 16, y % 16;
    assert Second(x, y) == (x % 4) * 16 + hi;
    assert Second(x, y) % 16 == hi;
    assert Third(y, z) == lo * 4 + z / 64;
    assert Third(y, z) / 4 == lo;
  }

  lemma LastOctetBack(y: Byte, z: Byte)
    ensures Last(Third(y, z), Low(z)) == z
  {
    var hi, lo := z / 64, z % 64;
    assert Third(y, z) == (y % 16) * 4 + hi;
    assert Third(y, z) % 4 == hi;
    assert hi * 64 + lo == z;
  }

  /** Decoding the six-bit values of `b` gives back `b`. */
  lemma {:induction false} OctetsOfSextets(b: seq<Byte>)
    ensures |SextetsOfOctets(b)| % 4 != 1
    ensures OctetsOf(SextetsOfOctets(b)) == b
    decreases |b|
  {
    if |b| >= 3 {
      OctetsOfSextets(b[3..]);
      GroupStep(b);
      SplitOffGroup(b);
    } else if |b| == 2 {
      FirstOctetBack(b[0], b[1]);
      MiddleOctetBack(b[0], b[1], 0);
    } else if |b| == 1 {
      FirstOctetBack(b[0], 0);
    }
  }

  /** One step of the induction above: a full group at the front. */
  lemma GroupStep(b: seq<Byte>)
    requires |b| >= 3
    ensures |SextetsOfOctets(b[3..])| % 4 != 1
    ensures OctetsOf(SextetsOfOctets(b)) == [b[0], b[1], b[2]] + OctetsOf(SextetsOfOctets(b[3..]))
  {
    var x, y, z := b[0], b[1], b[2];
    var w := SextetsOfOctets(b[3..]);
    var v := SextetsOfOctets(b);
    assert v == [High(x), Second(x, y), Third(y, z), Low(z)] + w;
    assert v[4..] == w;
    FirstOctetBack(x, y);
    MiddleOctetBack(x, y, z);
    LastOctetBack(y, z);
    assert [First(v[0], v[1]), Middle(v[1], v[2]), Last(v[2], v[3])] == [x, y, z];
  }

  lemma SplitOffGroup(b: seq<Byte>)
    requires |b| >= 3
    ensures b == [b[0], b[1], b[2]] + b[3..]
  {
  }

  /** No character of an encoding is ASCII whitespace. */
  lemma StripEncoded(s: string)
    requires forall i :: 0 <= i < |s| ==> IsDigit64(s[i]) || s[i] == '='
    ensures StripAsciiWs(s) == s
    decreases |s|
  {
    if |s| > 0 {
      StripEncoded(s[1..]);
      assert [s[0]] + s[1..] == s;
    }
  }

  /** Dropping the padding of an encoding leaves its digits. */
  lemma DropEncodedPadding(b: seq<Byte>)
    ensures DropPadding(Encode(b)) == EncodeUnpadded(b)
  {
    var e := EncodeUnpadded(b);
    var t := Encode(b);
    if |b| % 3 == 0 {
      if |e| >= 1 {
        assert t[|t| - 1] == e[|e| - 1];
      }
      assert t == e;
    } else if |b| % 3 == 1 {
      assert t[|t| - 2..] == "==";
      assert t[..|t| - 2] == e;
    } else {
      assert t[|t| - 1] == '=';
      assert |t| < 2 || t[|t| - 2..] != "==" by {
        assert |t| >= 2 ==> t[|t| - 2] == e[|e| - 1];
      }
      assert t[..|t| - 1] == e;
    }
  }

  /** `atob(btoa(b)) == b`: decoding an encoding gives back the octets. */
  lemma DecodeEncode(b: seq<Byte>)
    ensures Decode(Encode(b)) == Some(b)
  {
    StripEncoded(Encode(b));
    DropEncodedPadding(b);
    SextetsOfDigits(SextetsOfOctets(b));
    OctetsOfSextets(b);
  }

  /** A binary string read back as octets is the string's codes. */
  lemma CodesLatin1(b: seq<Byte>)
    ensures Codes(Latin1(b)) == b
  {
  }
}
