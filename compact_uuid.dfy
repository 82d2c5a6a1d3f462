/** Compact UUIDs: the 16 bytes of a UUID in the URL- and filename-safe
    base64 alphabet of section 5 of RFC 4648, with the '=' padding removed,
    which gives 22 characters. The random bytes of `uuid4` are a parameter. */
module CompactUuid {

  type Byte = x: int | 0 <= x < 256

  /** The character of a 6-bit value: A-Z, a-z, 0-9, then '-' and '_'. */
  function SextetChar(v: int): (ch: char)
    requires 0 <= v < 64
    ensures InAlphabet(ch)
  {
    if v < 26 then ('A' as int + v) as char
    else if v < 52 then ('a' as int + (v - 26)) as char
    else if v < 62 then ('0' as int + (v - 52)) as char
    else if v == 62 then '-'
    else '_'
  }

  /** The base64url alphabet. */
  predicate InAlphabet(ch: char) {
    ('A' <= ch <= 'Z') || ('a' <= ch <= 'z') || ('0' <= ch <= '9') || ch == '-' || ch == '_'
  }

  /** The 6-bit value of a character of the alphabet. */
  function CharSextet(ch: char): (v: int)
    requires InAlphabet(ch)
    ensures 0 <= v < 64 && SextetChar(v) == ch
  {
    if 'A' <= ch <= 'Z' then ch as int - 'A' as int
    else if 'a' <= ch <= 'z' then ch as int - 'a' as int + 26
    else if '0' <= ch <= '9' then ch as int - '0' as int + 52
    else if ch == '-' then 62
    else 63
  }

  /** Each character stands for one value only. */
  lemma SextetRoundTrip(v: int)
    requires 0 <= v < 64
    ensures CharSextet(SextetChar(v)) == v
  {
  }

  predicate AllInAlphabet(s: string) {
    forall k :: 0 <= k < |s| ==> InAlphabet(s[k])
  }

  /** The characters of the input without the padding: four per three bytes,
      two for one byte left over and three for two. */
  function EncodeUnpadded(b: seq<Byte>): (s: string)
    ensures |s| == EncodedLength(|b|)
    ensures AllInAlphabet(s)
  {
    if |b| == 0 then ""
    else if |b| == 1 then EncodeOne(b[0])
    else if |b| == 2 then EncodeTwo(b[0], b[1])
    else EncodeGroup(b[0], b[1], b[2]) + EncodeUnpadded(b[3..])
  }

  /** Four characters per three bytes, two for one byte left over and
      three for two. */
  function EncodedLength(n: nat): nat {
    if n == 0 then 0 else if n == 1 then 2 else if n == 2 then 3 else 4 + EncodedLength(n - 3)
  }

  /** The length is never one more than a multiple of four. */
  lemma {:induction false} EncodedLengthShape(n: nat)
    ensures EncodedLength(n) % 4 != 1
  {
    if n >= 3 {
      EncodedLengthShape(n - 3);
    }
  }

  /** The two characters of a last single byte. */
  function EncodeOne(b0: Byte): (s: string)
    ensures |s| == 2 && AllInAlphabet(s)
  {
    [SextetChar(b0 / 4), SextetChar((b0 % 4) * 16)]
  }

  /** The three characters of two last bytes. */
  function EncodeTwo(b0: Byte, b1: Byte): (s: string)
    ensures |s| == 3 && AllInAlphabet(s)
  {
    [SextetChar(b0 / 4), SextetChar((b0 % 4) * 16 + b1 / 16), SextetChar((b1 % 16) * 4)]
  }

  /** The four characters of three bytes: their 24 bits, six at a time. */
  function EncodeGroup(b0: Byte, b1: Byte, b2: Byte): (s: string)
    ensures |s| == 4 && AllInAlphabet(s)
  {
    [SextetChar(b0 / 4), SextetChar((b0 % 4) * 16 + b1 / 16),
      SextetChar((b1 % 16) * 4 + b2 / 64), SextetChar(b2 % 64)]
  }

  /** The bytes of the two or three characters that end an encoding. */
  function DecodeShort(s: string): (b: seq<Byte>)
    requires (|s| == 2 || |s| == 3) && AllInAlphabet(s)
    ensures |b| == |s| - 1
  {
    if |s| == 2 then [CharSextet(s[0]) * 4 + CharSextet(s[1]) / 16]
    else [CharSextet(s[0]) * 4 + CharSextet(s[1]) / 16, (CharSextet(s[1]) % 16) * 16 + CharSextet(s[2]) / 4]
  }

  /** The three bytes of four characters. */
  function DecodeGroup(s: string): (b: seq<Byte>)
    requires |s| == 4 && AllInAlphabet(s)
    ensures |b| == 3
  {
    [CharSextet(s[0]) * 4 + CharSextet(s[1]) / 16,
      (CharSextet(s[1]) % 16) * 16 + CharSextet(s[2]) / 4,
      (CharSextet(s[2]) % 4) * 64 + CharSextet(s[3])]
  }

  /** The '=' characters that complete the last group of four. */
  function Padding(n: nat): (p: string)
    ensures forall k :: 0 <= k < |p| ==> p[k] == '='
  {
    if n % 3 == 1 then "==" else if n % 3 == 2 then "=" else ""
  }

  /** `urlsafe_b64encode`. */
  function Encode(b: seq<Byte>): string {
    EncodeUnpadded(b) + Padding(|b|)
  }

  /** `rstrip("=")`: the text without its trailing '=' characters. */
  function StripPadding(s: string): (r: string)
    ensures |r| <= |s| && r == s[..|r|]
    ensures r == [] || r[|r| - 1] != '='
    ensures forall k :: |r| <= k < |s| ==> s[k] == '='
  {
    if s != [] && s[|s| - 1] == '=' then StripPadding(s[..|s| - 1]) else s
  }

  /** Stripping the padding of an encoding gives the characters before it. */
  lemma StripEncoding(b: seq<Byte>)
    ensures StripPadding(Encode(b)) == EncodeUnpadded(b)
  {
    var u := EncodeUnpadded(b);
    assert u == [] || InAlphabet(u[|u| - 1]);
    if |b| % 3 == 1 {
      assert (u + "==")[..|u| + 1] == u + "=";
      assert (u + "=")[..|u|] == u;
    } else if |b| % 3 == 2 {
      assert (u + "=")[..|u|] == u;
    } else {
      assert u + "" == u;
    }
  }

  /** `uuid()` for the bytes `b` of the random UUID. */
  function Uuid(b: seq<Byte>): (id: string)
    requires |b| == 16
    ensures |id| == 22
    ensures AllInAlphabet(id)
    ensures '=' !in id
  {
    StripEncoding(b);
    StripPadding(Encode(b))
  }

  /** The bytes of the unpadded characters: the inverse of `EncodeUnpadded`. */
  function DecodeUnpadded(s: string): (b: seq<Byte>)
    requires AllInAlphabet(s)
  {
    // a single character left over holds no whole byte
    if |s| <= 1 then []
    else if |s| == 2 then DecodeShort(s)
    else if |s| == 3 then DecodeShort(s)
    else DecodeGroup(s[..4]) + DecodeUnpadded(s[4..])
  }

  /** The three bytes of a group come back from its four characters. */
  lemma GroupRoundTrip(b0: Byte, b1: Byte, b2: Byte)
    ensures (b0 / 4) * 4 + ((b0 % 4) * 16 + b1 / 16) / 16 == b0
    ensures (((b0 % 4) * 16 + b1 / 16) % 16) * 16 + ((b1 % 16) * 4 + b2 / 64) / 4 == b1
    ensures (((b1 % 16) * 4 + b2 / 64) % 4) * 64 + b2 % 64 == b2
  {
  }

  /** One byte left over. */
  lemma OneCodec(b0: Byte)
    ensures DecodeShort(EncodeOne(b0)) == [b0]
  {
    SextetRoundTrip(b0 / 4);
    SextetRoundTrip((b0 % 4) * 16);
  }

  /** Two bytes left over. */
  lemma TwoCodec(b0: Byte, b1: Byte)
    ensures DecodeShort(EncodeTwo(b0, b1)) == [b0, b1]
  {
    var s := EncodeTwo(b0, b1);
    var c0, c1, c2 := b0 / 4, (b0 % 4) * 16 + b1 / 16, (b1 % 16) * 4;
    SextetRoundTrip(c0);
    SextetRoundTrip(c1);
    SextetRoundTrip(c2);
    assert CharSextet(s[0]) == c0 && CharSextet(s[1]) == c1 && CharSextet(s[2]) == c2;
    GroupRoundTrip(b0, b1, 0);
  }

  /** Decoding the characters of a group gives its bytes back. */
  lemma GroupCodec(b0: Byte, b1: Byte, b2: Byte)
    ensures DecodeGroup(EncodeGroup(b0, b1, b2)) == [b0, b1, b2]
  {
    var s := EncodeGroup(b0, b1, b2);
    var c0, c1, c2, c3 := b0 / 4, (b0 % 4) * 16 + b1 / 16, (b1 % 16) * 4 + b2 / 64, b2 % 64;
    SextetRoundTrip(c0);
    SextetRoundTrip(c1);
    SextetRoundTrip(c2);
    SextetRoundTrip(c3);
    assert CharSextet(s[0]) == c0 && CharSextet(s[1]) == c1 && CharSextet(s[2]) == c2 && CharSextet(s[3]) == c3;
    GroupRoundTrip(b0, b1, b2);
  }

  /** A full group of three bytes in front. */
  lemma RoundTripGroup(b: seq<Byte>)
    requires |b| >= 3
    ensures DecodeUnpadded(EncodeUnpadded(b)) == [b[0], b[1], b[2]] + DecodeUnpadded(EncodeUnpadded(b[3..]))
  {
    var g := EncodeGroup(b[0], b[1], b[2]);
    var rest := EncodeUnpadded(b[3..]);
    var s := EncodeUnpadded(b);
    assert s == g + rest;
    assert s[..4] == g && s[4..] == rest;
    assert DecodeUnpadded(s) == DecodeGroup(g) + DecodeUnpadded(rest);
    GroupCodec(b[0], b[1], b[2]);
  }

  lemma SplitThree(b: seq<Byte>)
    requires |b| >= 3
    ensures b == [b[0], b[1], b[2]] + b[3..]
  {
  }

  /** Decoding the unpadded characters gives the bytes back. */
  lemma {:induction false} RoundTrip(b: seq<Byte>)
    ensures DecodeUnpadded(EncodeUnpadded(b)) == b
    decreases |b|
  {
    if |b| == 1 {
      OneCodec(b[0]);
    } else if |b| == 2 {
      TwoCodec(b[0], b[1]);
      assert b == [b[0], b[1]];
    } else if |b| >= 3 {
      RoundTripGroup(b);
      RoundTrip(b[3..]);
      SplitThree(b);
    }
  }

  /** Distinct bytes give distinct ids. */
  lemma UuidInjective(a: seq<Byte>, b: seq<Byte>)
    requires |a| == 16 && |b| == 16
    ensures Uuid(a) == Uuid(b) ==> a == b
  {
    StripEncoding(a);
    StripEncoding(b);
    RoundTrip(a);
    RoundTrip(b);
  }
}
