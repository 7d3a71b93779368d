/**
 * Standard Base64 with padding (section 4 of RFC 4648), the encoding
 * js-base64's Base64.fromUint8Array produces for the binary fields of the
 * native backend's JSON payloads, together with its decoder.
 */
module Base64 {
  import opened Wrappers
  import opened BitCodec
  import Text

  type Sextet = x: int | 0 <= x < 64

  /** Table 1 of RFC 4648: A-Z, a-z, 0-9, '+', '/'. */
  function CharOf(v: Sextet): char
  {
    if v < 26 then ('A' as int + v) as char
    else if v < 52 then ('a' as int + (v - 26)) as char
    else if v < 62 then ('0' as int + (v - 52)) as char
    else if v == 62 then '+'
    else '/'
  }

  function ValueOf(c: char): Option<Sextet>
  {
    if 'A' <= c <= 'Z' then Some(c as int - 'A' as int)
    else if 'a' <= c <= 'z' then Some(c as int - 'a' as int + 26)
    else if '0' <= c <= '9' then Some(c as int - '0' as int + 52)
    else if c == '+' then Some(62)
    else if c == '/' then Some(63)
    else None
  }

  lemma ValueOfCharOf(v: Sextet)
    ensures ValueOf(CharOf(v)) == Some(v)
  {
  }

  /** A character that may appear in the output of Encode. */
  predicate IsBase64Char(c: char)
  {
    ValueOf(c).Some? || c == '='
  }

  /** The four characters of one full 3-byte group. */
  function EncodeGroup(b0: Byte, b1: Byte, b2: Byte): string
  {
    [CharOf(b0 / 4), CharOf((b0 % 4) * 16 + b1 / 16), CharOf((b1 % 16) * 4 + b2 / 64), CharOf(b2 % 64)]
  }

  function Encode(bytes: seq<Byte>): (s: string)
    ensures |s| == 4 * ((|bytes| + 2) / 3)
    decreases |bytes|
  {
    if |bytes| == 0 then ""
    else if |bytes| == 1 then
      [CharOf(bytes[0] / 4), CharOf((bytes[0] % 4) * 16), '=', '=']
    else if |bytes| == 2 then
      [CharOf(bytes[0] / 4), CharOf((bytes[0] % 4) * 16 + bytes[1] / 16), CharOf((bytes[1] % 16) * 4), '=']
    else
      PaddedLengthStep(|bytes|);
      EncodeGroup(bytes[0], bytes[1], bytes[2]) + Encode(bytes[3..])
  }

  /** One more full group adds four characters to the padded length. */
  lemma PaddedLengthStep(n: nat)
    requires n >= 3
    ensures 4 * ((n + 2) / 3) == 4 + 4 * ((n - 3 + 2) / 3)
  {
  }

  /** Decodes one 4-character group; '=' padding may end the last group only. */
  function DecodeGroup(q: string, last: bool): Option<seq<Byte>>
    requires |q| == 4
  {
    var v0, v1, v2, v3 := ValueOf(q[0]), ValueOf(q[1]), ValueOf(q[2]), ValueOf(q[3]);
    if v0.None? || v1.None? then None
    else
      var c0, c1 := v0.value, v1.value;
      var b0: Byte := c0 * 4 + c1 / 16;
      if last && q[2] == '=' && q[3] == '=' then Some([b0])
      else if v2.None? then None
      else
        var c2 := v2.value;
        var b1: Byte := (c1 % 16) * 16 + c2 / 4;
        if last && q[3] == '=' then Some([b0, b1])
        else if v3.None? then None
        else
          var b2: Byte := (c2 % 4) * 64 + v3.value;
          Some([b0, b1, b2])
  }

  function Decode(s: string): Option<seq<Byte>>
    decreases |s|
  {
    if |s| == 0 then Some([])
    else if |s| < 4 then None
    else
      match DecodeGroup(s[..4], |s| == 4)
      case None => None
      case Some(group) =>
        match Decode(s[4..])
        case None => None
        case Some(rest) => Some(group + rest)
  }

  lemma GroupRoundTrip(b0: Byte, b1: Byte, b2: Byte, last: bool)
    ensures DecodeGroup(EncodeGroup(b0, b1, b2), last) == Some([b0, b1, b2])
  {
    var c1 := (b0 % 4) * 16 + b1 / 16;
    var c2 := (b1 % 16) * 4 + b2 / 64;
    DivModUnique(c1, 16, b0 % 4, b1 / 16);
    DivModUnique(c2, 4, b1 % 16, b2 / 64);
    ValueOfCharOf(b0 / 4);
    ValueOfCharOf(c1);
    ValueOfCharOf(c2);
    ValueOfCharOf(b2 % 64);
  }

  lemma RoundTripOne(b0: Byte)
    ensures Decode(Encode([b0])) == Some([b0])
  {
    var s := Encode([b0]);
    ValueOfCharOf(b0 / 4);
    ValueOfCharOf((b0 % 4) * 16);
    DivModUnique((b0 % 4) * 16, 16, b0 % 4, 0);
    assert s[..4] == s;
    assert s[4..] == [];
    assert (b0 / 4) * 4 + b0 % 4 == b0;
    assert DecodeGroup(s, true) == Some([b0]);
    assert Decode(s) == Some([b0] + []);
    assert [b0] + [] == [b0];
  }

  lemma RoundTripTwo(b0: Byte, b1: Byte)
    ensures Decode(Encode([b0, b1])) == Some([b0, b1])
  {
    var s := Encode([b0, b1]);
    var c1 := (b0 % 4) * 16 + b1 / 16;
    ValueOfCharOf(b0 / 4);
    ValueOfCharOf(c1);
    ValueOfCharOf((b1 % 16) * 4);
    DivModUnique(c1, 16, b0 % 4, b1 / 16);
    DivModUnique((b1 % 16) * 4, 4, b1 % 16, 0);
    assert s[..4] == s;
    assert s[4..] == [];
    assert (b0 / 4) * 4 + b0 % 4 == b0;
    assert (b1 / 16) * 16 + b1 % 16 == b1;
    assert DecodeGroup(s, true) == Some([b0, b1]);
    assert Decode(s) == Some([b0, b1] + []);
    assert [b0, b1] + [] == [b0, b1];
  }

  /** Decoding undoes encoding. */
  lemma {:induction false} RoundTrip(bytes: seq<Byte>)
    ensures Decode(Encode(bytes)) == Some(bytes)
    decreases |bytes|
  {
    if |bytes| == 1 {
      assert bytes == [bytes[0]];
      RoundTripOne(bytes[0]);
    } else if |bytes| == 2 {
      assert bytes == [bytes[0], bytes[1]];
      RoundTripTwo(bytes[0], bytes[1]);
    } else if |bytes| >= 3 {
      var b0, b1, b2, rest := bytes[0], bytes[1], bytes[2], bytes[3..];
      assert bytes == [b0, b1, b2] + rest;
      assert Encode(bytes) == EncodeGroup(b0, b1, b2) + Encode(rest);
      RoundTrip(rest);
      RoundTripGroup(b0, b1, b2, rest);
    }
  }

  /** One full leading group: if the rest round-trips, so does the whole. */
  lemma RoundTripGroup(b0: Byte, b1: Byte, b2: Byte, rest: seq<Byte>)
    requires Decode(Encode(rest)) == Some(rest)
    ensures Decode(EncodeGroup(b0, b1, b2) + Encode(rest)) == Some([b0, b1, b2] + rest)
  {
    GroupRoundTrip(b0, b1, b2, |Encode(rest)| == 0);
    DecodeCons(EncodeGroup(b0, b1, b2), Encode(rest), [b0, b1, b2], rest);
  }

  /** Decoding a leading group followed by more text. */
  lemma DecodeCons(g: string, t: string, x: seq<Byte>, y: seq<Byte>)
    requires |g| == 4
    requires DecodeGroup(g, |t| == 0) == Some(x)
    requires Decode(t) == Some(y)
    ensures Decode(g + t) == Some(x + y)
  {
    var s := g + t;
    assert s[..4] == g;
    assert s[4..] == t;
  }

  /** Every character of the output is from the alphabet or is the '=' pad. */
  lemma {:induction false} EncodeAlphabet(bytes: seq<Byte>)
    ensures forall i :: 0 <= i < |Encode(bytes)| ==> IsBase64Char(Encode(bytes)[i])
    decreases |bytes|
  {
    if |bytes| == 1 {
      ValueOfCharOf(bytes[0] / 4);
      ValueOfCharOf((bytes[0] % 4) * 16);
    } else if |bytes| == 2 {
      ValueOfCharOf(bytes[0] / 4);
      ValueOfCharOf((bytes[0] % 4) * 16 + bytes[1] / 16);
      ValueOfCharOf((bytes[1] % 16) * 4);
    } else if |bytes| >= 3 {
      var g := EncodeGroup(bytes[0], bytes[1], bytes[2]);
      var t := Encode(bytes[3..]);
      GroupAlphabet(bytes[0], bytes[1], bytes[2]);
      EncodeAlphabet(bytes[3..]);
      assert Encode(bytes) == g + t;
      forall i | 0 <= i < |g + t| ensures IsBase64Char((g + t)[i]) {
        if i < 4 { assert (g + t)[i] == g[i]; } else { assert (g + t)[i] == t[i - 4]; }
      }
    }
  }

  lemma GroupAlphabet(b0: Byte, b1: Byte, b2: Byte)
    ensures forall i :: 0 <= i < 4 ==> IsBase64Char(EncodeGroup(b0, b1, b2)[i])
  {
    ValueOfCharOf(b0 / 4);
    ValueOfCharOf((b0 % 4) * 16 + b1 / 16);
    ValueOfCharOf((b1 % 16) * 4 + b2 / 64);
    ValueOfCharOf(b2 % 64);
  }

  /** The output is ASCII and holds no character JSON would escape. */
  lemma EncodeIsPlain(bytes: seq<Byte>)
    ensures Text.IsAscii(Encode(bytes))
    ensures forall i :: 0 <= i < |Encode(bytes)| ==>
      var c := Encode(bytes)[i]; c != '"' && c != '\\' && c as int >= 0x20
  {
    EncodeAlphabet(bytes);
  }
}
