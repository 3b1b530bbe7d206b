/**
 * Standard Base64 encoding as defined in section 4 of RFC 4648: the alphabet
 * A-Z a-z 0-9 + / and the padding character '='. This is the encoding Go's
 * base64.StdEncoding.EncodeToString applies to the HMAC digest.
 */
module Base64 {
  import opened Wrappers

  type byte = x: int | 0 <= x < 256

  /** The 64 characters of the standard alphabet (the padding is not one of them). */
  predicate IsAlphabetChar(c: char) {
    'A' <= c <= 'Z' || 'a' <= c <= 'z' || '0' <= c <= '9' || c == '+' || c == '/'
  }

  const Pad: char := '='

  /** The character that stands for the 6-bit value v. */
  function CharOf(v: int): (c: char)
    requires 0 <= v < 64
    ensures IsAlphabetChar(c)
  {
    if v < 26 then ('A' as int + v) as char
    else if v < 52 then ('a' as int + (v - 26)) as char
    else if v < 62 then ('0' as int + (v - 52)) as char
    else if v == 62 then '+'
    else '/'
  }

  /** The 6-bit value an alphabet character stands for. */
  function IndexOf(c: char): (v: int)
    requires IsAlphabetChar(c)
    ensures 0 <= v < 64 && CharOf(v) == c
  {
    if 'A' <= c <= 'Z' then c as int - 'A' as int
    else if 'a' <= c <= 'z' then c as int - 'a' as int + 26
    else if '0' <= c <= '9' then c as int - '0' as int + 52
    else if c == '+' then 62
    else 63
  }

  lemma IndexOfCharOf(v: int)
    requires 0 <= v < 64
    ensures IndexOf(CharOf(v)) == v
  {
  }

  /** Number of '=' characters that end the encoding of n bytes. */
  function Padding(n: nat): nat {
    (3 - n % 3) % 3
  }

  /** The four characters for three bytes: their 24 bits cut into four 6-bit values. */
  function Group3(b0: byte, b1: byte, b2: byte): (r: string)
    ensures |r| == 4 && forall i | 0 <= i < 4 :: IsAlphabetChar(r[i])
  {
    [CharOf(b0 / 4), CharOf(b0 % 4 * 16 + b1 / 16), CharOf(b1 % 16 * 4 + b2 / 64), CharOf(b2 % 64)]
  }

  /** The final group for two remaining bytes: 16 bits padded with zero bits to three characters, then one '='. */
  function Group2(b0: byte, b1: byte): (r: string)
    ensures |r| == 4 && IsAlphabetChar(r[0]) && IsAlphabetChar(r[1]) && IsAlphabetChar(r[2]) && r[3] == Pad
  {
    [CharOf(b0 / 4), CharOf(b0 % 4 * 16 + b1 / 16), CharOf(b1 % 16 * 4), Pad]
  }

  /** The final group for one remaining byte: 8 bits padded with zero bits to two characters, then two '='. */
  function Group1(b0: byte): (r: string)
    ensures |r| == 4 && IsAlphabetChar(r[0]) && IsAlphabetChar(r[1]) && r[2] == Pad && r[3] == Pad
  {
    [CharOf(b0 / 4), CharOf(b0 % 4 * 16), Pad, Pad]
  }

  /**
   * Encodes b three bytes at a time from the front; a final group of one or
   * two bytes is padded with '=' to four characters.
   */
  function Encode(b: seq<byte>): (r: string)
    ensures |r| == 4 * ((|b| + 2) / 3)
    decreases |b|
  {
    if |b| == 0 then []
    else if |b| == 1 then Group1(b[0])
    else if |b| == 2 then Group2(b[0], b[1])
    else Group3(b[0], b[1], b[2]) + Encode(b[3..])
  }

  /** All characters of the encoding are alphabet characters except the final padding. */
  lemma {:induction false} EncodeAlphabet(b: seq<byte>)
    ensures forall i | 0 <= i < |Encode(b)| - Padding(|b|) :: IsAlphabetChar(Encode(b)[i])
    ensures forall i | |Encode(b)| - Padding(|b|) <= i < |Encode(b)| :: Encode(b)[i] == Pad
    decreases |b|
  {
    if |b| >= 3 {
      var g, t := Group3(b[0], b[1], b[2]), Encode(b[3..]);
      EncodeAlphabet(b[3..]);
      assert Padding(|b|) == Padding(|b| - 3);
      assert Encode(b) == g + t;
      forall i | 4 <= i < |Encode(b)| ensures Encode(b)[i] == t[i - 4] {}
    }
  }

  /** Decodes one group of four characters, of which the last one or two may be padding. */
  function DecodeQuad(q: string): Option<seq<byte>>
    requires |q| == 4
  {
    if !(IsAlphabetChar(q[0]) && IsAlphabetChar(q[1])) then None
    else
      var a, b := IndexOf(q[0]), IndexOf(q[1]);
      if q[2] == Pad && q[3] == Pad then Some([a * 4 + b / 16])
      else if !IsAlphabetChar(q[2]) then None
      else
        var c := IndexOf(q[2]);
        if q[3] == Pad then Some([a * 4 + b / 16, b % 16 * 16 + c / 4])
        else if !IsAlphabetChar(q[3]) then None
        else
          var d := IndexOf(q[3]);
          Some([a * 4 + b / 16, b % 16 * 16 + c / 4, c % 4 * 64 + d])
  }

  /**
   * Reference decoder: the inverse the encoding is checked against. Padding
   * is accepted only in the final group.
   */
  function Decode(s: string): Option<seq<byte>>
    decreases |s|
  {
    if |s| == 0 then Some([])
    else if |s| < 4 then None
    else
      match DecodeQuad(s[..4])
      case None => None
      case Some(head) =>
        if |head| < 3 && |s| > 4 then None
        else
          match Decode(s[4..])
          case None => None
          case Some(tail) => Some(head + tail)
  }

  lemma DecodeGroup3(b0: byte, b1: byte, b2: byte)
    ensures DecodeQuad(Group3(b0, b1, b2)) == Some([b0, b1, b2])
  {
    var c1, c2 := b0 % 4 * 16 + b1 / 16, b1 % 16 * 4 + b2 / 64;
    assert c1 / 16 == b0 % 4 && c1 % 16 == b1 / 16;
    assert c2 / 4 == b1 % 16 && c2 % 4 == b2 / 64;
    assert b0 / 4 * 4 + b0 % 4 == b0;
    assert b1 / 16 * 16 + b1 % 16 == b1;
    assert b2 / 64 * 64 + b2 % 64 == b2;
    IndexOfCharOf(b0 / 4);
    IndexOfCharOf(b0 % 4 * 16 + b1 / 16);
    IndexOfCharOf(b1 % 16 * 4 + b2 / 64);
    IndexOfCharOf(b2 % 64);
  }

  lemma DecodeGroup2(b0: byte, b1: byte)
    ensures DecodeQuad(Group2(b0, b1)) == Some([b0, b1])
  {
    var c1, c2 := b0 % 4 * 16 + b1 / 16, b1 % 16 * 4;
    assert c1 / 16 == b0 % 4 && c1 % 16 == b1 / 16;
    assert c2 / 4 == b1 % 16;
    assert b0 / 4 * 4 + b0 % 4 == b0;
    assert b1 / 16 * 16 + b1 % 16 == b1;
    IndexOfCharOf(b0 / 4);
    IndexOfCharOf(b0 % 4 * 16 + b1 / 16);
    IndexOfCharOf(b1 % 16 * 4);
  }

  lemma DecodeGroup1(b0: byte)
    ensures DecodeQuad(Group1(b0)) == Some([b0])
  {
    IndexOfCharOf(b0 / 4);
    IndexOfCharOf(b0 % 4 * 16);
  }

  lemma DecodeSingleGroup(q: string, h: seq<byte>)
    requires |q| == 4 && DecodeQuad(q) == Some(h)
    ensures Decode(q) == Some(h)
  {
    assert q[..4] == q && q[4..] == [];
    assert Decode(q[4..]) == Some([]);
    assert h + [] == h;
  }

  lemma DecodeFullGroup(q: string, rest: string, h: seq<byte>, t: seq<byte>)
    requires |q| == 4 && DecodeQuad(q) == Some(h) && |h| == 3
    requires Decode(rest) == Some(t)
    ensures Decode(q + rest) == Some(h + t)
  {
    var s := q + rest;
    assert s[..4] == q && s[4..] == rest;
  }

  lemma SplitFirstGroup(b: seq<byte>)
    requires |b| >= 3
    ensures b == [b[0], b[1], b[2]] + b[3..]
  {
  }

  /** Decoding undoes encoding. */
  lemma {:induction false} DecodeEncode(b: seq<byte>)
    ensures Decode(Encode(b)) == Some(b)
    decreases |b|
  {
    if |b| == 1 {
      DecodeGroup1(b[0]);
      assert Encode(b) == Group1(b[0]);
      DecodeSingleGroup(Group1(b[0]), [b[0]]);
      assert b == [b[0]];
    } else if |b| == 2 {
      DecodeGroup2(b[0], b[1]);
      assert Encode(b) == Group2(b[0], b[1]);
      DecodeSingleGroup(Group2(b[0], b[1]), [b[0], b[1]]);
      assert b == [b[0], b[1]];
    } else if |b| >= 3 {
      SplitFirstGroup(b);
      DecodeGroup3(b[0], b[1], b[2]);
      DecodeEncode(b[3..]);
      assert Encode(b) == Group3(b[0], b[1], b[2]) + Encode(b[3..]);
      DecodeFullGroup(Group3(b[0], b[1], b[2]), Encode(b[3..]), [b[0], b[1], b[2]], b[3..]);
    }
  }

  /** Distinct byte strings have distinct encodings. */
  lemma EncodeInjective(b1: seq<byte>, b2: seq<byte>)
    requires Encode(b1) == Encode(b2)
    ensures b1 == b2
  {
    DecodeEncode(b1);
    DecodeEncode(b2);
  }
}
