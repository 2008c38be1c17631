/**
 * Base 64 encoding as defined in section 4 of RFC 4648 (alphabet A-Z a-z 0-9 + /,
 * "=" padding), which is what Python's `base64.b64encode` produces, together with
 * the matching decoder and the proof that decoding undoes encoding.
 */
module Base64 {
  import opened Wrappers
  import opened Text

  /** The alphabet of RFC 4648 section 4, table 1. */
  function Symbol(v: int): (c: char)
    requires 0 <= v < 64
    ensures c != '='
  {
    if v < 26 then ('A' as int + v) as char
    else if v < 52 then ('a' as int + (v - 26)) as char
    else if v < 62 then ('0' as int + (v - 52)) as char
    else if v == 62 then '+'
    else '/'
  }

  predicate IsSymbol(c: char) {
    ('A' <= c <= 'Z') || ('a' <= c <= 'z') || ('0' <= c <= '9') || c == '+' || c == '/'
  }

  /** The inverse of the alphabet: the 6-bit value a character stands for. */
  function SymbolValue(c: char): (r: Option<int>)
    ensures r.Some? <==> IsSymbol(c)
    ensures r.Some? ==> 0 <= r.value < 64
  {
    if 'A' <= c <= 'Z' then Some(c as int - 'A' as int)
    else if 'a' <= c <= 'z' then Some(c as int - 'a' as int + 26)
    else if '0' <= c <= '9' then Some(c as int - '0' as int + 52)
    else if c == '+' then Some(62)
    else if c == '/' then Some(63)
    else None
  }

  lemma SymbolRoundTrip(v: int)
    requires 0 <= v < 64
    ensures SymbolValue(Symbol(v)) == Some(v)
    ensures IsSymbol(Symbol(v))
  {
  }

  /** The four characters of one full 24-bit group. */
  function Group(b0: Byte, b1: Byte, b2: Byte): (s: string)
    ensures |s| == 4
  {
    [Symbol(b0 / 4), Symbol((b0 % 4) * 16 + b1 / 16), Symbol((b1 % 16) * 4 + b2 / 64), Symbol(b2 % 64)]
  }

  /** Every 24-bit group of input becomes four characters; the final partial group is padded with "=". */
  function Encode(b: seq<Byte>): (s: string)
    ensures |s| == 4 * ((|b| + 2) / 3)
    decreases |b|
  {
    if |b| == 0 then ""
    else if |b| == 1 then
      [Symbol(b[0] / 4), Symbol((b[0] % 4) * 16), '=', '=']
    else if |b| == 2 then
      [Symbol(b[0] / 4), Symbol((b[0] % 4) * 16 + b[1] / 16), Symbol((b[1] % 16) * 4), '=']
    else
      Group(b[0], b[1], b[2]) + Encode(b[3..])
  }

  /** The characters an encoding may contain: the alphabet and the pad character. */
  predicate IsEncodingChar(c: char) {
    IsSymbol(c) || c == '='
  }

  lemma {:induction false} EncodeAlphabet(b: seq<Byte>)
    ensures forall i :: 0 <= i < |Encode(b)| ==> IsEncodingChar(Encode(b)[i])
    decreases |b|
  {
    if |b| >= 3 {
      EncodeAlphabet(b[3..]);
      SymbolRoundTrip(b[0] / 4);
      SymbolRoundTrip((b[0] % 4) * 16 + b[1] / 16);
      SymbolRoundTrip((b[1] % 16) * 4 + b[2] / 64);
      SymbolRoundTrip(b[2] % 64);
      assert Encode(b) == Group(b[0], b[1], b[2]) + Encode(b[3..]);
    } else if |b| == 2 {
      SymbolRoundTrip(b[0] / 4);
      SymbolRoundTrip((b[0] % 4) * 16 + b[1] / 16);
      SymbolRoundTrip((b[1] % 16) * 4);
    } else if |b| == 1 {
      SymbolRoundTrip(b[0] / 4);
      SymbolRoundTrip((b[0] % 4) * 16);
    }
  }

  /**
   * Decoding: the length must be a multiple of four, every character must be in the
   * alphabet, and only the last group may end in one or two "=" pad characters.
   */
  function Decode(s: string): (r: Option<seq<Byte>>)
    decreases |s|
  {
    if |s| == 0 then Some([])
    else if |s| < 4 then None
    else
      var v0, v1, v2, v3 := SymbolValue(s[0]), SymbolValue(s[1]), SymbolValue(s[2]), SymbolValue(s[3]);
      if v0.None? || v1.None? then None
      else if |s| == 4 && s[2] == '=' && s[3] == '=' then
        Some([v0.value * 4 + v1.value / 16])
      else if |s| == 4 && v2.Some? && s[3] == '=' then
        Some([v0.value * 4 + v1.value / 16, (v1.value % 16) * 16 + v2.value / 4])
      else if v2.None? || v3.None? then None
      else
        match Decode(s[4..])
        case None => None
        case Some(rest) =>
          Some([v0.value * 4 + v1.value / 16, (v1.value % 16) * 16 + v2.value / 4, (v2.value % 4) * 64 + v3.value] + rest)
  }

  lemma GroupArithmetic(b0: Byte, b1: Byte, b2: Byte)
    ensures (b0 / 4) * 4 + ((b0 % 4) * 16 + b1 / 16) / 16 == b0
    ensures (((b0 % 4) * 16 + b1 / 16) % 16) * 16 + ((b1 % 16) * 4 + b2 / 64) / 4 == b1
    ensures (((b1 % 16) * 4 + b2 / 64) % 4) * 64 + b2 % 64 == b2
  {
  }

  lemma DecodeOne(b0: Byte)
    ensures Decode(Encode([b0])) == Some([b0])
  {
    SymbolRoundTrip(b0 / 4);
    SymbolRoundTrip((b0 % 4) * 16);
    GroupArithmetic(b0, 0, 0);
    var s := Encode([b0]);
    assert s[2] == '=' && s[3] == '=';
  }

  lemma DecodeTwo(b0: Byte, b1: Byte)
    ensures Decode(Encode([b0, b1])) == Some([b0, b1])
  {
    SymbolRoundTrip(b0 / 4);
    SymbolRoundTrip((b0 % 4) * 16 + b1 / 16);
    SymbolRoundTrip((b1 % 16) * 4);
    GroupArithmetic(b0, b1, 0);
    var s := Encode([b0, b1]);
    assert s[2] != '=' && s[3] == '=';
  }

  lemma DecodeGroup(b0: Byte, b1: Byte, b2: Byte, rest: string)
    ensures Decode(Group(b0, b1, b2) + rest) ==
      match Decode(rest)
      case None => None
      case Some(tail) => Some([b0, b1, b2] + tail)
  {
    var s := Group(b0, b1, b2) + rest;
    SymbolRoundTrip(b0 / 4);
    SymbolRoundTrip((b0 % 4) * 16 + b1 / 16);
    SymbolRoundTrip((b1 % 16) * 4 + b2 / 64);
    SymbolRoundTrip(b2 % 64);
    GroupArithmetic(b0, b1, b2);
    assert s[4..] == rest;
    assert s[2] != '=' && s[3] != '=';
  }

  /** Decoding undoes encoding: `Decode(Encode(b)) == Some(b)` for every byte string. */
  lemma {:induction false} DecodeEncode(b: seq<Byte>)
    ensures Decode(Encode(b)) == Some(b)
    decreases |b|
  {
    if |b| == 0 {
    } else if |b| == 1 {
      assert b == [b[0]];
      DecodeOne(b[0]);
    } else if |b| == 2 {
      assert b == [b[0], b[1]];
      DecodeTwo(b[0], b[1]);
    } else {
      DecodeEncode(b[3..]);
      DecodeEncodeStep(b);
    }
  }

  /** One full group in front of a tail that already round-trips. */
  lemma DecodeEncodeStep(b: seq<Byte>)
    requires |b| >= 3
    requires Decode(Encode(b[3..])) == Some(b[3..])
    ensures Decode(Encode(b)) == Some(b)
  {
    EncodeGroup(b);
    Glue(b, Encode(b[3..]));
  }

  /** The three bytes of one group in front of whatever the rest decodes to. */
  lemma Glue(b: seq<Byte>, rest: string)
    requires |b| >= 3
    requires Decode(rest) == Some(b[3..])
    ensures Decode(Group(b[0], b[1], b[2]) + rest) == Some(b)
  {
    DecodeGroupSome(b[0], b[1], b[2], rest, b[3..]);
    assert [b[0], b[1], b[2]] + b[3..] == b;
  }

  lemma DecodeGroupSome(b0: Byte, b1: Byte, b2: Byte, rest: string, tail: seq<Byte>)
    requires Decode(rest) == Some(tail)
    ensures Decode(Group(b0, b1, b2) + rest) == Some([b0, b1, b2] + tail)
  {
    DecodeGroup(b0, b1, b2, rest);
  }

  lemma EncodeGroup(b: seq<Byte>)
    requires |b| >= 3
    ensures Encode(b) == Group(b[0], b[1], b[2]) + Encode(b[3..])
  {
  }
}
