/**
 * Percent-encoding of a page path the way `urllib.parse.quote(path, safe="/")`
 * does it: the text is encoded as UTF-8, ASCII letters, digits, "_", ".", "-",
 * "~" and "/" stay as they are, and every other byte becomes "%" followed by two
 * upper-case hexadecimal digits (section 2.1 of RFC 3986).
 */
module Percent {
  import opened Wrappers
  import opened Text

  /** The bytes `quote` never escapes: its always-safe set plus the caller's safe "/". */
  predicate IsSafe(b: int) {
    ('A' as int <= b <= 'Z' as int) || ('a' as int <= b <= 'z' as int) || ('0' as int <= b <= '9' as int)
    || b == '_' as int || b == '.' as int || b == '-' as int || b == '~' as int || b == '/' as int
  }

  function HexDigit(d: int): (c: char)
    requires 0 <= d < 16
  {
    if d < 10 then ('0' as int + d) as char else ('A' as int + (d - 10)) as char
  }

  /** The value of a hexadecimal digit of either case. */
  function HexValue(c: char): (r: Option<int>)
    ensures r.Some? ==> 0 <= r.value < 16
  {
    if '0' <= c <= '9' then Some(c as int - '0' as int)
    else if 'A' <= c <= 'F' then Some(c as int - 'A' as int + 10)
    else if 'a' <= c <= 'f' then Some(c as int - 'a' as int + 10)
    else None
  }

  lemma HexRoundTrip(d: int)
    requires 0 <= d < 16
    ensures HexValue(HexDigit(d)) == Some(d)
  {
  }

  function EscapeByte(b: Byte): (s: string)
    ensures |s| > 0
  {
    if IsSafe(b) then [b as char] else ['%', HexDigit(b / 16), HexDigit(b % 16)]
  }

  function EscapeBytes(bs: seq<Byte>): (s: string)
    decreases |bs|
  {
    if |bs| == 0 then "" else EscapeByte(bs[0]) + EscapeBytes(bs[1..])
  }

  /** `urllib.parse.quote(s, safe="/")`. */
  function Quote(s: string): (q: string) {
    EscapeBytes(Utf8Encode(s))
  }

  /** Percent-decoding back to bytes; `None` for a stray "%" or a character outside ASCII. */
  function Unquote(s: string): (r: Option<seq<Byte>>)
    decreases |s|
  {
    if |s| == 0 then Some([])
    else if s[0] == '%' then
      if |s| < 3 || HexValue(s[1]).None? || HexValue(s[2]).None? then None
      else
        match Unquote(s[3..])
        case None => None
        case Some(rest) => Some([HexValue(s[1]).value * 16 + HexValue(s[2]).value] + rest)
    else if s[0] as int < 0x80 then
      match Unquote(s[1..])
      case None => None
      case Some(rest) => Some([s[0] as int] + rest)
    else None
  }

  lemma UnquoteEscapeByte(b: Byte, rest: string)
    ensures Unquote(EscapeByte(b) + rest) ==
      match Unquote(rest)
      case None => None
      case Some(tail) => Some([b] + tail)
  {
    var s := EscapeByte(b) + rest;
    if IsSafe(b) {
      assert s[0] == b as char && s[1..] == rest;
    } else {
      HexRoundTrip(b / 16);
      HexRoundTrip(b % 16);
      assert s[0] == '%' && s[3..] == rest;
    }
  }

  lemma {:induction false} UnquoteEscapeBytes(bs: seq<Byte>)
    ensures Unquote(EscapeBytes(bs)) == Some(bs)
    decreases |bs|
  {
    if |bs| > 0 {
      UnquoteEscapeBytes(bs[1..]);
      UnquoteEscapeBytesStep(bs, EscapeBytes(bs[1..]));
    }
  }

  /** The first byte's escape in front of whatever the rest decodes to. */
  lemma UnquoteEscapeBytesStep(bs: seq<Byte>, rest: string)
    requires |bs| > 0 && Unquote(rest) == Some(bs[1..])
    ensures Unquote(EscapeByte(bs[0]) + rest) == Some(bs)
  {
    UnquoteEscapeByte(bs[0], rest);
    assert bs == [bs[0]] + bs[1..];
  }

  /** Percent-decoding the quoted path gives back exactly the UTF-8 bytes of the path. */
  lemma UnquoteQuote(s: string)
    ensures Unquote(Quote(s)) == Some(Utf8Encode(s))
  {
    UnquoteEscapeBytes(Utf8Encode(s));
  }

  /** The characters a quoted path is made of. */
  predicate IsUrlChar(c: char) {
    (c as int < 0x80 && IsSafe(c as int)) || c == '%' || ('0' <= c <= '9') || ('A' <= c <= 'F')
  }

  lemma {:induction false} EscapeBytesUrlChars(bs: seq<Byte>)
    ensures forall i :: 0 <= i < |EscapeBytes(bs)| ==> IsUrlChar(EscapeBytes(bs)[i])
    decreases |bs|
  {
    if |bs| > 0 {
      EscapeBytesUrlChars(bs[1..]);
      var e := EscapeByte(bs[0]);
      assert forall i :: 0 <= i < |e| ==> IsUrlChar(e[i]);
      assert EscapeBytes(bs) == e + EscapeBytes(bs[1..]);
    }
  }

  /** A quoted path contains only safe ASCII, "%" and upper-case hexadecimal digits. */
  lemma QuoteUrlChars(s: string)
    ensures forall i :: 0 <= i < |Quote(s)| ==> IsUrlChar(Quote(s)[i])
  {
    EscapeBytesUrlChars(Utf8Encode(s));
  }

  lemma {:induction false} EscapeBytesAppend(a: seq<Byte>, b: seq<Byte>)
    ensures EscapeBytes(a + b) == EscapeBytes(a) + EscapeBytes(b)
    decreases |a|
  {
    if |a| == 0 {
      assert a + b == b;
    } else {
      assert (a + b)[1..] == a[1..] + b;
      EscapeBytesAppend(a[1..], b);
    }
  }

  /** "/" is left unescaped: quoting works segment by segment with the separators kept. */
  lemma QuoteKeepsSlash(s: string, t: string)
    ensures Quote(s + "/" + t) == Quote(s) + "/" + Quote(t)
  {
    Utf8EncodeAppend(s + "/", t);
    Utf8EncodeAppend(s, "/");
    assert Utf8Encode("/") == [47];
    EscapeBytesAppend(Utf8Encode(s) + [47], Utf8Encode(t));
    EscapeBytesAppend(Utf8Encode(s), [47]);
    assert EscapeBytes([47]) == "/";
  }

  /** A path made only of safe ASCII characters is sent unchanged. */
  lemma {:induction false} QuoteSafeIdentity(s: string)
    requires forall i :: 0 <= i < |s| ==> s[i] as int < 0x80 && IsSafe(s[i] as int)
    ensures Quote(s) == s
    decreases |s|
  {
    if |s| > 0 {
      QuoteSafeIdentity(s[1..]);
      assert Utf8Encode(s) == [s[0] as int] + Utf8Encode(s[1..]);
      assert Quote(s) == [s[0]] + Quote(s[1..]);
      assert s == [s[0]] + s[1..];
    }
  }
}
