/**
 * The few Python string operations the core relies on, restricted to what the
 * model needs: truthiness of optional strings and integers, ASCII `str.lower()`,
 * the substring test `needle in hay`, the slice `s[:n]`, `str(int)` and `int(str)`,
 * and UTF-8 encoding (`str.encode()`).
 */
module Text {
  import opened Wrappers

  type Byte = b: int | 0 <= b < 256

  /** Python truthiness of an optional string: `None` and `""` are false. */
  predicate Truthy(s: Option<string>) {
    s.Some? && s.value != ""
  }

  /** Python truthiness of an optional integer: `None` and `0` are false. */
  predicate IntTruthy(n: Option<int>) {
    n.Some? && n.value != 0
  }

  /** `x or ""` for an optional string. */
  function OrEmpty(s: Option<string>): (r: string)
    ensures s.Some? ==> r == s.value
    ensures s.None? ==> r == ""
  {
    s.GetOr("")
  }

  // ---------------------------------------------------------------------------
  // str.lower(), ASCII letters only

  function LowerChar(c: char): (l: char) {
    if 'A' <= c <= 'Z' then (c as int + 32) as char else c
  }

  function Lower(s: string): (r: string)
    ensures |r| == |s|
    ensures forall i :: 0 <= i < |s| ==> r[i] == LowerChar(s[i])
  {
    seq(|s|, i requires 0 <= i < |s| => LowerChar(s[i]))
  }

  /** Lowering twice is lowering once. */
  lemma LowerIdempotent(s: string)
    ensures Lower(Lower(s)) == Lower(s)
  {
    assert forall i :: 0 <= i < |s| ==> LowerChar(LowerChar(s[i])) == LowerChar(s[i]);
  }

  // ---------------------------------------------------------------------------
  // Substring containment, Python's `needle in hay`

  predicate OccursAt(needle: string, hay: string, i: int) {
    0 <= i && i + |needle| <= |hay| && hay[i..i + |needle|] == needle
  }

  function Contains(needle: string, hay: string): (b: bool)
    ensures b <==> exists i :: OccursAt(needle, hay, i)
    decreases |hay|
  {
    if |needle| > |hay| then
      assert forall i :: !OccursAt(needle, hay, i);
      false
    else if hay[..|needle|] == needle then
      assert OccursAt(needle, hay, 0);
      true
    else
      ShiftOccurrence(needle, hay);
      Contains(needle, hay[1..])
  }

  /** An occurrence in `hay` other than at position 0 is an occurrence in `hay[1..]`, and back. */
  lemma ShiftOccurrence(needle: string, hay: string)
    requires |needle| <= |hay| && hay[..|needle|] != needle
    ensures (exists i :: OccursAt(needle, hay, i)) <==> (exists i :: OccursAt(needle, hay[1..], i))
  {
    forall i | OccursAt(needle, hay, i)
      ensures OccursAt(needle, hay[1..], i - 1)
    {
      assert i != 0;
      assert hay[1..][i - 1..i - 1 + |needle|] == hay[i..i + |needle|];
    }
    forall i | OccursAt(needle, hay[1..], i)
      ensures OccursAt(needle, hay, i + 1)
    {
      assert hay[1..][i..i + |needle|] == hay[i + 1..i + 1 + |needle|];
    }
  }

  /** The empty string is contained in every string; a non-empty one is not contained in "". */
  lemma ContainsEmpty(s: string, t: string)
    ensures Contains("", s)
    ensures t != "" ==> !Contains(t, "")
  {
    assert OccursAt("", s, 0);
  }

  // ---------------------------------------------------------------------------
  // The slice s[:n] for n >= 0

  function Take(s: string, n: nat): (r: string)
    ensures |r| == if |s| < n then |s| else n
    ensures r <= s
  {
    if |s| <= n then s else s[..n]
  }

  // ---------------------------------------------------------------------------
  // str(n) and int(s) for decimal integers

  function DigitChar(d: int): (c: char)
    requires 0 <= d < 10
  {
    ('0' as int + d) as char
  }

  predicate IsDigit(c: char) {
    '0' <= c <= '9'
  }

  function DigitValue(c: char): (d: int)
    requires IsDigit(c)
  {
    c as int - '0' as int
  }

  /** `str(n)` for a natural number: its shortest decimal representation. */
  function NatToString(n: nat): (s: string)
    ensures |s| > 0
    ensures forall i :: 0 <= i < |s| ==> IsDigit(s[i])
    decreases n
  {
    if n < 10 then [DigitChar(n)] else NatToString(n / 10) + [DigitChar(n % 10)]
  }

  /** `str(n)` for an integer. */
  function IntToString(n: int): (s: string)
    ensures |s| > 0
  {
    if n < 0 then "-" + NatToString(-n) else NatToString(n)
  }

  /** The characters Python's `str.strip()` and `int()` treat as whitespace, within ASCII. */
  predicate IsSpace(c: char) {
    c == ' ' || (9 <= c as int <= 13) || (0x1C <= c as int <= 0x1F)
  }

  function StripLeft(s: string): (r: string)
    ensures |r| <= |s| && r == s[|s| - |r|..]
    ensures r == [] || !IsSpace(r[0])
    decreases |s|
  {
    if |s| > 0 && IsSpace(s[0]) then StripLeft(s[1..]) else s
  }

  function StripRight(s: string): (r: string)
    ensures |r| <= |s| && r == s[..|r|]
    ensures r == [] || !IsSpace(r[|r| - 1])
    decreases |s|
  {
    if |s| > 0 && IsSpace(s[|s| - 1]) then StripRight(s[..|s| - 1]) else s
  }

  /** `str.strip()`. */
  function Strip(s: string): (r: string) {
    StripRight(StripLeft(s))
  }

  /**
   * The digit part accepted by `int()` in base 10: one or more ASCII digits,
   * with single underscores allowed between two digits.
   */
  predicate ValidDigits(b: string) {
    && |b| > 0
    && IsDigit(b[0])
    && IsDigit(b[|b| - 1])
    && (forall i :: 0 <= i < |b| ==> IsDigit(b[i]) || b[i] == '_')
    && (forall i :: 0 <= i < |b| - 1 ==> b[i] == '_' ==> b[i + 1] != '_')
  }

  /** The value of a digit string, underscores ignored. */
  function DigitsValue(b: string): (v: nat)
    requires forall i :: 0 <= i < |b| ==> IsDigit(b[i]) || b[i] == '_'
    decreases |b|
  {
    if |b| == 0 then 0
    else
      var last := b[|b| - 1];
      if last == '_' then DigitsValue(b[..|b| - 1])
      else DigitsValue(b[..|b| - 1]) * 10 + DigitValue(last)
  }

  /**
   * CPython's default limit on decimal conversions (`sys.int_info.default_max_str_digits`,
   * from 3.11 on): `int(s)` raises ValueError for a digit part of more digits, and
   * `str(n)` for a number of more digits.
   */
  const MaxStrDigits := 4300

  /** The number of digits in a digit part; underscores do not count. */
  function DigitCount(b: string): (k: nat)
    ensures k <= |b|
    decreases |b|
  {
    if |b| == 0 then 0
    else DigitCount(b[..|b| - 1]) + (if b[|b| - 1] == '_' then 0 else 1)
  }

  /** The number of digits `str(n)` writes, the sign not counted. */
  function Decimals(n: int): (k: nat)
    ensures k >= 1
  {
    |NatToString(if n < 0 then -n else n)|
  }

  /** Python's `int(s)` on a string; `None` stands for the ValueError it raises. */
  function ParseInt(s: string): (r: Option<int>)
    ensures r.Some? ==> Strip(s) != ""
  {
    ParseSigned(Strip(s))
  }

  /** A valid digit part within the digit limit, read as a number. */
  function ParseDigits(d: string): (r: Option<nat>)
    ensures r.Some? <==> ValidDigits(d) && DigitCount(d) <= MaxStrDigits
  {
    if ValidDigits(d) && DigitCount(d) <= MaxStrDigits then Some(DigitsValue(d)) else None
  }

  /** An optional sign followed by a digit part. */
  function ParseSigned(t: string): (r: Option<int>) {
    var signed := |t| > 0 && (t[0] == '+' || t[0] == '-');
    match ParseDigits(if signed then t[1..] else t)
    case None => None
    case Some(v) =>
      var n: int := v;
      Some(if signed && t[0] == '-' then -n else n)
  }

  lemma {:induction false} DigitsValueOfNatToString(n: nat)
    ensures DigitsValue(NatToString(n)) == n
    ensures DigitCount(NatToString(n)) == |NatToString(n)|
    decreases n
  {
    var s := NatToString(n);
    if n < 10 {
    } else {
      DigitsValueOfNatToString(n / 10);
      assert s[..|s| - 1] == NatToString(n / 10);
    }
  }

  /** `str.strip()` leaves alone a string that neither starts nor ends with whitespace. */
  lemma StripUnpadded(s: string)
    requires |s| > 0 && !IsSpace(s[0]) && !IsSpace(s[|s| - 1])
    ensures Strip(s) == s
  {
  }

  lemma NatToStringValid(n: nat)
    ensures ValidDigits(NatToString(n))
  {
    var d := NatToString(n);
    assert forall i :: 0 <= i < |d| ==> IsDigit(d[i]);
  }

  /** What `int()` makes of `str(n)`: `n` itself exactly when its digit part is accepted. */
  lemma ParseIntOfIntToStringParts(n: int)
    ensures var d := NatToString(if n < 0 then -n else n);
      && ValidDigits(d) && DigitCount(d) == Decimals(n)
      && ParseInt(IntToString(n)) == if ParseDigits(d).Some? then Some(n) else None
  {
    var m: nat := if n < 0 then -n else n;
    var d := NatToString(m);
    DigitsValueOfNatToString(m);
    NatToStringValid(m);
    var s := IntToString(n);
    StripUnpadded(s);
    assert ParseInt(s) == ParseSigned(s);
    if n < 0 {
      assert s[0] == '-' && s[1..] == d;
      ParseSignedNegative(d);
    } else {
      ParseSignedUnsigned(d);
    }
  }

  /** A digit part with no sign in front is read as it stands. */
  lemma ParseSignedUnsigned(d: string)
    requires ValidDigits(d)
    ensures ParseSigned(d) == if ParseDigits(d).Some? then Some(DigitsValue(d) as int) else None
  {
    assert IsDigit(d[0]);
  }

  /** A digit part after "-" is read negated. */
  lemma ParseSignedNegative(d: string)
    ensures ParseSigned("-" + d) == if ParseDigits(d).Some? then Some(-(DigitsValue(d) as int)) else None
  {
    var t := "-" + d;
    assert t[0] == '-' && t[1..] == d;
  }

  /** `int(str(n)) == n` for every integer whose decimal form is within the digit limit. */
  lemma ParseIntOfIntToString(n: int)
    requires Decimals(n) <= MaxStrDigits
    ensures ParseInt(IntToString(n)) == Some(n)
  {
    ParseIntOfIntToStringParts(n);
  }

  /** Past the digit limit `int(str(n))` raises ValueError. */
  lemma ParseIntBeyondLimit(n: int)
    requires Decimals(n) > MaxStrDigits
    ensures ParseInt(IntToString(n)) == None
  {
    ParseIntOfIntToStringParts(n);
  }

  function Pow10(k: nat): (p: nat)
    ensures p >= 1
  {
    if k == 0 then 1 else 10 * Pow10(k - 1)
  }

  /** A digit part of k digits is worth less than 10^k. */
  lemma {:induction false} DigitsValueBelow(b: string)
    requires forall i :: 0 <= i < |b| ==> IsDigit(b[i]) || b[i] == '_'
    ensures DigitsValue(b) < Pow10(DigitCount(b))
    decreases |b|
  {
    if |b| > 0 {
      var p := b[..|b| - 1];
      DigitsValueBelow(p);
      if b[|b| - 1] != '_' {
        var v, q := DigitsValue(p), Pow10(DigitCount(p));
        assert v * 10 <= (q - 1) * 10;
      }
    }
  }

  /** A number below 10^k has at most k decimal digits. */
  lemma {:induction false} NatToStringShort(n: nat, k: nat)
    requires k >= 1 && n < Pow10(k)
    ensures |NatToString(n)| <= k
    decreases n
  {
    if n >= 10 {
      assert k >= 2;
      assert n / 10 < Pow10(k - 1);
      NatToStringShort(n / 10, k - 1);
    }
  }

  /** A digit part `int()` accepts is worth a number of at most 4300 digits. */
  lemma ParseDigitsWithinLimit(d: string)
    requires ParseDigits(d).Some?
    ensures |NatToString(ParseDigits(d).value)| <= MaxStrDigits
  {
    assert DigitCount(d) == DigitCount(d[..|d| - 1]) + 1;
    DigitsValueBelow(d);
    NatToStringShort(DigitsValue(d), DigitCount(d));
  }

  /** Whatever `int()` accepts prints back within the digit limit. */
  lemma ParseIntWithinLimit(s: string)
    ensures ParseInt(s).Some? ==> Decimals(ParseInt(s).value) <= MaxStrDigits
  {
    var t := Strip(s);
    var signed := |t| > 0 && (t[0] == '+' || t[0] == '-');
    var d := if signed then t[1..] else t;
    if ParseDigits(d).Some? {
      ParseDigitsWithinLimit(d);
    }
  }

  /** A string that is blank after stripping is not an integer (this covers `int("")`). */
  lemma ParseIntBlank(s: string)
    requires Strip(s) == ""
    ensures ParseInt(s) == None
  {
  }

  // ---------------------------------------------------------------------------
  // UTF-8 (RFC 3629), what `str.encode()` produces

  function Utf8Char(c: char): (r: seq<Byte>)
    ensures 1 <= |r| <= 4
    ensures |r| == 1 <==> c as int < 0x80
    ensures |r| == 1 ==> r[0] == c as int
    ensures forall k :: 1 <= k < |r| ==> 0x80 <= r[k] < 0xC0
  {
    var n := c as int;
    if n < 0x80 then [n]
    else if n < 0x800 then [0xC0 + n / 64, 0x80 + n % 64]
    else if n < 0x10000 then [0xE0 + n / 4096, 0x80 + (n / 64) % 64, 0x80 + n % 64]
    else [0xF0 + n / 262144, 0x80 + (n / 4096) % 64, 0x80 + (n / 64) % 64, 0x80 + n % 64]
  }

  function Utf8Encode(s: string): (r: seq<Byte>)
    ensures |r| >= |s|
    decreases |s|
  {
    if |s| == 0 then [] else Utf8Char(s[0]) + Utf8Encode(s[1..])
  }

  lemma {:induction false} Utf8EncodeAppend(s: string, t: string)
    ensures Utf8Encode(s + t) == Utf8Encode(s) + Utf8Encode(t)
    decreases |s|
  {
    if |s| > 0 {
      assert (s + t)[1..] == s[1..] + t;
      Utf8EncodeAppend(s[1..], t);
    } else {
      assert s + t == t;
    }
  }
}
