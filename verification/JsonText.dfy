/** The lexical level of `encoding/json` that canonical JSON rests on: white space, string literals
    with every escape the decoder accepts, and integer literals. Text is a sequence of Unicode
    scalar values, that is, valid UTF-8. */
module JsonText {

  /** What a scanner makes of the front of a text: a value and the text that follows it. */
  datatype Parsed<+T> = Fail | Ok(value: T, rest: string)

  // ----- white space -----

  predicate IsSpace(c: char) {
    c == ' ' || c == '\t' || c == '\r' || c == '\n'
  }

  /** `Decoder.peek`: drop white space. */
  function SkipSpace(t: string): (u: string)
    ensures |u| <= |t|
    ensures u != "" ==> !IsSpace(u[0])
    ensures t != "" && !IsSpace(t[0]) ==> u == t
  {
    if t != "" && IsSpace(t[0]) then SkipSpace(t[1..]) else t
  }

  // ----- string literals -----

  const REPLACEMENT := '\U{FFFD}'

  function HexDigit(n: int): char
    requires 0 <= n < 16
  {
    "0123456789abcdef"[n]
  }

  function HexValue(c: char): int {
    if '0' <= c <= '9' then c as int - '0' as int
    else if 'a' <= c <= 'f' then c as int - 'a' as int + 10
    else if 'A' <= c <= 'F' then c as int - 'A' as int + 10
    else -1
  }

  /** One character of a string as `json.Marshal` writes it, with HTML escaping on. */
  function EscapeChar(c: char): string {
    if c == '"' || c == '\\' then ['\\', c]
    else if c == '\U{08}' then "\\b"
    else if c == '\U{0C}' then "\\f"
    else if c == '\n' then "\\n"
    else if c == '\r' then "\\r"
    else if c == '\t' then "\\t"
    else if c < ' ' || c == '<' || c == '>' || c == '&' then
      ['\\', 'u', '0', '0', HexDigit(c as int / 16 % 16), HexDigit(c as int % 16)]
    else if c == '\U{2028}' || c == '\U{2029}' then
      ['\\', 'u', '2', '0', '2', HexDigit(c as int % 16)]
    else [c]
  }

  function Escape(s: string): string {
    if s == "" then "" else EscapeChar(s[0]) + Escape(s[1..])
  }

  function Quote(s: string): string {
    ['"'] + Escape(s) + ['"']
  }

  /** `getu4`: the code unit of a `\uXXXX` at the front of `t`, or -1. */
  function CodeUnit(t: string): (u: int)
    ensures -1 <= u < 0x1_0000
    ensures u >= 0 ==> |t| >= 6
  {
    if |t| >= 6 && t[0] == '\\' && t[1] == 'u'
       && HexValue(t[2]) >= 0 && HexValue(t[3]) >= 0 && HexValue(t[4]) >= 0 && HexValue(t[5]) >= 0
    then HexValue(t[2]) * 4096 + HexValue(t[3]) * 256 + HexValue(t[4]) * 16 + HexValue(t[5])
    else -1
  }

  predicate IsHighSurrogate(u: int) { 0xD800 <= u < 0xDC00 }
  predicate IsLowSurrogate(u: int) { 0xDC00 <= u < 0xE000 }

  function CombineSurrogates(high: int, low: int): char
    requires IsHighSurrogate(high) && IsLowSurrogate(low)
  {
    ((high - 0xD800) * 0x400 + (low - 0xDC00) + 0x1_0000) as char
  }

  /** The character a non-empty string body starts with and how much of it that takes.
      A surrogate without its partner becomes the replacement character. */
  function NextChar(t: string): (r: Parsed<char>)
    requires t != ""
    ensures r.Ok? ==> |r.rest| < |t|
  {
    if t[0] == '"' || t[0] < ' ' then Fail
    else if t[0] != '\\' then Ok(t[0], t[1..])
    else if |t| == 1 then Fail
    else if t[1] == '"' || t[1] == '\\' || t[1] == '/' then Ok(t[1], t[2..])
    else if t[1] == 'b' then Ok('\U{08}', t[2..])
    else if t[1] == 'f' then Ok('\U{0C}', t[2..])
    else if t[1] == 'n' then Ok('\n', t[2..])
    else if t[1] == 'r' then Ok('\r', t[2..])
    else if t[1] == 't' then Ok('\t', t[2..])
    else
      var u := CodeUnit(t);
      if u < 0 then Fail
      else if IsHighSurrogate(u) && IsLowSurrogate(CodeUnit(t[6..])) then
        Ok(CombineSurrogates(u, CodeUnit(t[6..])), t[12..])
      else if IsHighSurrogate(u) || IsLowSurrogate(u) then Ok(REPLACEMENT, t[6..])
      else Ok(u as char, t[6..])
  }

  /** A string body up to and including its closing quote. */
  function ScanString(t: string): (r: Parsed<string>)
    ensures r.Ok? ==> |r.rest| < |t|
    decreases |t|
  {
    if t == "" then Fail
    else if t[0] == '"' then Ok("", t[1..])
    else
      var c := NextChar(t);
      if c.Fail? then Fail
      else
        var tail := ScanString(c.rest);
        if tail.Fail? then Fail else Ok([c.value] + tail.value, tail.rest)
  }

  lemma HexRoundTrip(n: int)
    requires 0 <= n < 16
    ensures HexValue(HexDigit(n)) == n
  {
  }

  /** Does `json.Marshal` write this character as a `\uXXXX`? */
  predicate WrittenAsUnit(c: char) {
    || (c < ' ' && c != '\U{08}' && c != '\U{0C}' && c != '\n' && c != '\r' && c != '\t')
    || c == '<' || c == '>' || c == '&' || c == '\U{2028}' || c == '\U{2029}'
  }

  lemma CodeUnitOf(a: int, b: int, c: int, d: int, t: string)
    requires 0 <= a < 16 && 0 <= b < 16 && 0 <= c < 16 && 0 <= d < 16
    ensures CodeUnit(['\\', 'u', HexDigit(a), HexDigit(b), HexDigit(c), HexDigit(d)] + t) == a * 4096 + b * 256 + c * 16 + d
  {
    HexRoundTrip(a);
    HexRoundTrip(b);
    HexRoundTrip(c);
    HexRoundTrip(d);
  }

  lemma HexDigits(n: int)
    requires 0 <= n < 256
    ensures n / 16 % 16 * 16 + n % 16 == n
  {
  }

  lemma UnitRoundTrip(c: char, t: string)
    requires WrittenAsUnit(c)
    ensures |EscapeChar(c)| == 6
    ensures CodeUnit(EscapeChar(c) + t) == c as int
  {
    var n := c as int;
    if c == '\U{2028}' || c == '\U{2029}' {
      CodeUnitOf(2, 0, 2, n % 16, t);
      assert EscapeChar(c) == ['\\', 'u', HexDigit(2), HexDigit(0), HexDigit(2), HexDigit(n % 16)];
    } else {
      HexDigits(n);
      CodeUnitOf(0, 0, n / 16 % 16, n % 16, t);
      assert EscapeChar(c) == ['\\', 'u', HexDigit(0), HexDigit(0), HexDigit(n / 16 % 16), HexDigit(n % 16)];
    }
  }

  lemma UnitCharRoundTrip(c: char, t: string)
    requires WrittenAsUnit(c)
    ensures NextChar(EscapeChar(c) + t) == Ok(c, t)
  {
    UnitRoundTrip(c, t);
    var e := EscapeChar(c) + t;
    assert e[0] == '\\' && e[1] == 'u';
    assert e[6..] == t;
  }

  lemma ShortCharRoundTrip(c: char, t: string)
    requires !WrittenAsUnit(c)
    ensures NextChar(EscapeChar(c) + t) == Ok(c, t)
  {
    var e := EscapeChar(c) + t;
    assert e[|EscapeChar(c)|..] == t;
    assert e[0] == EscapeChar(c)[0];
    assert |EscapeChar(c)| == 2 ==> e[1] == EscapeChar(c)[1];
  }

  lemma CharRoundTrip(c: char, t: string)
    ensures EscapeChar(c) != "" && EscapeChar(c)[0] != '"'
    ensures NextChar(EscapeChar(c) + t) == Ok(c, t)
  {
    if WrittenAsUnit(c) { UnitCharRoundTrip(c, t); } else { ShortCharRoundTrip(c, t); }
  }

  lemma ScanStep(t: string, c: char, rest: string)
    requires t != "" && t[0] != '"' && NextChar(t) == Ok(c, rest)
    ensures ScanString(t) == var tail := ScanString(rest);
                             if tail.Fail? then Fail else Ok([c] + tail.value, tail.rest)
  {
  }

  lemma EscapeSplit(s: string, tail: string)
    requires s != ""
    ensures Escape(s) + tail == EscapeChar(s[0]) + (Escape(s[1..]) + tail)
  {
  }

  /** What `json.Marshal` writes for a string, the decoder reads back. */
  lemma {:induction false} StringRoundTrip(s: string, rest: string)
    ensures ScanString(Escape(s) + (['"'] + rest)) == Ok(s, rest)
  {
    if s == "" {
      assert Escape(s) + (['"'] + rest) == ['"'] + rest;
    } else {
      var tail := Escape(s[1..]) + (['"'] + rest);
      EscapeSplit(s, ['"'] + rest);
      CharRoundTrip(s[0], tail);
      ScanStep(EscapeChar(s[0]) + tail, s[0], tail);
      StringRoundTrip(s[1..], rest);
      assert s == [s[0]] + s[1..];
    }
  }

  /** A written string contains no NUL: control characters are always escaped. */
  lemma {:induction false} EscapeHasNoNul(s: string)
    ensures '\0' !in Escape(s)
  {
    if s != "" {
      EscapeHasNoNul(s[1..]);
    }
  }

  // ----- integer literals -----

  const INT64_MIN: int := -0x8000_0000_0000_0000
  const INT64_MAX: int := 0x7FFF_FFFF_FFFF_FFFF

  predicate IsDigit(c: char) { '0' <= c <= '9' }

  function DigitValue(c: char): (d: int)
    requires IsDigit(c)
    ensures 0 <= d < 10
  {
    c as int - '0' as int
  }

  function DecimalNat(n: nat): (ds: string)
    ensures ds != ""
  {
    if n < 10 then [(n + '0' as int) as char]
    else DecimalNat(n / 10) + [(n % 10 + '0' as int) as char]
  }

  /** `strconv.FormatInt(n, 10)`. */
  function Decimal(n: int): string {
    if n < 0 then ['-'] + DecimalNat(-n) else DecimalNat(n)
  }

  /** The longest run of digits at the front of `t`. */
  function TakeDigits(t: string): (r: (string, string))
    ensures t == r.0 + r.1
    ensures forall i | 0 <= i < |r.0| :: IsDigit(r.0[i])
    ensures t != "" && IsDigit(t[0]) ==> r.0 != ""
  {
    if t != "" && IsDigit(t[0]) then
      var (ds, rest) := TakeDigits(t[1..]);
      ([t[0]] + ds, rest)
    else ("", t)
  }

  function NatValue(ds: string): (n: int)
    requires forall i | 0 <= i < |ds| :: IsDigit(ds[i])
    ensures n >= 0
  {
    if ds == "" then 0 else NatValue(ds[..|ds| - 1]) * 10 + DigitValue(ds[|ds| - 1])
  }

  /** The digits of a number token. The decoder ends the token after a leading zero; a fraction or an
      exponent is refused whether or not it is well formed. */
  function ScanDigits(u: string): (r: Parsed<int>)
    ensures r.Ok? ==> |r.rest| < |u| && r.value >= 0
  {
    if u == "" || !IsDigit(u[0]) then Fail
    else
      var (ds, rest) := if u[0] == '0' then ("0", u[1..]) else TakeDigits(u);
      if rest != "" && (rest[0] == '.' || rest[0] == 'e' || rest[0] == 'E') then Fail
      else Ok(NatValue(ds), rest)
  }

  /** A number token as `parseValue` admits it: a minus may not be followed by a zero, and the value
      must fit in 64 bits. */
  function ScanInt(t: string): (r: Parsed<int>)
    ensures r.Ok? ==> |r.rest| < |t| && INT64_MIN <= r.value <= INT64_MAX
  {
    if t != "" && t[0] == '-' then
      var m := ScanDigits(t[1..]);
      if m.Fail? || t[1] == '0' || -m.value < INT64_MIN then Fail else Ok(-m.value, m.rest)
    else
      var m := ScanDigits(t);
      if m.Fail? || m.value > INT64_MAX then Fail else m
  }

  /** The text after a number that does not run on into it. */
  predicate EndsNumber(rest: string) {
    rest == "" || !(IsDigit(rest[0]) || rest[0] == '.' || rest[0] == 'e' || rest[0] == 'E')
  }

  lemma {:induction false} DecimalNatValue(n: nat)
    ensures forall i | 0 <= i < |DecimalNat(n)| :: IsDigit(DecimalNat(n)[i])
    ensures NatValue(DecimalNat(n)) == n
    ensures DecimalNat(n)[0] == '0' <==> n == 0
  {
    var ds := DecimalNat(n);
    if n < 10 {
      assert ds[..0] == "";
    } else {
      DecimalNatValue(n / 10);
      assert ds[..|ds| - 1] == DecimalNat(n / 10);
    }
  }

  lemma {:induction false} TakeDigitsExact(ds: string, rest: string)
    requires forall i | 0 <= i < |ds| :: IsDigit(ds[i])
    requires rest == "" || !IsDigit(rest[0])
    ensures TakeDigits(ds + rest) == (ds, rest)
  {
    if ds == "" {
      assert ds + rest == rest;
    } else {
      assert (ds + rest)[1..] == ds[1..] + rest;
      TakeDigitsExact(ds[1..], rest);
      assert ds == [ds[0]] + ds[1..];
    }
  }

  lemma NaturalRoundTrip(n: nat, rest: string)
    requires EndsNumber(rest)
    ensures ScanDigits(DecimalNat(n) + rest) == Ok(n, rest)
    ensures IsDigit((DecimalNat(n) + rest)[0])
    ensures (DecimalNat(n) + rest)[0] == '0' <==> n == 0
  {
    var ds := DecimalNat(n);
    DecimalNatValue(n);
    assert (ds + rest)[0] == ds[0];
    if n == 0 {
      assert ds == "0";
      assert (ds + rest)[1..] == rest;
    } else {
      TakeDigitsExact(ds, rest);
    }
  }

  lemma ScanNegative(digits: string, n: int, rest: string)
    requires digits != "" && digits[0] != '0' && ScanDigits(digits) == Ok(n, rest)
    ensures ScanInt(['-'] + digits) == if -n >= INT64_MIN then Ok(-n, rest) else Fail
  {
    AfterMinus(digits);
  }

  lemma AfterMinus(digits: string)
    requires digits != ""
    ensures var t := ['-'] + digits; t[0] == '-' && t[1..] == digits && t[1] == digits[0]
  {
  }

  lemma ScanPositive(digits: string, n: int, rest: string)
    requires digits != "" && IsDigit(digits[0]) && ScanDigits(digits) == Ok(n, rest)
    ensures ScanInt(digits) == if n <= INT64_MAX then Ok(n, rest) else Fail
  {
  }

  lemma AppendRest(a: string, b: string, c: string)
    ensures a + b + c == a + (b + c)
  {
  }

  /** An integer that is written is read back, or refused when it does not fit in 64 bits. */
  lemma IntRoundTrip(n: int, rest: string)
    requires EndsNumber(rest)
    ensures ScanInt(Decimal(n) + rest) == if INT64_MIN <= n <= INT64_MAX then Ok(n, rest) else Fail
  {
    var digits := DecimalNat(if n < 0 then -n else n);
    NaturalRoundTrip(if n < 0 then -n else n, rest);
    if n < 0 {
      ScanNegative(digits + rest, -n, rest);
      AppendRest(['-'], digits, rest);
    } else {
      ScanPositive(digits + rest, n, rest);
    }
  }

  /** The first character of a written integer is a minus or a digit, and none is NUL. */
  lemma DecimalStart(n: int)
    ensures Decimal(n) != "" && (Decimal(n)[0] == '-' || IsDigit(Decimal(n)[0]))
    ensures '\0' !in Decimal(n)
  {
    DecimalNatValue(if n < 0 then -n else n);
  }
}
