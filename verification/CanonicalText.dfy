/** What canonical text looks like, character by character, and what the strict parser refuses. */
module CanonicalText {
  import opened GoStrings
  import opened JsonText
  import opened Json
  import opened Canonical

  // ----- the order of members -----

  lemma {:induction false} ArrangedMember(v: Value, keys: seq<string>, i: nat)
    requires v.Obj? && (forall k | k in keys :: k in v.members) && i < |keys|
    ensures |ArrangeMembers(v, keys)| == |keys|
    ensures keys[i] in v.members && ArrangeMembers(v, keys)[i] == (keys[i], Arrange(v.members[keys[i]]))
    decreases |keys|
  {
    assert keys[i] in keys;
    if |keys| > 1 {
      ArrangedMember(v, keys[1..], if i > 0 then i - 1 else 0);
    }
  }

  /** The members of an object are written each once, and of any two the one with the smaller name comes first: a proper prefix,
      or the smaller code point at the first place where they differ. */
  lemma MembersAreSorted(v: Value)
    requires v.Obj?
    ensures Arrange(v).RObj?
    ensures var written := Arrange(v).members;
            && |written| == |v.members|
            && (forall i | 0 <= i < |written| ::
                  written[i].0 in v.members && written[i].1 == Arrange(v.members[written[i].0]))
            && (forall i, j | 0 <= i < j < |written| :: SmallerAtFirstDifference(written[i].0, written[j].0))
  {
    var keys := Ascending(v.members.Keys);
    var written := Arrange(v).members;
    assert written == ArrangeMembers(v, keys);
    if keys != [] { ArrangedMember(v, keys, 0); }
    forall i | 0 <= i < |keys|
      ensures written[i].0 == keys[i] && written[i].0 in v.members && written[i].1 == Arrange(v.members[written[i].0])
    {
      ArrangedMember(v, keys, i);
    }
    forall i, j | 0 <= i < j < |written| ensures SmallerAtFirstDifference(written[i].0, written[j].0) {
      BeforeIff(keys[i], keys[j]);
    }
  }

  /** `Marshal` prints an object as its members in that order. */
  lemma MarshalSortsMembers(t: string)
    requires ParseStrict(t).Some? && ParseStrict(t).value.Obj?
    ensures exists written :: SortedListing(ParseStrict(t).value.members, written) && Marshal(t) == Some(Encode(RObj(written)))
  {
    var v := ParseStrict(t).value;
    MembersAreSorted(v);
    assert SortedListing(v.members, Arrange(v).members);
  }

  ghost predicate SortedListing(members: map<string, Value>, written: seq<(string, Raw)>) {
    && |written| == |members|
    && (forall i | 0 <= i < |written| :: written[i].0 in members && written[i].1 == Arrange(members[written[i].0]))
    && (forall i, j | 0 <= i < j < |written| :: SmallerAtFirstDifference(written[i].0, written[j].0))
  }

  // ----- no white space -----

  /** No string in the document, name or value, contains a blank. */
  ghost predicate NoBlanks(r: Raw)
    decreases r
  {
    match r
    case RStr(s) => ' ' !in s
    case RArr(items) => forall i | 0 <= i < |items| :: NoBlanks(items[i])
    case RObj(members) => forall i | 0 <= i < |members| ::
      members[i].1 < members[i] && ' ' !in members[i].0 && NoBlanks(members[i].1)
    case _ => true
  }

  ghost predicate Spaceless(t: string) {
    forall i | 0 <= i < |t| :: !IsSpace(t[i])
  }

  lemma SpacelessConcat(a: string, b: string)
    requires Spaceless(a) && Spaceless(b)
    ensures Spaceless(a + b)
  {
  }

  lemma EscapedCharSpaceless(c: char)
    requires c != ' '
    ensures Spaceless(EscapeChar(c))
  {
  }

  lemma {:induction false} EscapedSpaceless(s: string)
    requires ' ' !in s
    ensures Spaceless(Escape(s))
  {
    if s != "" {
      assert s[0] in s;
      EscapedCharSpaceless(s[0]);
      EscapedSpaceless(s[1..]);
    }
  }

  lemma {:induction false} DigitsSpaceless(n: nat)
    ensures Spaceless(DecimalNat(n))
  {
    DecimalNatValue(n);
  }

  /** Canonical text has white space only inside strings. */
  lemma {:induction false} NoSpaceOutsideStrings(r: Raw)
    requires NoBlanks(r)
    ensures Spaceless(Encode(r))
    decreases r, 1
  {
    match r
    case RStr(s) => EscapedSpaceless(s);
    case RInt(n) => DigitsSpaceless(if n < 0 then -n else n);
    case RArr(items) => ItemsSpaceless(items, true);
    case RObj(members) => MembersSpaceless(members, true);
    case _ =>
  }

  lemma {:induction false} ItemsSpaceless(items: seq<Raw>, first: bool)
    requires forall i | 0 <= i < |items| :: NoBlanks(items[i])
    ensures Spaceless(EncodeItems(items, first))
    decreases items, 0
  {
    if items != [] {
      NoSpaceOutsideStrings(items[0]);
      ItemsSpaceless(items[1..], false);
      SpacelessConcat(Comma(first) + Encode(items[0]), EncodeItems(items[1..], false));
    }
  }

  lemma {:induction false} MembersSpaceless(members: seq<(string, Raw)>, first: bool)
    requires forall i | 0 <= i < |members| :: ' ' !in members[i].0 && NoBlanks(members[i].1)
    ensures Spaceless(EncodeMembers(members, first))
    decreases members, 0
  {
    if members != [] {
      assert members[0].1 < members[0];
      NoSpaceOutsideStrings(members[0].1);
      EscapedSpaceless(members[0].0);
      MembersSpaceless(members[1..], false);
      SpacelessConcat(Comma(first) + Quote(members[0].0) + [':'] + Encode(members[0].1), EncodeMembers(members[1..], false));
    }
  }

  // ----- strings -----

  /** A character that `json.Marshal` writes as it is. */
  predicate Plain(c: char) {
    c >= ' ' && c !in ['"', '\\', '<', '>', '&', '\U{2028}', '\U{2029}']
  }

  lemma PlainCharUnchanged(c: char)
    requires Plain(c)
    ensures EscapeChar(c) == [c]
  {
  }

  /** A text of plain characters is written unchanged. */
  lemma {:induction false} PlainTextUnchanged(s: string)
    requires forall i | 0 <= i < |s| :: Plain(s[i])
    ensures Escape(s) == s
  {
    if s != "" {
      PlainTextUnchanged(s[1..]);
      PlainCharUnchanged(s[0]);
      assert s == [s[0]] + s[1..];
    }
  }

  lemma EscapeOne(c: char)
    ensures Escape([c]) == EscapeChar(c)
  {
    assert [c][1..] == "";
    assert EscapeChar(c) + "" == EscapeChar(c);
  }

  /** Quotes, backslashes and the control characters that have a letter are written as two characters. */
  lemma ShortEscapes()
    ensures Escape("\"") == "\\\"" && Escape("\\") == "\\\\"
    ensures Escape("\n") == "\\n" && Escape("\r") == "\\r" && Escape("\t") == "\\t"
    ensures Escape(['\U{08}']) == "\\b" && Escape(['\U{0C}']) == "\\f"
  {
    EscapeOne('"');
    EscapeOne('\\');
    EscapeOne('\n');
    EscapeOne('\r');
    EscapeOne('\t');
    EscapeOne('\U{08}');
    EscapeOne('\U{0C}');
  }

  /** The HTML characters and the line separators are written as code units, in lower case. */
  lemma UnitEscapes()
    ensures Escape("<") == "\\u003c" && Escape(">") == "\\u003e" && Escape("&") == "\\u0026"
    ensures Escape(['\U{2028}']) == "\\u2028" && Escape(['\U{2029}']) == "\\u2029"
    ensures Escape(['\U{0}']) == "\\u0000" && Escape(['\U{1F}']) == "\\u001f"
  {
    EscapeOne('<');
    EscapeOne('>');
    EscapeOne('&');
    EscapeOne('\U{2028}');
    EscapeOne('\U{2029}');
    EscapeOne('\U{0}');
    EscapeOne('\U{1F}');
  }

  /** Whatever the string, its written form has only plain characters, quotes and backslashes. */
  lemma {:induction false} EscapedIsPlain(s: string)
    ensures forall i | 0 <= i < |Escape(s)| :: Plain(Escape(s)[i]) || Escape(s)[i] == '\\' || Escape(s)[i] == '"'
  {
    if s != "" {
      EscapedCharIsPlain(s[0]);
      EscapedIsPlain(s[1..]);
    }
  }

  lemma EscapedCharIsPlain(c: char)
    ensures forall i | 0 <= i < |EscapeChar(c)| :: Plain(EscapeChar(c)[i]) || EscapeChar(c)[i] == '\\' || EscapeChar(c)[i] == '"'
  {
  }

  // ----- escapes that are read though never written -----

  function HexDigitOf(n: int, upper: bool): char
    requires 0 <= n < 16
  {
    if upper then "0123456789ABCDEF"[n] else "0123456789abcdef"[n]
  }

  /** A code unit as four hexadecimal digits after a backslash and a u. */
  function Unit(u: int, upper: bool): string
    requires 0 <= u < 0x1_0000
  {
    ['\\', 'u', HexDigitOf(u / 4096, upper), HexDigitOf(u / 256 % 16, upper), HexDigitOf(u / 16 % 16, upper), HexDigitOf(u % 16, upper)]
  }

  lemma HexDigitRead(n: int, upper: bool)
    requires 0 <= n < 16
    ensures HexValue(HexDigitOf(n, upper)) == n
  {
  }

  lemma FourDigits(u: int)
    requires 0 <= u < 0x1_0000
    ensures u == u / 4096 * 4096 + u / 256 % 16 * 256 + u / 16 % 16 * 16 + u % 16
  {
    assert u / 4096 == u / 256 / 16 && u / 256 == u / 16 / 16;
  }

  lemma DigitsRead(a: int, b: int, c: int, d: int, upper: bool, t: string)
    requires 0 <= a < 16 && 0 <= b < 16 && 0 <= c < 16 && 0 <= d < 16
    ensures CodeUnit(['\\', 'u', HexDigitOf(a, upper), HexDigitOf(b, upper), HexDigitOf(c, upper), HexDigitOf(d, upper)] + t)
         == a * 4096 + b * 256 + c * 16 + d
  {
    HexDigitRead(a, upper);
    HexDigitRead(b, upper);
    HexDigitRead(c, upper);
    HexDigitRead(d, upper);
  }

  lemma UnitRead(u: int, upper: bool, t: string)
    requires 0 <= u < 0x1_0000
    ensures CodeUnit(Unit(u, upper) + t) == u
  {
    FourDigits(u);
    DigitsRead(u / 4096, u / 256 % 16, u / 16 % 16, u % 16, upper, t);
  }

  /** Any code unit that is not half of a pair stands for its character, in either case of digits; half a pair alone for U+FFFD. */
  lemma SingleUnitRead(u: int, upper: bool, rest: string)
    requires 0 <= u < 0x1_0000
    requires 0xD800 <= u < 0xDC00 ==> !(0xDC00 <= CodeUnit(rest) < 0xE000)
    ensures NextChar(Unit(u, upper) + rest) == Ok(if 0xD800 <= u < 0xE000 then '\U{FFFD}' else u as char, rest)
  {
    UnitRead(u, upper, rest);
    var t := Unit(u, upper) + rest;
    assert t[0] == '\\' && t[1] == 'u' && t[6..] == rest;
  }

  lemma UnitsRead(high: int, low: int, upper: bool, rest: string)
    requires IsHighSurrogate(high) && IsLowSurrogate(low)
    ensures NextChar(Unit(high, upper) + (Unit(low, upper) + rest)) == Ok(CombineSurrogates(high, low), rest)
  {
    UnitRead(high, upper, Unit(low, upper) + rest);
    UnitRead(low, upper, rest);
    PairNext(Unit(high, upper), Unit(low, upper), high, low, rest);
  }

  lemma PairNext(a: string, b: string, high: int, low: int, rest: string)
    requires |a| == |b| == 6 && a[0] == '\\' && a[1] == 'u' && IsHighSurrogate(high) && IsLowSurrogate(low)
    requires CodeUnit(a + (b + rest)) == high && CodeUnit(b + rest) == low
    ensures NextChar(a + (b + rest)) == Ok(CombineSurrogates(high, low), rest)
  {
    var t := a + (b + rest);
    assert t[0] == '\\' && t[1] == 'u' && t[6..] == b + rest && t[12..] == rest;
  }

  lemma PairOf(c: char)
    requires c as int >= 0x1_0000
    ensures var above := c as int - 0x1_0000;
            && IsHighSurrogate(0xD800 + above / 0x400) && IsLowSurrogate(0xDC00 + above % 0x400)
            && CombineSurrogates(0xD800 + above / 0x400, 0xDC00 + above % 0x400) == c
  {
    var above := c as int - 0x1_0000;
    assert above / 0x400 * 0x400 + above % 0x400 == above;
  }

  /** The pair that UTF-16 has for a character beyond U+FFFF stands for that character. */
  lemma PairRead(c: char, upper: bool, rest: string)
    requires c as int >= 0x1_0000
    ensures var above := c as int - 0x1_0000;
            NextChar(Unit(0xD800 + above / 0x400, upper) + (Unit(0xDC00 + above % 0x400, upper) + rest)) == Ok(c, rest)
  {
    var above := c as int - 0x1_0000;
    PairOf(c);
    UnitsRead(0xD800 + above / 0x400, 0xDC00 + above % 0x400, upper, rest);
  }

  predicate IsHex(c: char) {
    c in "0123456789abcdefABCDEF"
  }

  lemma HexValueIff(c: char)
    ensures HexValue(c) >= 0 <==> IsHex(c)
  {
    if '0' <= c <= '9' {
      assert "0123456789abcdefABCDEF"[c as int - '0' as int] == c;
    } else if 'a' <= c <= 'f' {
      assert "0123456789abcdefABCDEF"[c as int - 'a' as int + 10] == c;
    } else if 'A' <= c <= 'F' {
      assert "0123456789abcdefABCDEF"[c as int - 'A' as int + 16] == c;
    }
  }

  /** A code unit stands only where a backslash, a u and four hexadecimal digits do; an escape that starts otherwise is refused. */
  lemma CodeUnitIff(t: string, rest: string)
    ensures CodeUnit(t) >= 0
       <==> |t| >= 6 && t[0] == '\\' && t[1] == 'u' && IsHex(t[2]) && IsHex(t[3]) && IsHex(t[4]) && IsHex(t[5])
    ensures !(|rest| >= 4 && IsHex(rest[0]) && IsHex(rest[1]) && IsHex(rest[2]) && IsHex(rest[3])) ==>
              NextChar(['\\', 'u'] + rest) == Fail
  {
    if |t| >= 6 {
      HexValueIff(t[2]);
      HexValueIff(t[3]);
      HexValueIff(t[4]);
      HexValueIff(t[5]);
    }
    if |rest| >= 4 {
      HexValueIff(rest[0]);
      HexValueIff(rest[1]);
      HexValueIff(rest[2]);
      HexValueIff(rest[3]);
    }
  }

  /** A slash may be escaped; no control character may stand in a string, and no other letter after a backslash. */
  lemma OtherCharacters(c: char, rest: string)
    ensures NextChar("\\/" + rest) == Ok('/', rest)
    ensures c < ' ' ==> NextChar([c] + rest) == Fail
    ensures c !in ['"', '\\', '/', 'b', 'f', 'n', 'r', 't', 'u'] ==> NextChar(['\\', c] + rest) == Fail
  {
    assert ("\\/" + rest)[2..] == rest;
  }

  // ----- integers -----

  /** A number without a leading zero is what `strconv` prints for its value. */
  lemma {:induction false} DigitsAreDecimal(ds: string)
    requires ds != "" && (forall i | 0 <= i < |ds| :: IsDigit(ds[i])) && (ds[0] == '0' ==> |ds| == 1)
    ensures DecimalNat(NatValue(ds)) == ds
    ensures ds[0] != '0' ==> NatValue(ds) > 0
    decreases |ds|
  {
    var n := |ds| - 1;
    var d := DigitValue(ds[n]);
    assert (d + '0' as int) as char == ds[n];
    if n == 0 {
      assert ds[..0] == "";
      assert ds == [ds[0]];
    } else {
      DigitsAreDecimal(ds[..n]);
      assert NatValue(ds) / 10 == NatValue(ds[..n]) && NatValue(ds) % 10 == d;
      assert ds == ds[..n] + [ds[n]];
    }
  }

  /** Where the text of an integer may end: before anything but a fraction or an exponent, and before a digit only after a zero. */
  predicate EndsInt(n: int, rest: string) {
    rest == "" || (rest[0] !in ['.', 'e', 'E'] && (n == 0 || !IsDigit(rest[0])))
  }

  lemma ZeroRead(rest: string)
    requires rest == "" || rest[0] !in ['.', 'e', 'E']
    ensures ScanDigits(['0'] + rest) == Ok(0, rest)
  {
    assert (['0'] + rest)[1..] == rest;
    assert "0"[..0] == "";
  }

  lemma DigitsReadIff(t: string, n: nat, rest: string)
    ensures ScanDigits(t) == Ok(n, rest) <==> t == DecimalNat(n) + rest && EndsInt(n, rest)
  {
    if ScanDigits(t) == Ok(n, rest) {
      var ds := if t[0] == '0' then "0" else TakeDigits(t).0;
      assert t == ds + rest;
      DigitsAreDecimal(ds);
      TakeDigitsStop(t);
    }
    if t == DecimalNat(n) + rest && EndsInt(n, rest) {
      if n == 0 { ZeroRead(rest); } else { NaturalRoundTrip(n, rest); }
    }
  }

  lemma {:induction false} TakeDigitsStop(t: string)
    ensures TakeDigits(t).1 == "" || !IsDigit(TakeDigits(t).1[0])
  {
    if t != "" && IsDigit(t[0]) { TakeDigitsStop(t[1..]); }
  }

  /** An integer is read exactly where its own decimal text stands: no sign but a minus, no leading zero, no minus zero,
      no fraction, no exponent, and nothing beyond 64 bits. */
  lemma IntReadIff(t: string, n: int, rest: string)
    ensures ScanInt(t) == Ok(n, rest)
       <==> t == Decimal(n) + rest && EndsInt(n, rest) && -0x8000_0000_0000_0000 <= n < 0x8000_0000_0000_0000
  {
    if t != "" && t[0] == '-' { NegativeReadIff(t, n, rest); } else { NaturalReadIff(t, n, rest); }
  }

  lemma NegativeReadIff(t: string, n: int, rest: string)
    requires t != "" && t[0] == '-'
    ensures ScanInt(t) == Ok(n, rest) <==> t == Decimal(n) + rest && EndsInt(n, rest) && n >= -0x8000_0000_0000_0000
  {
    DecimalNatValue(if n < 0 then -n else n);
    if n < 0 {
      DigitsReadIff(t[1..], -n, rest);
      AfterSign(t, DecimalNat(-n), rest);
    } else {
      if ScanInt(t) == Ok(n, rest) {
        DigitsReadIff(t[1..], 0, rest);
        AfterSign(t, DecimalNat(0), rest);
      }
    }
  }

  lemma AfterSign(t: string, digits: string, rest: string)
    requires t != "" && t[0] == '-' && digits != ""
    ensures t == ['-'] + digits + rest <==> t[1..] == digits + rest
    ensures t[1..] == digits + rest ==> t[1] == digits[0]
  {
    assert t == ['-'] + t[1..];
    if t[1..] == digits + rest { assert t == ['-'] + digits + rest; }
  }

  lemma NaturalReadIff(t: string, n: int, rest: string)
    requires t == "" || t[0] != '-'
    ensures ScanInt(t) == Ok(n, rest) <==> t == Decimal(n) + rest && EndsInt(n, rest) && n < 0x8000_0000_0000_0000
  {
    if n >= 0 { DigitsReadIff(t, n, rest); }
  }

  // ----- white space between tokens, and what may follow the document -----

  lemma SkipOne(c: char, t: string)
    requires c in [' ', '\t', '\r', '\n']
    ensures SkipSpace([c] + t) == SkipSpace(t)
  {
    assert ([c] + t)[1..] == t;
  }

  /** Blanks, tabs and line ends are ignored before every token. */
  lemma SpaceIgnored(c: char, t: string, seen: map<string, Value>, first: bool)
    requires c in [' ', '\t', '\r', '\n']
    ensures ParseValue([c] + t) == ParseValue(t)
    ensures ParseItems([c] + t, first) == ParseItems(t, first)
    ensures ParseMembers([c] + t, seen, first) == ParseMembers(t, seen, first)
    ensures ParseName([c] + t) == ParseName(t)
  {
    SkipOne(c, t);
  }

  /** No other character may stand in front of a value than those that can start one. */
  lemma StartsValue(c: char, t: string)
    requires ParseValue([c] + t).Ok?
    ensures c in [' ', '\t', '\r', '\n'] || c in ['[', '{', '"', '-', 'n', 't', 'f'] || '0' <= c <= '9'
  {
    var u := [c] + t;
    assert u[0] == c;
    if !IsSpace(c) {
      assert SkipSpace(u) == u;
      assert "null" <= u ==> u[0] == "null"[0];
      assert "true" <= u ==> u[0] == "true"[0];
      assert "false" <= u ==> u[0] == "false"[0];
    }
  }

  /** Only white space comes before position n, and there the text ends or a bracket closes. */
  predicate ClosesAt(t: string, n: nat) {
    n <= |t| && (forall i | 0 <= i < n :: t[i] in [' ', '\t', '\r', '\n']) && (n == |t| || t[n] == ']' || t[n] == '}')
  }

  lemma {:induction false} TailIff(t: string)
    ensures TolerableTail(t) <==> exists n: nat :: ClosesAt(t, n)
  {
    if t != "" && IsSpace(t[0]) {
      TailIff(t[1..]);
      if n: nat :| ClosesAt(t[1..], n) {
        assert forall i | 0 < i <= n :: t[i] == t[1..][i - 1];
        assert ClosesAt(t, n + 1);
      }
      if n: nat :| ClosesAt(t, n) {
        assert forall i | 0 <= i < n - 1 :: t[1..][i] == t[i + 1];
        assert ClosesAt(t[1..], n - 1);
      }
    } else {
      if TolerableTail(t) { assert ClosesAt(t, 0); }
      if n: nat :| ClosesAt(t, n) {
        assert n == 0;
      }
    }
  }

  /** A document is accepted exactly when white space alone follows its value, or white space and then a closing bracket. */
  lemma DocumentIff(r: Raw, tail: string)
    requires EndsValue(tail)
    ensures ParseStrict(Encode(r) + tail) == if exists n: nat :: ClosesAt(tail, n) then Denote(r) else None
  {
    ParseEncode(r, tail);
    TailIff(tail);
  }

  /** A second value after the first is refused. */
  lemma SecondValueRefused(a: Raw, b: Raw)
    ensures ParseStrict(Encode(a) + " " + Encode(b)) == None
  {
    var tail := " " + Encode(b);
    assert Encode(a) + " " + Encode(b) == Encode(a) + tail;
    EncodeStart(b);
    assert tail[1] == Encode(b)[0];
    ParseEncode(a, tail);
    assert tail[1..] == Encode(b);
    assert SkipSpace(tail) == Encode(b);
  }

  // ----- what is signed -----

  /** The signed bytes: the prefix, the object type, NUL, and the members but for the signature in order of name. */
  lemma SignedBytes(objectType: string, t: string)
    requires ParseStrict(t).Some? && ParseStrict(t).value.Obj?
    ensures exists written ::
              && SortedListing(ParseStrict(t).value.members - {"signature"}, written)
              && SignatureInput(objectType, t) == Some("ISCP-V2-SIGNATURE\0" + objectType + "\0" + Encode(RObj(written)))
  {
    var rest := Obj(ParseStrict(t).value.members - {"signature"});
    MembersAreSorted(rest);
    var written := Arrange(rest).members;
    assert SortedListing(rest.members, written);
    assert "\0" == ['\0'];
  }
}
