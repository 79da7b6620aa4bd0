/** JSON values, the grammar the strict parser accepts, and the text `encoding/json` and
    `writeCanonical` produce. The grammar is recursive descent; the token automaton that the source
    drives is in `CanonicalDecoder` and is proved to accept exactly this. */
module Json {
  import opened GoStrings
  import opened JsonText

  datatype Value =
    | Null
    | Bool(b: bool)
    | Str(s: string)
    | Int(n: int)
    | Arr(items: seq<Value>)
    | Obj(members: map<string, Value>)

  /** Every integer in the value fits in 64 bits, as the Go type `int64` makes sure. */
  ghost predicate Int64Only(v: Value) {
    match v
    case Int(n) => INT64_MIN <= n <= INT64_MAX
    case Arr(items) => forall i | 0 <= i < |items| :: Int64Only(items[i])
    case Obj(members) => forall k | k in members :: Int64Only(members[k])
    case _ => true
  }

  // ----- the grammar -----

  /** A literal, string or number at the front of `t`. */
  function ParseScalar(t: string): (r: Parsed<Value>)
    ensures r.Ok? ==> |r.rest| < |t|
  {
    if "null" <= t then Ok(Null, t[4..])
    else if "true" <= t then Ok(Bool(true), t[4..])
    else if "false" <= t then Ok(Bool(false), t[5..])
    else if t != "" && t[0] == '"' then
      var s := ScanString(t[1..]);
      if s.Fail? then Fail else Ok(Str(s.value), s.rest)
    else
      var n := ScanInt(t);
      if n.Fail? then Fail else Ok(Int(n.value), n.rest)
  }

  function ParseValue(t: string): (r: Parsed<Value>)
    ensures r.Ok? ==> |r.rest| < |t|
    decreases |t|, 1
  {
    var u := SkipSpace(t);
    if u != "" && u[0] == '[' then
      var items := ParseItems(u[1..], true);
      if items.Fail? then Fail else Ok(Arr(items.value), items.rest)
    else if u != "" && u[0] == '{' then
      var members := ParseMembers(u[1..], map[], true);
      if members.Fail? then Fail else Ok(Obj(members.value), members.rest)
    else ParseScalar(u)
  }

  /** The text in front of the next element, past the comma every element but the first needs. */
  function AfterComma(u: string, first: bool): (r: Parsed<()>)
    ensures r.Ok? ==> |r.rest| <= |u|
  {
    if first then Ok((), u)
    else if u != "" && u[0] == ',' then Ok((), u[1..])
    else Fail
  }

  /** The rest of an array; `first` when no element has been read yet. */
  function ParseItems(t: string, first: bool): (r: Parsed<seq<Value>>)
    ensures r.Ok? ==> |r.rest| < |t|
    decreases |t|, 2
  {
    var u := SkipSpace(t);
    if u != "" && u[0] == ']' then Ok([], u[1..])
    else
      var body := AfterComma(u, first);
      if body.Fail? then Fail
      else
        var item := ParseValue(body.rest);
        if item.Fail? then Fail
        else
          var tail := ParseItems(item.rest, false);
          if tail.Fail? then Fail else Ok([item.value] + tail.value, tail.rest)
  }

  /** A member's name and the colon after it. */
  function ParseName(t: string): (r: Parsed<string>)
    ensures r.Ok? ==> |r.rest| < |t|
  {
    var u := SkipSpace(t);
    if u == "" || u[0] != '"' then Fail
    else
      var name := ScanString(u[1..]);
      if name.Fail? then Fail
      else
        var c := SkipSpace(name.rest);
        if c == "" || c[0] != ':' then Fail else Ok(name.value, c[1..])
  }

  /** The rest of an object, given the members read so far. A repeated name is refused. */
  function ParseMembers(t: string, seen: map<string, Value>, first: bool): (r: Parsed<map<string, Value>>)
    ensures r.Ok? ==> |r.rest| < |t|
    decreases |t|, 2
  {
    var u := SkipSpace(t);
    if u != "" && u[0] == '}' then Ok(seen, u[1..])
    else
      var body := AfterComma(u, first);
      if body.Fail? then Fail
      else
        var name := ParseName(body.rest);
        if name.Fail? || name.value in seen then Fail
        else
          var item := ParseValue(name.rest);
          if item.Fail? then Fail
          else ParseMembers(item.rest, seen[name.value := item.value], false)
  }

  // ----- written text -----

  /** A value in the order it is written: struct fields in declaration order, map members in the order
      they are visited. Names may repeat and integers need not fit in 64 bits. */
  datatype Raw =
    | RNull
    | RBool(b: bool)
    | RStr(s: string)
    | RInt(n: int)
    | RArr(items: seq<Raw>)
    | RObj(members: seq<(string, Raw)>)

  function Encode(r: Raw): string
    decreases r, 1
  {
    match r
    case RNull => "null"
    case RBool(b) => if b then "true" else "false"
    case RStr(s) => Quote(s)
    case RInt(n) => Decimal(n)
    case RArr(items) => ['['] + EncodeItems(items, true)
    case RObj(members) => ['{'] + EncodeMembers(members, true)
  }

  function Comma(first: bool): string {
    if first then "" else ","
  }

  /** The elements and the closing bracket. */
  function EncodeItems(items: seq<Raw>, first: bool): string
    decreases items, 0
  {
    if items == [] then "]"
    else Comma(first) + Encode(items[0]) + EncodeItems(items[1..], false)
  }

  function EncodeMembers(members: seq<(string, Raw)>, first: bool): string
    decreases members, 0
  {
    if members == [] then "}"
    else
      assert members[0].1 < members[0];
      Comma(first) + Quote(members[0].0) + [':'] + Encode(members[0].1) + EncodeMembers(members[1..], false)
  }

  /** The value a written text stands for; none if a name repeats or an integer is out of range. */
  function Denote(r: Raw): Option<Value>
    decreases r, 1
  {
    match r
    case RNull => Some(Null)
    case RBool(b) => Some(Bool(b))
    case RStr(s) => Some(Str(s))
    case RInt(n) => if INT64_MIN <= n <= INT64_MAX then Some(Int(n)) else None
    case RArr(items) =>
      var vs := DenoteItems(items);
      if vs.None? then None else Some(Arr(vs.value))
    case RObj(members) =>
      var ms := DenoteMembers(members, map[]);
      if ms.None? then None else Some(Obj(ms.value))
  }

  function DenoteItems(items: seq<Raw>): Option<seq<Value>>
    decreases items, 0
  {
    if items == [] then Some([])
    else
      var v := Denote(items[0]);
      var tail := DenoteItems(items[1..]);
      if v.None? || tail.None? then None else Some([v.value] + tail.value)
  }

  function DenoteMembers(members: seq<(string, Raw)>, seen: map<string, Value>): Option<map<string, Value>>
    decreases members, 0
  {
    if members == [] then Some(seen)
    else
      assert members[0].1 < members[0];
      var v := Denote(members[0].1);
      if members[0].0 in seen || v.None? then None
      else DenoteMembers(members[1..], seen[members[0].0 := v.value])
  }

  // ----- reading back what was written -----

  function Outcome<T>(v: Option<T>, rest: string): Parsed<T> {
    match v
    case None => Fail
    case Some(x) => Ok(x, rest)
  }

  /** What may follow a value inside a document, or nothing. */
  predicate EndsValue(rest: string) {
    rest == "" || IsSpace(rest[0]) || rest[0] == ',' || rest[0] == ']' || rest[0] == '}'
  }

  /** A written value starts with a character that is neither space, comma nor closing bracket. */
  lemma EncodeStart(r: Raw)
    ensures Encode(r) != ""
    ensures var c := Encode(r)[0]; !IsSpace(c) && c != ',' && c != ']' && c != '}'
  {
    if r.RInt? { DecimalStart(r.n); }
  }

  lemma ItemsStart(items: seq<Raw>, rest: string)
    ensures EncodeItems(items, false) + rest != ""
    ensures (EncodeItems(items, false) + rest)[0] == if items == [] then ']' else ','
  {
  }

  lemma MembersStart(members: seq<(string, Raw)>, rest: string)
    ensures EncodeMembers(members, false) + rest != ""
    ensures (EncodeMembers(members, false) + rest)[0] == if members == [] then '}' else ','
  {
  }

  lemma ParseQuoted(s: string, rest: string)
    ensures Quote(s) + rest == ['"'] + (Escape(s) + (['"'] + rest))
    ensures ScanString((Quote(s) + rest)[1..]) == Ok(s, rest)
  {
    AppendAssociative(['"'], Escape(s), ['"'], rest);
    DropFirst('"', Escape(s) + (['"'] + rest));
    StringRoundTrip(s, rest);
  }

  lemma AppendAssociative(a: string, b: string, c: string, d: string)
    ensures a + b + c + d == a + (b + (c + d))
  {
  }

  lemma DropFirst(c: char, t: string)
    ensures ([c] + t)[1..] == t
  {
  }

  lemma ParseEncodedString(s: string, rest: string)
    ensures ParseScalar(Quote(s) + rest) == Ok(Str(s), rest)
  {
    var t := Quote(s) + rest;
    ParseQuoted(s, rest);
    assert t[0] == '"';
    assert !("null" <= t) && !("true" <= t) && !("false" <= t);
  }

  lemma ParseEncodedScalar(r: Raw, rest: string)
    requires !r.RArr? && !r.RObj? && EndsValue(rest)
    ensures ParseScalar(Encode(r) + rest) == Outcome(Denote(r), rest)
  {
    var t := Encode(r) + rest;
    match r
    case RNull => assert t[..4] == "null" && t[4..] == rest;
    case RBool(b) =>
      assert t[0] == if b then 't' else 'f';
      assert t[|Encode(r)|..] == rest;
    case RStr(s) => ParseEncodedString(s, rest);
    case RInt(n) =>
      DecimalStart(n);
      assert t[0] == Decimal(n)[0];
      IntRoundTrip(n, rest);
  }

  lemma ParseEncodedName(name: string, rest: string)
    ensures ParseName(Quote(name) + [':'] + rest) == Ok(name, rest)
  {
    var after := [':'] + rest;
    assert Quote(name) + [':'] + rest == Quote(name) + after;
    ParseQuoted(name, after);
    assert SkipSpace(Quote(name) + after) == Quote(name) + after;
    assert SkipSpace(after) == after;
    assert after[1..] == rest;
  }

  // One unfolding of each grammar function, so that the inductions below stay small.

  lemma ValueStep(t: string)
    requires t != "" && !IsSpace(t[0])
    ensures t[0] == '[' ==> ParseValue(t) == var items := ParseItems(t[1..], true);
                                             if items.Fail? then Fail else Ok(Arr(items.value), items.rest)
    ensures t[0] == '{' ==> ParseValue(t) == var members := ParseMembers(t[1..], map[], true);
                                             if members.Fail? then Fail else Ok(Obj(members.value), members.rest)
    ensures t[0] != '[' && t[0] != '{' ==> ParseValue(t) == ParseScalar(t)
  {
  }

  lemma ItemsStep(body: string, first: bool, item: Parsed<Value>)
    requires body != "" && !IsSpace(body[0]) && body[0] != ']'
    requires ParseValue(body) == item
    ensures ParseItems(Comma(first) + body, first)
         == if item.Fail? then Fail
            else var tail := ParseItems(item.rest, false);
                 if tail.Fail? then Fail else Ok([item.value] + tail.value, tail.rest)
  {
    var t := Comma(first) + body;
    assert t[0] == if first then body[0] else ',';
    assert SkipSpace(t) == t;
    assert AfterComma(t, first).rest == body;
  }

  lemma MembersStep(
    body: string, seen: map<string, Value>, first: bool, name: string, value: string, item: Parsed<Value>)
    requires body != "" && !IsSpace(body[0]) && body[0] != '}'
    requires ParseName(body) == Ok(name, value)
    requires ParseValue(value) == item
    ensures ParseMembers(Comma(first) + body, seen, first)
         == if name in seen || item.Fail? then Fail
            else ParseMembers(item.rest, seen[name := item.value], false)
  {
    var t := Comma(first) + body;
    assert t[0] == if first then body[0] else ',';
    assert SkipSpace(t) == t;
    assert AfterComma(t, first).rest == body;
  }

  lemma ItemsText(items: seq<Raw>, first: bool, rest: string)
    requires items != []
    ensures EncodeItems(items, first) + rest
         == Comma(first) + (Encode(items[0]) + (EncodeItems(items[1..], false) + rest))
  {
  }

  lemma MembersText(members: seq<(string, Raw)>, first: bool, rest: string)
    requires members != []
    ensures EncodeMembers(members, first) + rest
         == Comma(first)
            + (Quote(members[0].0) + [':'] + (Encode(members[0].1) + (EncodeMembers(members[1..], false) + rest)))
  {
  }

  lemma ArrayStep(items: seq<Raw>, rest: string)
    ensures ParseValue(Encode(RArr(items)) + rest)
         == var r := ParseItems(EncodeItems(items, true) + rest, true);
            if r.Fail? then Fail else Ok(Arr(r.value), r.rest)
  {
    var t := Encode(RArr(items)) + rest;
    assert t == ['['] + (EncodeItems(items, true) + rest);
    ValueStep(t);
  }

  lemma ObjectStep(members: seq<(string, Raw)>, rest: string)
    ensures ParseValue(Encode(RObj(members)) + rest)
         == var r := ParseMembers(EncodeMembers(members, true) + rest, map[], true);
            if r.Fail? then Fail else Ok(Obj(r.value), r.rest)
  {
    var t := Encode(RObj(members)) + rest;
    assert t == ['{'] + (EncodeMembers(members, true) + rest);
    ValueStep(t);
  }

  lemma ScalarStep(r: Raw, rest: string)
    requires !r.RArr? && !r.RObj?
    ensures ParseValue(Encode(r) + rest) == ParseScalar(Encode(r) + rest)
  {
    EncodeStart(r);
    if r.RInt? { DecimalStart(r.n); }
    assert (Encode(r) + rest)[0] == Encode(r)[0];
    ValueStep(Encode(r) + rest);
  }

  /** The strict parser reads any written text back as the value it stands for, and refuses it exactly
      when a name repeats in one object or an integer does not fit in 64 bits. */
  lemma {:induction false} ParseEncode(r: Raw, rest: string)
    requires EndsValue(rest)
    ensures ParseValue(Encode(r) + rest) == Outcome(Denote(r), rest)
    decreases r, 1
  {
    match r {
      case RArr(items) =>
        ArrayStep(items, rest);
        ParseEncodedItems(items, true, rest);
      case RObj(members) =>
        ObjectStep(members, rest);
        ParseEncodedMembers(members, map[], true, rest);
      case _ =>
        ScalarStep(r, rest);
        ParseEncodedScalar(r, rest);
    }
  }

  lemma {:induction false} ParseEncodedItems(items: seq<Raw>, first: bool, rest: string)
    ensures ParseItems(EncodeItems(items, first) + rest, first) == Outcome(DenoteItems(items), rest)
    decreases items, 0
  {
    if items == [] {
      assert EncodeItems(items, first) + rest == [']'] + rest;
    } else {
      var tail := EncodeItems(items[1..], false) + rest;
      ItemsText(items, first, rest);
      ItemsStart(items[1..], rest);
      EncodeStart(items[0]);
      ParseEncode(items[0], tail);
      ItemsStep(Encode(items[0]) + tail, first, Outcome(Denote(items[0]), tail));
      ParseEncodedItems(items[1..], false, rest);
    }
  }

  lemma {:induction false} ParseEncodedMembers(
    members: seq<(string, Raw)>, seen: map<string, Value>, first: bool, rest: string)
    ensures ParseMembers(EncodeMembers(members, first) + rest, seen, first)
         == Outcome(DenoteMembers(members, seen), rest)
    decreases members, 0
  {
    if members == [] {
      assert EncodeMembers(members, first) + rest == ['}'] + rest;
    } else {
      var (name, r) := members[0];
      assert r < members[0];
      var tail := EncodeMembers(members[1..], false) + rest;
      var value := Encode(r) + tail;
      MembersText(members, first, rest);
      MembersStart(members[1..], rest);
      ParseEncodedName(name, value);
      ParseEncode(r, tail);
      MembersStep(Quote(name) + [':'] + value, seen, first, name, value, Outcome(Denote(r), tail));
      if Denote(r).Some? {
        ParseEncodedMembers(members[1..], seen[name := Denote(r).value], false, rest);
      }
    }
  }
}
