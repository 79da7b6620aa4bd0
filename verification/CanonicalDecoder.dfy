/** The code of `pkg/iscp/canonical` as it runs: `parseValue` drives the token automaton of
    `json.Decoder`, filling maps and slices in loops, and `writeCanonical` sorts names and appends to
    a buffer. Both are proved to compute the grammar of `Json` and the text of `Canonical`. */
module CanonicalDecoder {
  import opened GoStrings
  import opened JsonText
  import opened Json
  import opened Canonical
  import CanonicalText

  // ----- the token automaton of encoding/json -----

  /** `tokenState`. */
  datatype State = TopValue | ArrayStart | ArrayValue | ArrayComma
                 | ObjectStart | ObjectKey | ObjectColon | ObjectValue | ObjectComma

  /** What the decoder has still to read and where it is in the document. */
  datatype Position = Position(rest: string, state: State, stack: seq<State>)

  datatype Token = OpenArray | CloseArray | OpenObject | CloseObject | Scalar(value: Value) | Name(name: string)

  datatype Next = Bad | Tok(token: Token, at: Position)

  predicate ValueAllowed(s: State) {
    s == TopValue || s == ArrayStart || s == ArrayValue || s == ObjectValue
  }

  /** `tokenValueEnd`. */
  function ValueEnd(s: State): State {
    match s
    case ArrayStart => ArrayComma
    case ArrayValue => ArrayComma
    case ObjectValue => ObjectComma
    case _ => s
  }

  function Open(p: Position, u: string, token: Token, inside: State): Next
    requires u != ""
  {
    if ValueAllowed(p.state) then Tok(token, Position(u[1..], inside, p.stack + [p.state])) else Bad
  }

  function Close(p: Position, u: string, token: Token): Next
    requires u != ""
  {
    if p.stack == [] then Bad
    else Tok(token, Position(u[1..], ValueEnd(p.stack[|p.stack| - 1]), p.stack[..|p.stack| - 1]))
  }

  /** `Decoder.Token`: a comma or a colon where one is due is read on the way. */
  function NextToken(p: Position): Next
    decreases |p.rest|
  {
    var u := SkipSpace(p.rest);
    if u == "" then Bad
    else if u[0] == '[' then Open(p, u, OpenArray, ArrayStart)
    else if u[0] == '{' then Open(p, u, OpenObject, ObjectStart)
    else if u[0] == ']' then
      if p.state == ArrayStart || p.state == ArrayComma then Close(p, u, CloseArray) else Bad
    else if u[0] == '}' then
      if p.state == ObjectStart || p.state == ObjectComma then Close(p, u, CloseObject) else Bad
    else if u[0] == ':' then
      if p.state == ObjectColon then NextToken(Position(u[1..], ObjectValue, p.stack)) else Bad
    else if u[0] == ',' then
      if p.state == ArrayComma then NextToken(Position(u[1..], ArrayValue, p.stack))
      else if p.state == ObjectComma then NextToken(Position(u[1..], ObjectKey, p.stack))
      else Bad
    else if u[0] == '"' && (p.state == ObjectStart || p.state == ObjectKey) then
      var name := ScanString(u[1..]);
      if name.Fail? then Bad else Tok(Name(name.value), Position(name.rest, ObjectColon, p.stack))
    else if !ValueAllowed(p.state) then Bad
    else
      var v := ParseScalar(u);
      if v.Fail? then Bad else Tok(Scalar(v.value), Position(v.rest, ValueEnd(p.state), p.stack))
  }

  class Decoder {
    var at: Position

    constructor (input: string)
      ensures at == Position(input, TopValue, [])
    {
      at := Position(input, TopValue, []);
    }

    /** `More`: another element comes before a closing bracket or the end of the input. */
    function More(): bool
      reads this
    {
      var u := SkipSpace(at.rest);
      u != "" && u[0] != ']' && u[0] != '}'
    }

    method Token() returns (t: Option<Token>)
      modifies this
      ensures t == match NextToken(old(at)) case Bad => None case Tok(token, _) => Some(token)
      ensures NextToken(old(at)).Tok? ==> at == NextToken(old(at)).at
    {
      match NextToken(at)
      case Bad => t := None;
      case Tok(token, next) => t, at := Some(token), next;
    }
  }

  // ----- what the automaton says where a value or a name is due -----

  /** The states in which `parseValue` is called. */
  predicate AwaitsValue(s: State) {
    s == TopValue || s == ArrayStart || s == ArrayComma || s == ObjectColon
  }

  /** The state once the separator that is still due has been read. */
  function Separated(s: State): State {
    match s
    case ArrayComma => ArrayValue
    case ObjectColon => ObjectValue
    case _ => s
  }

  /** Where the value starts in the unread text. */
  function ValueText(s: State, t: string): (r: Parsed<()>)
    requires AwaitsValue(s)
    ensures r.Ok? ==> |r.rest| <= |t|
  {
    var u := SkipSpace(t);
    if s == ArrayComma then (if u != "" && u[0] == ',' then Ok((), u[1..]) else Fail)
    else if s == ObjectColon then (if u != "" && u[0] == ':' then Ok((), u[1..]) else Fail)
    else Ok((), t)
  }

  /** The value the grammar finds from such a state. */
  function ValueFrom(s: State, t: string): (r: Parsed<Value>)
    requires AwaitsValue(s)
    ensures r.Ok? ==> |r.rest| < |t|
  {
    var start := ValueText(s, t);
    if start.Fail? then Fail else ParseValue(start.rest)
  }

  /** The token at the start of a value. */
  function ValueToken(s: State, stack: seq<State>, u: string): Next
    requires u == "" || !IsSpace(u[0])
  {
    if u == "" then Bad
    else if u[0] == '[' then Tok(OpenArray, Position(u[1..], ArrayStart, stack + [s]))
    else if u[0] == '{' then Tok(OpenObject, Position(u[1..], ObjectStart, stack + [s]))
    else
      var v := ParseScalar(u);
      if v.Fail? then Bad else Tok(Scalar(v.value), Position(v.rest, ValueEnd(s), stack))
  }

  predicate Refused(n: Next) {
    n.Bad? || n.token.CloseArray? || n.token.CloseObject?
  }

  lemma PunctuationIsNoScalar(u: string)
    requires u != "" && (u[0] == ',' || u[0] == ':' || u[0] == ']' || u[0] == '}')
    ensures ParseScalar(u) == Fail
  {
  }

  lemma TokenInsideValue(p: Position)
    requires ValueAllowed(p.state)
    ensures var expected := ValueToken(p.state, p.stack, SkipSpace(p.rest));
            if expected.Bad? then Refused(NextToken(p)) else NextToken(p) == expected
  {
    var u := SkipSpace(p.rest);
    if u != "" && (u[0] == ',' || u[0] == ':' || u[0] == ']' || u[0] == '}') { PunctuationIsNoScalar(u); }
  }

  lemma TokenAtValue(p: Position)
    requires AwaitsValue(p.state)
    ensures var start := ValueText(p.state, p.rest);
            if start.Fail? then Refused(NextToken(p))
            else
              var expected := ValueToken(Separated(p.state), p.stack, SkipSpace(start.rest));
              if expected.Bad? then Refused(NextToken(p)) else NextToken(p) == expected
  {
    var start := ValueText(p.state, p.rest);
    if start.Ok? {
      TokenInsideValue(Position(start.rest, Separated(p.state), p.stack));
    }
  }

  function QuotedName(t: string): Parsed<string> {
    var u := SkipSpace(t);
    if u != "" && u[0] == '"' then ScanString(u[1..]) else Fail
  }

  /** The name the grammar finds, past the comma if one is due. */
  function NameFrom(p: Position): Parsed<string> {
    var body := AfterComma(SkipSpace(p.rest), p.state == ObjectStart);
    if body.Fail? then Fail else QuotedName(body.rest)
  }

  lemma TokenAtName(p: Position)
    requires p.state == ObjectStart || p.state == ObjectComma
    requires var u := SkipSpace(p.rest); u != "" && u[0] != ']' && u[0] != '}'
    ensures var name := NameFrom(p);
            NextToken(p) == if name.Fail? then Bad else Tok(Name(name.value), Position(name.rest, ObjectColon, p.stack))
  {
    var u := SkipSpace(p.rest);
    if p.state == ObjectStart {
      assert SkipSpace(u) == u;
    } else if u[0] == ',' {
      TokenAfterComma(Position(u[1..], ObjectKey, p.stack));
    }
  }

  lemma TokenAfterComma(p: Position)
    requires p.state == ObjectKey
    ensures var name := QuotedName(p.rest);
            NextToken(p) == if name.Fail? then Bad else Tok(Name(name.value), Position(name.rest, ObjectColon, p.stack))
  {
  }

  // ----- parseValue -----

  lemma ParseValueSkipsSpace(t: string)
    ensures ParseValue(SkipSpace(t)) == ParseValue(t)
  {
    assert SkipSpace(SkipSpace(t)) == SkipSpace(t);
  }

  /** The array loop as far as it has got: what was read is followed by what is still to be read. */
  ghost predicate ItemsSoFar(start: string, arr: seq<Value>, at: Position) {
    && (at.state == ArrayStart || at.state == ArrayComma)
    && |at.rest| <= |start|
    && ParseItems(start, true)
       == var tail := ParseItems(at.rest, at.state == ArrayStart);
          if tail.Fail? then Fail else Ok(arr + tail.value, tail.rest)
  }

  ghost predicate MembersSoFar(start: string, obj: map<string, Value>, at: Position) {
    && (at.state == ObjectStart || at.state == ObjectComma)
    && |at.rest| <= |start|
    && ParseMembers(start, map[], true) == ParseMembers(at.rest, obj, at.state == ObjectStart)
  }

  /** What the grammar reads next inside an array that is not at its end. */
  lemma ItemsNext(t: string, s: State)
    requires s == ArrayStart || s == ArrayComma
    requires var u := SkipSpace(t); u != "" && u[0] != ']' && u[0] != '}'
    ensures var item := ValueFrom(s, t);
            ParseItems(t, s == ArrayStart)
            == if item.Fail? then Fail
               else
                 var tail := ParseItems(item.rest, false);
                 if tail.Fail? then Fail else Ok([item.value] + tail.value, tail.rest)
  {
    ParseValueSkipsSpace(t);
  }

  lemma ItemsAdvance(start: string, arr: seq<Value>, at: Position)
    requires ItemsSoFar(start, arr, at)
    requires var u := SkipSpace(at.rest); u != "" && u[0] != ']' && u[0] != '}'
    ensures var item := ValueFrom(at.state, at.rest);
            if item.Fail? then ParseItems(start, true) == Fail
            else ItemsSoFar(start, arr + [item.value], Position(item.rest, ArrayComma, at.stack))
  {
    ItemsNext(at.rest, at.state);
    var item := ValueFrom(at.state, at.rest);
    if item.Ok? {
      var tail := ParseItems(item.rest, false);
      if tail.Ok? { ItemsAppended(arr, item.value, tail.value); }
    }
  }

  lemma ItemsAppended(arr: seq<Value>, v: Value, tail: seq<Value>)
    ensures arr + ([v] + tail) == arr + [v] + tail
  {
  }

  lemma ItemsEnd(start: string, arr: seq<Value>, at: Position)
    requires ItemsSoFar(start, arr, at)
    requires var u := SkipSpace(at.rest); u == "" || u[0] == ']' || u[0] == '}'
    ensures var u := SkipSpace(at.rest);
            ParseItems(start, true) == if u != "" && u[0] == ']' then Ok(arr, u[1..]) else Fail
  {
    ItemsClose(at.rest, at.state == ArrayStart);
    assert arr + [] == arr;
  }

  lemma ItemsClose(t: string, first: bool)
    requires var u := SkipSpace(t); u == "" || u[0] == ']' || u[0] == '}'
    ensures var u := SkipSpace(t); ParseItems(t, first) == if u != "" && u[0] == ']' then Ok([], u[1..]) else Fail
  {
    var u := SkipSpace(t);
    assert SkipSpace(u) == u;
    if u == "" || u[0] == '}' {
      if u != "" { PunctuationIsNoScalar(u); }
      assert ParseValue(u) == Fail;
    }
  }

  lemma MembersAdvanceOne(start: string, obj: map<string, Value>, at: Position, name: string, colon: string)
    requires MembersSoFar(start, obj, at)
    requires var u := SkipSpace(at.rest); u != "" && u[0] != ']' && u[0] != '}'
    requires NameFrom(at) == Ok(name, colon)
    ensures |colon| < |at.rest|
    ensures var item := ValueFrom(ObjectColon, colon);
            if name in obj || item.Fail? then ParseMembers(start, map[], true) == Fail
            else MembersSoFar(start, obj[name := item.value], Position(item.rest, ObjectComma, at.stack))
  {
    var u := SkipSpace(at.rest);
    var body := AfterComma(u, at.state == ObjectStart);
    var c := SkipSpace(colon);
    assert ParseName(body.rest) == if c == "" || c[0] != ':' then Fail else Ok(name, c[1..]);
  }

  lemma MembersStuck(start: string, obj: map<string, Value>, at: Position)
    requires MembersSoFar(start, obj, at)
    requires var u := SkipSpace(at.rest); u != "" && u[0] != ']' && u[0] != '}'
    requires NameFrom(at).Fail?
    ensures ParseMembers(start, map[], true) == Fail
  {
  }

  lemma MembersEnd(start: string, obj: map<string, Value>, at: Position)
    requires MembersSoFar(start, obj, at)
    requires var u := SkipSpace(at.rest); u == "" || u[0] == ']' || u[0] == '}'
    ensures var u := SkipSpace(at.rest);
            ParseMembers(start, map[], true) == if u != "" && u[0] == '}' then Ok(obj, u[1..]) else Fail
  {
    assert SkipSpace(SkipSpace(at.rest)) == SkipSpace(at.rest);
  }

  /** Where the decoder stands after the bracket that was opened last has been closed. */
  function Closed(at: Position, rest: string): Position
    requires at.stack != []
  {
    Position(rest, ValueEnd(at.stack[|at.stack| - 1]), at.stack[..|at.stack| - 1])
  }

  /** `parseValue` returns exactly the value the grammar finds and leaves the decoder right behind it,
      inside the same enclosing brackets; it fails exactly when the grammar does. */
  method ParseValueAt(dec: Decoder) returns (r: Option<Value>)
    requires AwaitsValue(dec.at.state)
    modifies dec
    ensures var spec := ValueFrom(old(dec.at.state), old(dec.at.rest));
            && (spec.Fail? ==> r == None)
            && (spec.Ok? ==> r == Some(spec.value))
            && (spec.Ok? ==> dec.at == Position(spec.rest, ValueEnd(Separated(old(dec.at.state))), old(dec.at.stack)))
    decreases |dec.at.rest|, 0
  {
    ghost var p := dec.at;
    TokenAtValue(p);
    var tok := dec.Token();
    match tok {
      case Some(OpenObject) => r := ParseObjectBody(dec);
      case Some(OpenArray) => r := ParseArrayBody(dec);
      case Some(Scalar(v)) => r := Some(v);
      case _ => r := None;
    }
  }

  method ParseArrayBody(dec: Decoder) returns (r: Option<Value>)
    requires dec.at.state == ArrayStart && dec.at.stack != []
    modifies dec
    ensures var spec := ParseItems(old(dec.at.rest), true);
            && (spec.Fail? ==> r == None)
            && (spec.Ok? ==> r == Some(Arr(spec.value)) && dec.at == Closed(old(dec.at), spec.rest))
    decreases |dec.at.rest|, 1
  {
    ghost var start := dec.at.rest;
    var arr: seq<Value> := [];
    assert forall vs: seq<Value> :: arr + vs == vs;
    while dec.More()
      invariant ItemsSoFar(start, arr, dec.at) && dec.at.stack == old(dec.at.stack)
      decreases |dec.at.rest|
    {
      ItemsAdvance(start, arr, dec.at);
      var item := ParseValueAt(dec);
      if item == None { return None; }
      arr := arr + [item.value];
    }
    ItemsEnd(start, arr, dec.at);
    var end := dec.Token();
    if end != Some(CloseArray) { return None; }
    return Some(Arr(arr));
  }

  /** One turn of the object loop: a name that has not been seen and its value, or nothing. */
  method ParseMember(dec: Decoder, obj: map<string, Value>, ghost start: string) returns (r: Option<(string, Value)>)
    requires MembersSoFar(start, obj, dec.at)
    requires var u := SkipSpace(dec.at.rest); u != "" && u[0] != ']' && u[0] != '}'
    modifies dec
    ensures r == None ==> ParseMembers(start, map[], true) == Fail
    ensures r.Some? ==> MembersSoFar(start, obj[r.value.0 := r.value.1], dec.at)
    ensures r.Some? ==> dec.at.stack == old(dec.at.stack) && |dec.at.rest| < |old(dec.at.rest)|
    decreases |dec.at.rest|, 1
  {
    ghost var at := dec.at;
    var key := ParseKey(dec);
    if key == None {
      MembersStuck(start, obj, at);
      return None;
    }
    MembersAdvanceOne(start, obj, at, key.value, dec.at.rest);
    if key.value in obj { return None; }
    var item := ParseValueAt(dec);
    if item == None { return None; }
    return Some((key.value, item.value));
  }

  method ParseKey(dec: Decoder) returns (r: Option<string>)
    requires dec.at.state == ObjectStart || dec.at.state == ObjectComma
    requires var u := SkipSpace(dec.at.rest); u != "" && u[0] != ']' && u[0] != '}'
    modifies dec
    ensures var name := NameFrom(old(dec.at));
            if name.Fail? then r == None
            else r == Some(name.value) && dec.at == Position(name.rest, ObjectColon, old(dec.at.stack))
  {
    TokenAtName(dec.at);
    var key := dec.Token();
    if key == None { return None; }
    return Some(key.value.name);
  }

  method ParseObjectBody(dec: Decoder) returns (r: Option<Value>)
    requires dec.at.state == ObjectStart && dec.at.stack != []
    modifies dec
    ensures var spec := ParseMembers(old(dec.at.rest), map[], true);
            && (spec.Fail? ==> r == None)
            && (spec.Ok? ==> r == Some(Obj(spec.value)) && dec.at == Closed(old(dec.at), spec.rest))
    decreases |dec.at.rest|, 2
  {
    ghost var start := dec.at.rest;
    var obj: map<string, Value> := map[];
    while dec.More()
      invariant MembersSoFar(start, obj, dec.at) && dec.at.stack == old(dec.at.stack)
      decreases |dec.at.rest|
    {
      var member := ParseMember(dec, obj, start);
      if member == None { return None; }
      obj := obj[member.value.0 := member.value.1];
    }
    MembersEnd(start, obj, dec.at);
    var end := dec.Token();
    if end != Some(CloseObject) { return None; }
    return Some(Obj(obj));
  }

  /** `ParseStrict`. The closing `Decode` fails, as it must, at the end of the input and at a closing
      bracket, which is all that `More` lets through. */
  method ParseDocument(input: string) returns (r: Option<Value>)
    ensures r == ParseStrict(input)
  {
    var dec := new Decoder(input);
    r := ParseValueAt(dec);
    if r != None && dec.More() { r := None; }
  }

  // ----- writeCanonical -----

  class Buffer {
    var text: string

    constructor ()
      ensures text == ""
    {
      text := "";
    }
  }

  /** `writeCanonical`: the names of an object are collected in whatever order the map yields them. */
  method WriteCanonical(out: Buffer, v: Value)
    modifies out
    ensures out.text == old(out.text) + Print(v)
    decreases v, 1
  {
    match v
    case Null => out.text := out.text + "null";
    case Bool(b) => out.text := out.text + if b then "true" else "false";
    case Str(s) => out.text := out.text + Quote(s);
    case Int(n) => out.text := out.text + Decimal(n);
    case Arr(items) => WriteItems(out, v);
    case Obj(members) => WriteObject(out, v);
  }

  lemma PrintObject(v: Value)
    requires v.Obj?
    ensures Print(v) == ['{'] + EncodeMembers(ArrangeMembers(v, Ascending(v.members.Keys)), true)
  {
  }

  method WriteObject(out: Buffer, v: Value)
    requires v.Obj?
    modifies out
    ensures out.text == old(out.text) + Print(v)
    decreases v, 0, 1
  {
    ghost var members := EncodeMembers(ArrangeMembers(v, Ascending(v.members.Keys)), true);
    AppendRest(out.text, ['{'], members);
    PrintObject(v);
    out.text := out.text + ['{'];
    WriteMembers(out, v);
  }

  /** The elements still to be written, from the `i`-th on. */
  ghost function ItemsLeft(v: Value, i: nat): string
    requires v.Arr? && i <= |v.items|
  {
    EncodeItems(ArrangeItems(v, i), i == 0)
  }

  lemma ItemsLeftStep(v: Value, i: nat)
    requires v.Arr? && i < |v.items|
    ensures ItemsLeft(v, i) == Comma(i == 0) + Print(v.items[i]) + ItemsLeft(v, i + 1)
  {
    var rs := ArrangeItems(v, i);
    assert rs[0] == Arrange(v.items[i]) && rs[1..] == ArrangeItems(v, i + 1);
  }

  /** What is written and what is left make the whole. */
  ghost predicate Makes(written: string, left: string, whole: string) {
    written + left == whole
  }

  lemma MakesStep(written: string, next: string, left: string, whole: string)
    requires Makes(written, next + left, whole)
    ensures Makes(written + next, left, whole)
  {
    assert written + (next + left) == written + next + left;
  }

  method WriteItem(out: Buffer, first: bool, item: Value)
    modifies out
    ensures out.text == old(out.text) + (Comma(first) + Print(item))
    decreases item, 2
  {
    if !first { out.text := out.text + ","; }
    assert out.text == old(out.text) + Comma(first);
    WriteCanonical(out, item);
    AppendRest(old(out.text), Comma(first), Print(item));
  }

  method WriteItems(out: Buffer, v: Value)
    requires v.Arr?
    modifies out
    ensures out.text == old(out.text) + Print(v)
    decreases v, 0
  {
    AppendRest(out.text, ['['], ItemsLeft(v, 0));
    out.text := out.text + ['['];
    ghost var whole := out.text + ItemsLeft(v, 0);
    for i := 0 to |v.items|
      invariant Makes(out.text, ItemsLeft(v, i), whole)
    {
      ItemsLeftStep(v, i);
      MakesStep(out.text, Comma(i == 0) + Print(v.items[i]), ItemsLeft(v, i + 1), whole);
      WriteItem(out, i == 0, v.items[i]);
    }
    out.text := out.text + "]";
  }

  ghost function MembersLeft(v: Value, keys: seq<string>, i: nat): string
    requires v.Obj? && i <= |keys| && forall k | k in keys :: k in v.members
  {
    EncodeMembers(ArrangeMembers(v, keys[i..]), i == 0)
  }

  lemma MembersLeftStep(v: Value, keys: seq<string>, i: nat)
    requires v.Obj? && i < |keys| && forall k | k in keys :: k in v.members
    ensures keys[i] in v.members
    ensures MembersLeft(v, keys, i)
         == Comma(i == 0) + Quote(keys[i]) + [':'] + Print(v.members[keys[i]]) + MembersLeft(v, keys, i + 1)
  {
    var rs := ArrangeMembers(v, keys[i..]);
    assert keys[i] in keys;
    assert keys[i..][1..] == keys[i + 1..];
    assert rs[0] == (keys[i], Arrange(v.members[keys[i]])) && rs[1..] == ArrangeMembers(v, keys[i + 1..]);
  }

  method WriteMember(out: Buffer, first: bool, key: string, item: Value)
    modifies out
    ensures out.text == old(out.text) + (Comma(first) + Quote(key) + [':'] + Print(item))
    decreases item, 2
  {
    if !first { out.text := out.text + ","; }
    assert out.text == old(out.text) + Comma(first);
    out.text := out.text + Quote(key);
    AppendRest(old(out.text), Comma(first), Quote(key));
    out.text := out.text + [':'];
    AppendRest(old(out.text), Comma(first) + Quote(key), [':']);
    WriteCanonical(out, item);
    AppendRest(old(out.text), Comma(first) + Quote(key) + [':'], Print(item));
  }

  method WriteMembers(out: Buffer, v: Value)
    requires v.Obj?
    modifies out
    ensures out.text == old(out.text) + EncodeMembers(ArrangeMembers(v, Ascending(v.members.Keys)), true)
    decreases v, 0, 0
  {
    var unsorted := CollectKeys(v.members);
    var keys := SortKeys(unsorted);
    assert keys[0..] == keys;
    ghost var whole := out.text + MembersLeft(v, keys, 0);
    for i := 0 to |keys|
      invariant Makes(out.text, MembersLeft(v, keys, i), whole)
    {
      MembersLeftStep(v, keys, i);
      MakesStep(out.text, Comma(i == 0) + Quote(keys[i]) + [':'] + Print(v.members[keys[i]]),
                MembersLeft(v, keys, i + 1), whole);
      WriteMember(out, i == 0, keys[i], v.members[keys[i]]);
    }
    out.text := out.text + "}";
  }

  method CollectKeys(members: map<string, Value>) returns (keys: seq<string>)
    ensures (set k | k in keys) == members.Keys
    ensures forall i, j | 0 <= i < j < |keys| :: keys[i] != keys[j]
  {
    keys := [];
    var todo := members.Keys;
    while todo != {}
      invariant todo <= members.Keys
      invariant forall k :: k in keys <==> k in members.Keys - todo
      invariant forall i, j | 0 <= i < j < |keys| :: keys[i] != keys[j]
      decreases todo
    {
      var k :| k in todo;
      assert k !in keys;
      keys := keys + [k];
      todo := todo - {k};
    }
  }

  /** `Marshal`. */
  method MarshalDocument(input: string) returns (r: Option<string>)
    ensures r == Marshal(input)
    ensures r.Some? && ParseStrict(input).value.Obj? ==>
              exists written :: CanonicalText.SortedListing(ParseStrict(input).value.members, written) && r.value == Encode(RObj(written))
  {
    var v := ParseDocument(input);
    if v == None { return None; }
    if v.value.Obj? { CanonicalText.MarshalSortsMembers(input); }
    var out := new Buffer();
    WriteCanonical(out, v.value);
    assert out.text == Print(v.value);
    return Some(out.text);
  }

  /** `SignatureInput`. */
  method SignatureBytes(objectType: string, input: string) returns (r: Option<string>)
    ensures r == SignatureInput(objectType, input)
    ensures r.Some? ==>
              exists written ::
                && CanonicalText.SortedListing(ParseStrict(input).value.members - {"signature"}, written)
                && r.value == SIGNATURE_PREFIX + objectType + [0 as char] + Encode(RObj(written))
  {
    var v := ParseDocument(input);
    if v == None || !v.value.Obj? { return None; }
    CanonicalText.SignedBytes(objectType, input);
    var out := new Buffer();
    WriteCanonical(out, Obj(v.value.members - {"signature"}));
    assert out.text == Print(Obj(v.value.members - {"signature"}));
    return Some(SIGNATURE_PREFIX + objectType + ['\0'] + out.text);
  }
}
