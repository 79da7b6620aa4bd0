/** Canonical JSON (`pkg/iscp/canonical`): strict parsing, the sorted printer, and the
    domain-separated input that every signed object is signed over. */
module Canonical {
  import opened GoStrings
  import opened JsonText
  import opened Json

  // ----- the canonical text of a value -----

  /** A value with the members of every object in increasing order of name. */
  ghost function Arrange(v: Value): Raw
    decreases v, 1, 0
  {
    match v
    case Null => RNull
    case Bool(b) => RBool(b)
    case Str(s) => RStr(s)
    case Int(n) => RInt(n)
    case Arr(items) => RArr(ArrangeItems(v, 0))
    case Obj(members) => RObj(ArrangeMembers(v, Ascending(members.Keys)))
  }

  ghost function ArrangeItems(v: Value, from: nat): (rs: seq<Raw>)
    requires v.Arr? && from <= |v.items|
    decreases v, 0, |v.items| - from
  {
    if from == |v.items| then [] else [Arrange(v.items[from])] + ArrangeItems(v, from + 1)
  }

  ghost function ArrangeMembers(v: Value, keys: seq<string>): (rs: seq<(string, Raw)>)
    requires v.Obj? && forall k | k in keys :: k in v.members
    decreases v, 0, |keys|
  {
    if keys == [] then []
    else [(keys[0], Arrange(v.members[keys[0]]))] + ArrangeMembers(v, keys[1..])
  }

  /** `MarshalValue`. */
  ghost function Print(v: Value): string {
    Encode(Arrange(v))
  }

  // ----- parsing a whole document -----

  /** What `ParseStrict` tolerates after the value: nothing but space, or a tail whose first character
      closes a bracket, which neither `More` nor a further `Decode` takes for a value. */
  predicate TolerableTail(t: string) {
    var u := SkipSpace(t);
    u == "" || u[0] == ']' || u[0] == '}'
  }

  function ParseStrict(t: string): Option<Value> {
    var r := ParseValue(t);
    if r.Ok? && TolerableTail(r.rest) then Some(r.value) else None
  }

  /** `Marshal`: canonical text of a document. */
  ghost function Marshal(t: string): Option<string> {
    match ParseStrict(t)
    case None => None
    case Some(v) => Some(Print(v))
  }

  // ----- printing and parsing are inverse -----

  lemma {:induction false} DenoteArrange(v: Value)
    ensures Denote(Arrange(v)) == if Int64Only(v) then Some(v) else None
    decreases v, 1, 0
  {
    match v
    case Arr(items) =>
      DenoteArrangedItems(v, 0);
      assert items[0..] == items;
    case Obj(members) =>
      var keys := Ascending(members.Keys);
      assert members - (set k | k in keys) == map[];
      DenoteArrangedMembers(v, keys, map[]);
    case _ =>
  }

  ghost predicate ItemsFit(v: Value, from: nat)
    requires v.Arr?
  {
    forall i | from <= i < |v.items| :: Int64Only(v.items[i])
  }

  lemma {:induction false} DenoteArrangedItems(v: Value, from: nat)
    requires v.Arr? && from <= |v.items|
    ensures DenoteItems(ArrangeItems(v, from)) == if ItemsFit(v, from) then Some(v.items[from..]) else None
    decreases v, 0, |v.items| - from
  {
    if from == |v.items| {
      assert v.items[from..] == [] && ArrangeItems(v, from) == [];
    } else {
      DenoteArrange(v.items[from]);
      DenoteArrangedItems(v, from + 1);
      DenoteItemsCons(Arrange(v.items[from]), ArrangeItems(v, from + 1));
      assert v.items[from..] == [v.items[from]] + v.items[from + 1..];
      assert ItemsFit(v, from) <==> Int64Only(v.items[from]) && ItemsFit(v, from + 1);
    }
  }

  lemma DenoteItemsCons(r: Raw, rs: seq<Raw>)
    ensures DenoteItems([r] + rs)
         == if Denote(r).None? || DenoteItems(rs).None? then None else Some([Denote(r).value] + DenoteItems(rs).value)
  {
    assert ([r] + rs)[1..] == rs;
  }

  /** Taking the first of the remaining names moves its member from the text still to be read to the
      members already seen. */
  lemma MembersAdvance(v: Value, keys: seq<string>, seen: map<string, Value>)
    requires v.Obj? && Increasing(keys) && keys != [] && forall k | k in keys :: k in v.members
    requires seen == v.members - (set k | k in keys)
    ensures keys[0] in v.members && keys[0] !in seen
    ensures seen[keys[0] := v.members[keys[0]]] == v.members - (set k | k in keys[1..])
  {
    assert keys[0] in keys;
    forall j | 0 < j < |keys| ensures keys[j] != keys[0] { BeforeTrichotomy(keys[0], keys[j]); }
  }

  lemma {:induction false} DenoteArrangedMembers(v: Value, keys: seq<string>, seen: map<string, Value>)
    requires v.Obj? && Increasing(keys) && forall k | k in keys :: k in v.members
    requires seen == v.members - (set k | k in keys)
    requires forall k | k in seen :: Int64Only(seen[k])
    ensures DenoteMembers(ArrangeMembers(v, keys), seen) == if Int64Only(v) then Some(v.members) else None
    decreases v, 0, |keys|
  {
    if keys == [] {
      assert seen == v.members;
    } else {
      var k := keys[0];
      MembersAdvance(v, keys, seen);
      var rs := ArrangeMembers(v, keys);
      assert rs[0] == (k, Arrange(v.members[k])) && rs[1..] == ArrangeMembers(v, keys[1..]);
      DenoteArrange(v.members[k]);
      if Int64Only(v.members[k]) {
        DenoteArrangedMembers(v, keys[1..], seen[k := v.members[k]]);
      }
    }
  }

  /** Parsing the canonical text of a value gives the value back, for every value whose integers fit
      in 64 bits, and nothing otherwise. */
  lemma PrintParse(v: Value)
    ensures ParseStrict(Print(v)) == if Int64Only(v) then Some(v) else None
  {
    DenoteArrange(v);
    ParseEncode(Arrange(v), "");
    assert Print(v) + "" == Print(v);
  }

  /** Distinct values have distinct canonical texts. */
  lemma PrintInjective(v: Value, w: Value)
    requires Int64Only(v) && Int64Only(w)
    requires Print(v) == Print(w)
    ensures v == w
  {
    PrintParse(v);
    PrintParse(w);
  }

  /** A document written member by member in any order is marshalled to the canonical text of what it
      stands for. */
  lemma MarshalEncoded(r: Raw)
    ensures ParseStrict(Encode(r)) == Denote(r)
    ensures Marshal(Encode(r)) == match Denote(r) case None => None case Some(v) => Some(Print(v))
  {
    ParseEncode(r, "");
    assert Encode(r) + "" == Encode(r);
  }

  // ----- everything the parser returns can be printed and parsed again -----

  lemma {:induction false} ParsedInt64(t: string)
    ensures ParseValue(t).Ok? ==> Int64Only(ParseValue(t).value)
    decreases |t|, 1
  {
    var u := SkipSpace(t);
    if u != "" && u[0] == '[' {
      ParsedItemsInt64(u[1..], true);
    } else if u != "" && u[0] == '{' {
      ParsedMembersInt64(u[1..], map[], true);
    }
  }

  lemma {:induction false} ParsedItemsInt64(t: string, first: bool)
    ensures var r := ParseItems(t, first);
            r.Ok? ==> forall i | 0 <= i < |r.value| :: Int64Only(r.value[i])
    decreases |t|, 2
  {
    var u := SkipSpace(t);
    if ParseItems(t, first).Ok? && u[0] != ']' {
      var body := AfterComma(u, first).rest;
      var item := ParseValue(body);
      ParsedInt64(body);
      ParsedItemsInt64(item.rest, false);
      assert ParseItems(t, first).value == [item.value] + ParseItems(item.rest, false).value;
    }
  }

  lemma {:induction false} ParsedMembersInt64(t: string, seen: map<string, Value>, first: bool)
    requires forall k | k in seen :: Int64Only(seen[k])
    ensures var r := ParseMembers(t, seen, first);
            r.Ok? ==> forall k | k in r.value :: Int64Only(r.value[k])
    decreases |t|, 2
  {
    var u := SkipSpace(t);
    if ParseMembers(t, seen, first).Ok? && u[0] != '}' {
      var name := ParseName(AfterComma(u, first).rest);
      ParsedInt64(name.rest);
      var item := ParseValue(name.rest);
      ParsedMembersInt64(item.rest, seen[name.value := item.value], false);
    }
  }

  lemma StrictInt64(t: string)
    ensures ParseStrict(t).Some? ==> Int64Only(ParseStrict(t).value)
  {
    ParsedInt64(t);
  }

  /** Marshalling canonical text changes nothing. */
  lemma MarshalIdempotent(t: string)
    requires Marshal(t).Some?
    ensures Marshal(Marshal(t).value) == Marshal(t)
  {
    StrictInt64(t);
    PrintParse(ParseStrict(t).value);
  }

  /** Two documents have the same canonical text exactly when they parse to the same value. */
  lemma MarshalEqualIff(s: string, t: string)
    ensures Marshal(s) == Marshal(t) <==> ParseStrict(s) == ParseStrict(t)
  {
    StrictInt64(s);
    StrictInt64(t);
    if Marshal(s).Some? && Marshal(s) == Marshal(t) {
      PrintInjective(ParseStrict(s).value, ParseStrict(t).value);
    }
  }

  // ----- signature inputs -----

  const SIGNATURE_PREFIX: string := "ISCP-V2-SIGNATURE\0"

  /** What an object type and an object are signed as. */
  ghost function SignatureText(objectType: string, members: map<string, Value>): string {
    SIGNATURE_PREFIX + objectType + ['\0'] + Print(Obj(members - {"signature"}))
  }

  /** `SignatureInput`. */
  ghost function SignatureInput(objectType: string, t: string): Option<string> {
    match ParseStrict(t)
    case Some(Obj(members)) => Some(SignatureText(objectType, members))
    case _ => None
  }

  lemma {:induction false} EncodeHasNoNul(r: Raw)
    ensures '\0' !in Encode(r)
    decreases r, 1
  {
    match r
    case RStr(s) => EscapeHasNoNul(s);
    case RInt(n) => DecimalStart(n);
    case RArr(items) => ItemsHaveNoNul(items, true);
    case RObj(members) => MembersHaveNoNul(members, true);
    case _ =>
  }

  lemma {:induction false} ItemsHaveNoNul(items: seq<Raw>, first: bool)
    ensures '\0' !in EncodeItems(items, first)
    decreases items, 0
  {
    if items != [] {
      EncodeHasNoNul(items[0]);
      ItemsHaveNoNul(items[1..], false);
    }
  }

  lemma {:induction false} MembersHaveNoNul(members: seq<(string, Raw)>, first: bool)
    ensures '\0' !in EncodeMembers(members, first)
    decreases members, 0
  {
    if members != [] {
      assert members[0].1 < members[0];
      EscapeHasNoNul(members[0].0);
      EncodeHasNoNul(members[0].1);
      MembersHaveNoNul(members[1..], false);
    }
  }

  /** Where two texts split at a NUL and no NUL follows, they split at the same place. */
  lemma LastNulUnique(a: string, b: string, c: string, d: string)
    requires '\0' !in b && '\0' !in d
    requires a + ['\0'] + b == c + ['\0'] + d
    ensures a == c && b == d
  {
    var t := a + ['\0'] + b;
    assert t[|a|] == '\0' && (c + ['\0'] + d)[|c|] == '\0';
    assert forall i | |a| < i < |t| :: t[i] == b[i - |a| - 1];
    assert forall i | |c| < i < |t| :: (c + ['\0'] + d)[i] == d[i - |c| - 1];
    assert |a| == |c|;
    assert a == t[..|a|] && c == t[..|a|];
    assert b == t[|a| + 1..] && d == t[|a| + 1..];
  }

  /** Equal signature inputs come from the same object type and the same object up to its top-level
      signature. The type may be any string: canonical text never contains the separator. */
  lemma SignatureInputSeparates(typeA: string, a: string, typeB: string, b: string)
    requires SignatureInput(typeA, a).Some?
    requires SignatureInput(typeA, a) == SignatureInput(typeB, b)
    ensures typeA == typeB
    ensures ParseStrict(a).value.members - {"signature"} == ParseStrict(b).value.members - {"signature"}
  {
    var va := Obj(ParseStrict(a).value.members - {"signature"});
    var vb := Obj(ParseStrict(b).value.members - {"signature"});
    EncodeHasNoNul(Arrange(va));
    EncodeHasNoNul(Arrange(vb));
    assert SignatureInput(typeA, a).value == SIGNATURE_PREFIX + typeA + ['\0'] + Print(va);
    assert SignatureInput(typeB, b).value == SIGNATURE_PREFIX + typeB + ['\0'] + Print(vb);
    LastNulUnique(SIGNATURE_PREFIX + typeA, Print(va), SIGNATURE_PREFIX + typeB, Print(vb));
    assert typeA == (SIGNATURE_PREFIX + typeA)[|SIGNATURE_PREFIX|..];
    assert typeB == (SIGNATURE_PREFIX + typeB)[|SIGNATURE_PREFIX|..];
    StrictInt64(a);
    StrictInt64(b);
    PrintInjective(va, vb);
  }

  /** Changing only the signature member, or adding or removing it, never changes what is signed. */
  lemma SignatureInputIgnoresSignature(objectType: string, a: string, b: string)
    requires ParseStrict(a).Some? && ParseStrict(a).value.Obj?
    requires ParseStrict(b).Some? && ParseStrict(b).value.Obj?
    ensures SignatureInput(objectType, a) == SignatureInput(objectType, b)
       <==> ParseStrict(a).value.members - {"signature"} == ParseStrict(b).value.members - {"signature"}
  {
    if SignatureInput(objectType, a) == SignatureInput(objectType, b) {
      SignatureInputSeparates(objectType, a, objectType, b);
    }
  }
}
