/** Structs as JSON objects: which field values a written object determines. */
module JsonFields {
  import opened GoStrings
  import opened Json
  import opened Canonical

  type Fields = seq<(string, Raw)>

  ghost predicate DistinctNames(fields: Fields) {
    forall i, j | 0 <= i < j < |fields| :: fields[i].0 != fields[j].0
  }

  ghost predicate AllDenote(fields: Fields) {
    forall i | 0 <= i < |fields| :: Denote(fields[i].1).Some?
  }

  ghost predicate NamesNew(fields: Fields, seen: map<string, Value>) {
    forall i | 0 <= i < |fields| :: fields[i].0 !in seen
  }

  /** A written object stands for a value exactly when no name repeats and every field stands for one. */
  lemma {:induction false} FieldsDenoteIff(fields: Fields, seen: map<string, Value>)
    ensures DenoteMembers(fields, seen).Some? <==> DistinctNames(fields) && AllDenote(fields) && NamesNew(fields, seen)
  {
    if fields != [] {
      var (name, raw) := fields[0];
      var v, tail := Denote(raw), fields[1..];
      assert forall i | 0 < i < |fields| :: fields[i] == tail[i - 1];
      assert fields == [fields[0]] + tail;
      if name !in seen && v.Some? {
        FieldsDenoteIff(tail, seen[name := v.value]);
      }
    }
  }

  /** That value maps each name to what its field stands for. */
  lemma {:induction false} FieldValues(fields: Fields, seen: map<string, Value>)
    requires DenoteMembers(fields, seen).Some?
    ensures var r := DenoteMembers(fields, seen).value;
            && (forall k | k in seen :: k in r && r[k] == seen[k])
            && (forall i | 0 <= i < |fields| :: fields[i].0 in r && Denote(fields[i].1) == Some(r[fields[i].0]))
  {
    if fields != [] {
      var tail := fields[1..];
      assert forall i | 0 < i < |fields| :: fields[i] == tail[i - 1];
      FieldValues(tail, seen[fields[0].0 := Denote(fields[0].1).value]);
    }
  }

  /** And it has no other names. */
  lemma {:induction false} FieldNames(fields: Fields, seen: map<string, Value>, k: string)
    requires DenoteMembers(fields, seen).Some? && k in DenoteMembers(fields, seen).value && k !in seen
    ensures exists i :: 0 <= i < |fields| && fields[i].0 == k
  {
    var tail := fields[1..];
    if k != fields[0].0 {
      FieldNames(tail, seen[fields[0].0 := Denote(fields[0].1).value], k);
      var i :| 0 <= i < |tail| && tail[i].0 == k;
      assert fields[i + 1].0 == k;
    }
  }

  lemma ObjectDenotes(fields: Fields)
    ensures Denote(RObj(fields)).Some? <==> DistinctNames(fields) && AllDenote(fields)
  {
    FieldsDenoteIff(fields, map[]);
  }

  /** The value of an object: exactly the names of its fields, each with what its field stands for. */
  lemma FieldsDenote(fields: Fields)
    requires Denote(RObj(fields)).Some?
    ensures var r := Denote(RObj(fields)).value.members;
            && (forall i | 0 <= i < |fields| :: fields[i].0 in r && Denote(fields[i].1) == Some(r[fields[i].0]))
            && (forall k | k in r :: exists i :: 0 <= i < |fields| && fields[i].0 == k)
  {
    FieldValues(fields, map[]);
    forall k | k in Denote(RObj(fields)).value.members ensures exists i :: 0 <= i < |fields| && fields[i].0 == k {
      FieldNames(fields, map[], k);
    }
  }

  /** The names of written fields, as a set. */
  lemma NamesAre(fields: Fields, names: set<string>)
    requires Denote(RObj(fields)).Some?
    requires forall i | 0 <= i < |fields| :: fields[i].0 in names
    requires forall k | k in names :: exists i :: 0 <= i < |fields| && fields[i].0 == k
    ensures Denote(RObj(fields)).value.members.Keys == names
  {
    FieldsDenote(fields);
  }

  /** Two written objects with the same names that stand for the same value agree field by field. */
  lemma SameObjectSameFields(a: Fields, b: Fields, i: nat)
    requires i < |a| && |a| == |b| && a[i].0 == b[i].0
    requires Denote(RObj(a)).Some? && Denote(RObj(a)) == Denote(RObj(b))
    ensures Denote(a[i].1) == Denote(b[i].1)
  {
    FieldsDenote(a);
    FieldsDenote(b);
  }

  // ----- the order of fields does not matter -----

  lemma RepeatedElement(fields: Fields, i: nat, j: nat)
    requires i < j < |fields| && fields[i] == fields[j]
    ensures multiset(fields)[fields[i]] >= 2
  {
    assert fields == fields[..j] + [fields[j]] + fields[j + 1..];
    assert fields[i] in fields[..j];
  }

  lemma {:induction false} TwoPlaces(fields: Fields, f: (string, Raw))
    requires multiset(fields)[f] >= 2
    ensures exists i, j :: 0 <= i < j < |fields| && fields[i] == f && fields[j] == f
  {
    assert f in multiset(fields);
    var i :| 0 <= i < |fields| && fields[i] == f;
    assert fields == fields[..i] + [f] + fields[i + 1..];
    assert multiset(fields[..i] + fields[i + 1..])[f] >= 1;
    var k :| 0 <= k < |fields[..i] + fields[i + 1..]| && (fields[..i] + fields[i + 1..])[k] == f;
    assert if k < i then fields[k] == f else fields[k + 1] == f;
  }

  lemma DistinctNamesOfPermutation(a: Fields, b: Fields)
    requires multiset(a) == multiset(b) && DistinctNames(a)
    ensures DistinctNames(b)
  {
    forall i, j | 0 <= i < j < |b| ensures b[i].0 != b[j].0 {
      if b[i] == b[j] {
        RepeatedElement(b, i, j);
        TwoPlaces(a, b[i]);
      } else {
        assert b[i] in multiset(a) && b[j] in multiset(a);
      }
    }
  }

  lemma AllDenoteOfPermutation(a: Fields, b: Fields)
    requires multiset(a) == multiset(b) && AllDenote(a)
    ensures AllDenote(b)
  {
    forall i | 0 <= i < |b| ensures Denote(b[i].1).Some? { assert b[i] in multiset(a); }
  }

  /** Every name of one permutation has its value in the other. */
  lemma ValueOfPermutation(a: Fields, b: Fields, k: string)
    requires multiset(a) == multiset(b) && Denote(RObj(a)).Some? && Denote(RObj(b)).Some?
    requires k in Denote(RObj(a)).value.members
    ensures k in Denote(RObj(b)).value.members && Denote(RObj(b)).value.members[k] == Denote(RObj(a)).value.members[k]
  {
    FieldsDenote(a);
    FieldsDenote(b);
    var i :| 0 <= i < |a| && a[i].0 == k;
    assert a[i] in multiset(b);
    var j :| 0 <= j < |b| && b[j] == a[i];
  }

  lemma DenoteOfPermutation(a: Fields, b: Fields)
    requires multiset(a) == multiset(b) && Denote(RObj(a)).Some?
    ensures Denote(RObj(b)) == Denote(RObj(a))
  {
    assert Denote(RObj(b)).Some? by {
      ObjectDenotes(a);
      ObjectDenotes(b);
      DistinctNamesOfPermutation(a, b);
      AllDenoteOfPermutation(a, b);
    }
    var ma, mb := Denote(RObj(a)).value.members, Denote(RObj(b)).value.members;
    forall k | k in ma ensures k in mb && mb[k] == ma[k] { ValueOfPermutation(a, b, k); }
    forall k | k in mb ensures k in ma { ValueOfPermutation(b, a, k); }
    assert ma == mb;
  }

  /** However the members of an object are ordered when it is written, it stands for the same value. */
  lemma FieldOrderIrrelevant(a: Fields, b: Fields)
    requires multiset(a) == multiset(b)
    ensures Denote(RObj(a)) == Denote(RObj(b))
  {
    if Denote(RObj(a)).Some? {
      DenoteOfPermutation(a, b);
    } else if Denote(RObj(b)).Some? {
      DenoteOfPermutation(b, a);
    }
  }

  /** The two differ only in the order of members, at any depth. */
  ghost predicate Reordered(r: Raw, s: Raw)
    decreases r, 1
  {
    match r
    case RArr(items) => s.RArr? && |s.items| == |items| && forall i | 0 <= i < |items| :: Reordered(items[i], s.items[i])
    case RObj(members) => s.RObj? && exists inner :: ReorderedInside(r, inner) && multiset(inner) == multiset(s.members)
    case _ => r == s
  }

  /** The same names in the same places, with values that differ only in order. */
  ghost predicate ReorderedInside(r: Raw, inner: Fields)
    requires r.RObj?
    decreases r, 0
  {
    && |inner| == |r.members|
    && forall i | 0 <= i < |inner| ::
         r.members[i].1 < r.members[i] && inner[i].0 == r.members[i].0 && Reordered(r.members[i].1, inner[i].1)
  }

  lemma {:induction false} ItemsDenoteAlike(a: seq<Raw>, b: seq<Raw>)
    requires |a| == |b| && forall i | 0 <= i < |a| :: Denote(a[i]) == Denote(b[i])
    ensures DenoteItems(a) == DenoteItems(b)
  {
    if a != [] { ItemsDenoteAlike(a[1..], b[1..]); }
  }

  lemma {:induction false} MembersDenoteAlike(a: Fields, b: Fields, seen: map<string, Value>)
    requires |a| == |b| && forall i | 0 <= i < |a| :: a[i].0 == b[i].0 && Denote(a[i].1) == Denote(b[i].1)
    ensures DenoteMembers(a, seen) == DenoteMembers(b, seen)
  {
    if a != [] && a[0].0 !in seen && Denote(a[0].1).Some? {
      MembersDenoteAlike(a[1..], b[1..], seen[a[0].0 := Denote(a[0].1).value]);
    }
  }

  /** Reordering members anywhere in a document never changes the value it stands for. */
  lemma {:induction false} OrderIrrelevant(r: Raw, s: Raw)
    requires Reordered(r, s)
    ensures Denote(r) == Denote(s)
    decreases r
  {
    match r
    case RArr(items) =>
      forall i | 0 <= i < |items| ensures Denote(items[i]) == Denote(s.items[i]) { OrderIrrelevant(items[i], s.items[i]); }
      ItemsDenoteAlike(items, s.items);
    case RObj(members) =>
      var inner: Fields :| ReorderedInside(r, inner) && multiset(inner) == multiset(s.members);
      forall i | 0 <= i < |inner| ensures members[i].0 == inner[i].0 && Denote(members[i].1) == Denote(inner[i].1) {
        assert members[i].1 < members[i];
        OrderIrrelevant(members[i].1, inner[i].1);
      }
      MembersDenoteAlike(members, inner, map[]);
      FieldOrderIrrelevant(inner, s.members);
    case _ =>
  }

  /** Texts that differ only in the order of members, at any depth, parse to the same value and have the same canonical
      text, or are refused alike. */
  lemma MarshalIgnoresOrder(r: Raw, s: Raw)
    requires Reordered(r, s)
    ensures ParseStrict(Encode(r)) == ParseStrict(Encode(s)) && Marshal(Encode(r)) == Marshal(Encode(s))
  {
    OrderIrrelevant(r, s);
    MarshalEncoded(r);
    MarshalEncoded(s);
  }
}
