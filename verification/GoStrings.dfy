/** Options, blank strings, and the order Go gives strings: byte by byte, which for valid UTF-8 is the
    same as code point by code point. Object members are sorted by it (`sort.Strings`) and session
    labels and transcripts compare device IDs by it. */
module GoStrings {

  datatype Option<+T> = None | Some(value: T)

  /** A hash that never gives two texts the same digest. */
  ghost predicate Injective(hash: string -> string) {
    forall x, y :: hash(x) == hash(y) ==> x == y
  }

  /** `unicode.IsSpace`. */
  predicate UnicodeSpace(c: char) {
    || '\t' <= c <= '\r' || c == ' ' || c == '\U{85}' || c == '\U{A0}' || c == '\U{1680}'
    || '\U{2000}' <= c <= '\U{200A}' || c == '\U{2028}' || c == '\U{2029}' || c == '\U{202F}' || c == '\U{205F}'
    || c == '\U{3000}'
  }

  /** `strings.TrimSpace` leaves nothing. */
  predicate Blank(s: string) {
    forall c | c in s :: UnicodeSpace(c)
  }

  /** Go's `a < b` on strings. */
  predicate Before(a: string, b: string) {
    if b == "" then false
    else if a == "" then true
    else if a[0] == b[0] then Before(a[1..], b[1..])
    else a[0] < b[0]
  }

  lemma {:induction false} BeforeTrichotomy(a: string, b: string)
    ensures !Before(a, a)
    ensures a == b || Before(a, b) || Before(b, a)
    ensures !(Before(a, b) && Before(b, a))
    decreases |a|
  {
    if a != "" {
      BeforeTrichotomy(a[1..], a[1..]);
      if b != "" && a[0] == b[0] {
        BeforeTrichotomy(a[1..], b[1..]);
        assert a == [a[0]] + a[1..] && b == [b[0]] + b[1..];
      }
    }
  }

  /** The two differ first at place n, where the first ends or has the smaller character. */
  predicate DiffersAt(a: string, b: string, n: nat) {
    n <= |a| && n < |b| && a[..n] == b[..n] && (n == |a| || a[n] < b[n])
  }

  /** The first is a proper prefix of the second, or has the smaller code point where they first differ. */
  ghost predicate SmallerAtFirstDifference(a: string, b: string) {
    exists n: nat :: DiffersAt(a, b, n)
  }

  /** What the order is, said by the place of the first difference. */
  lemma {:induction false} BeforeIff(a: string, b: string)
    ensures Before(a, b) <==> SmallerAtFirstDifference(a, b)
    decreases |a|
  {
    if a == "" || b == "" || a[0] != b[0] {
      if Before(a, b) { assert DiffersAt(a, b, 0); }
      if n: nat :| DiffersAt(a, b, n) {
        assert n == 0;
      }
    } else {
      BeforeIff(a[1..], b[1..]);
      if n: nat :| DiffersAt(a[1..], b[1..], n) {
        assert a[..n + 1] == [a[0]] + a[1..][..n] && b[..n + 1] == [b[0]] + b[1..][..n];
        assert DiffersAt(a, b, n + 1);
      }
      if n: nat :| DiffersAt(a, b, n) {
        assert n > 0;
        assert a[1..][..n - 1] == a[..n][1..] && b[1..][..n - 1] == b[..n][1..];
        assert DiffersAt(a[1..], b[1..], n - 1);
      }
    }
  }

  lemma {:induction false} BeforeTransitive(a: string, b: string, c: string)
    requires Before(a, b) && Before(b, c)
    ensures Before(a, c)
  {
    if a != "" && a[0] == b[0] && b[0] == c[0] {
      BeforeTransitive(a[1..], b[1..], c[1..]);
    }
  }

  /** Strictly increasing, hence also without repeats. */
  ghost predicate Increasing(keys: seq<string>) {
    forall i, j | 0 <= i < j < |keys| :: Before(keys[i], keys[j])
  }

  ghost predicate IsLeast(least: string, s: set<string>) {
    least in s && forall k | k in s && k != least :: Before(least, k)
  }

  lemma {:induction false} LeastExists(s: set<string>)
    requires s != {}
    ensures exists least :: IsLeast(least, s)
  {
    var x :| x in s;
    if s == {x} {
      assert IsLeast(x, s);
    } else {
      LeastExists(s - {x});
      var m :| IsLeast(m, s - {x});
      BeforeTrichotomy(x, m);
      var least := if Before(x, m) then x else m;
      forall k | k in s && k != least ensures Before(least, k) {
        if Before(x, m) && k != m { BeforeTransitive(x, m, k); }
      }
      assert IsLeast(least, s);
    }
  }

  /** The elements of a set in increasing order. */
  ghost function Ascending(s: set<string>): (keys: seq<string>)
    ensures Increasing(keys)
    ensures forall k :: k in keys <==> k in s
    ensures |keys| == |s|
  {
    if s == {} then []
    else
      LeastExists(s);
      var least :| IsLeast(least, s);
      var tail := Ascending(s - {least});
      assert forall k :: k in tail <==> k in s - {least};
      [least] + tail
  }

  /** An increasing arrangement of a set is unique: whatever order the keys were collected in,
      sorting gives the same sequence. */
  lemma {:induction false} IncreasingUnique(a: seq<string>, b: seq<string>)
    requires Increasing(a) && Increasing(b)
    requires forall k :: k in a <==> k in b
    ensures a == b
    decreases |a|
  {
    if a == [] {
      assert forall i | 0 <= i < |b| :: b[i] in b;
    } else {
      assert a[0] in b;
      assert b[0] in a;
      BeforeTrichotomy(a[0], b[0]);
      assert a[0] == b[0];
      forall k ensures k in a[1..] <==> k in b[1..] {
        BeforeTrichotomy(k, k);
        assert k in a <==> k == a[0] || k in a[1..];
        assert k in b <==> k == b[0] || k in b[1..];
      }
      IncreasingUnique(a[1..], b[1..]);
      assert a == [a[0]] + a[1..] && b == [b[0]] + b[1..];
    }
  }

  /** `sort.Strings`, as an insertion sort over keys without repeats. */
  method SortKeys(keys: seq<string>) returns (sorted: seq<string>)
    requires forall i, j | 0 <= i < j < |keys| :: keys[i] != keys[j]
    ensures sorted == Ascending(set k | k in keys)
    ensures |sorted| == |keys| && forall k :: k in sorted <==> k in keys
    ensures forall i, j | 0 <= i < j < |sorted| :: SmallerAtFirstDifference(sorted[i], sorted[j])
  {
    sorted := [];
    for n := 0 to |keys|
      invariant Increasing(sorted) && |sorted| == n
      invariant forall k :: k in sorted <==> k in keys[..n]
    {
      var at := 0;
      while at < |sorted| && Before(sorted[at], keys[n])
        invariant 0 <= at <= |sorted|
        invariant forall i | 0 <= i < at :: Before(sorted[i], keys[n])
      {
        at := at + 1;
      }
      assert keys[n] !in keys[..n];
      InsertIncreasing(sorted, keys[n], at);
      sorted := sorted[..at] + [keys[n]] + sorted[at..];
      assert keys[..n + 1] == keys[..n] + [keys[n]];
    }
    assert keys[..|keys|] == keys;
    var all := set k | k in keys;
    assert forall k :: k in Ascending(all) <==> k in all;
    IncreasingUnique(sorted, Ascending(all));
    forall i, j | 0 <= i < j < |sorted| ensures SmallerAtFirstDifference(sorted[i], sorted[j]) {
      BeforeIff(sorted[i], sorted[j]);
    }
  }

  lemma InsertIncreasing(sorted: seq<string>, key: string, at: nat)
    requires Increasing(sorted) && at <= |sorted| && key !in sorted
    requires forall i | 0 <= i < at :: Before(sorted[i], key)
    requires at == |sorted| || !Before(sorted[at], key)
    ensures Increasing(sorted[..at] + [key] + sorted[at..])
    ensures forall k :: k in sorted[..at] + [key] + sorted[at..] <==> k in sorted || k == key
  {
    assert sorted == sorted[..at] + sorted[at..];
    forall i | at <= i < |sorted| ensures Before(key, sorted[i]) {
      BeforeTrichotomy(key, sorted[at]);
      if i > at { BeforeTransitive(key, sorted[at], sorted[i]); }
    }
  }
}
