/** The in-memory delivery queue (`pkg/server/queue`): a slice of messages that is filtered in place, a byte
    quota, expiry, and delivery by priority and age. Times are nanoseconds since the zero time. */
module DeliveryQueue {
  import opened GoTime

  datatype Message = Message(
    domain: string, messageID: string, sender: string, recipient: string, envelope: string, priority: int,
    expiresAt: Time, queuedAt: Time)

  // ----- selecting and ordering -----

  predicate Live(m: Message, now: Time) {
    !(now > m.expiresAt)
  }

  predicate For(m: Message, domain: string, recipient: string) {
    m.domain == domain && m.recipient == recipient
  }

  type Test = Message -> bool

  function LiveAt(now: Time): Test {
    m => Live(m, now)
  }

  function ExpiredAt(now: Time): Test {
    m => !Live(m, now)
  }

  /** The live messages of one recipient. */
  function Mine(domain: string, recipient: string, now: Time): Test {
    m => Live(m, now) && For(m, domain, recipient)
  }

  /** The live messages of everyone else. */
  function Others(domain: string, recipient: string, now: Time): Test {
    m => Live(m, now) && !For(m, domain, recipient)
  }

  /** The messages that pass a test, in order. */
  function Select(ms: seq<Message>, test: Test): seq<Message>
    decreases |ms|
  {
    if ms == [] then []
    else
      var n := |ms| - 1;
      if test(ms[n]) then Select(ms[..n], test) + [ms[n]] else Select(ms[..n], test)
  }

  /** The order of delivery, strictly: higher priority first, then earlier queue time. */
  predicate Ahead(a: Message, b: Message) {
    a.priority > b.priority || (a.priority == b.priority && a.queuedAt < b.queuedAt)
  }

  ghost predicate Sorted(ms: seq<Message>) {
    forall i, j | 0 <= i < j < |ms| :: !Ahead(ms[j], ms[i])
  }

  /** `sort.Slice` promises a sorted permutation and nothing about ties. */
  ghost predicate SortOf(ms: seq<Message>, sorted: seq<Message>) {
    Sorted(sorted) && multiset(sorted) == multiset(ms)
  }

  function Bytes(ms: seq<Message>): nat {
    if ms == [] then 0 else Bytes(ms[..|ms| - 1]) + |ms[|ms| - 1].envelope|
  }

  // ----- the operations -----

  function Stamped(m: Message, now: Time): Message {
    if m.queuedAt == 0 then m.(queuedAt := now) else m
  }

  predicate Fits(maxBytes: int, ms: seq<Message>, m: Message) {
    |m.envelope| <= maxBytes && Bytes(ms) + |m.envelope| <= maxBytes
  }

  function Count(limit: int, available: nat): nat {
    if limit <= 0 then 0 else if limit < available then limit else available
  }

  /** `DequeueFor`: the front of a sorting of the recipient's live messages is returned; the rest goes behind
      everyone else's, which keep their order; expired messages are gone. */
  ghost predicate Dequeues(
    before: seq<Message>, domain: string, recipient: string, now: Time, limit: int, out: seq<Message>, after: seq<Message>)
  {
    exists sorted :: DequeuesVia(before, domain, recipient, now, limit, out, after, sorted)
  }

  ghost predicate DequeuesVia(
    before: seq<Message>, domain: string, recipient: string, now: Time, limit: int, out: seq<Message>, after: seq<Message>,
    sorted: seq<Message>)
  {
    && SortOf(Select(before, Mine(domain, recipient, now)), sorted)
    && out == sorted[..Count(limit, |sorted|)]
    && after == Select(before, Others(domain, recipient, now)) + sorted[Count(limit, |sorted|)..]
  }

  /** What `SnapshotMetadata` reports of a message. */
  datatype Metadata = Metadata(
    domain: string, messageID: string, sender: string, recipient: string, priority: int, queuedAt: Time, expiresAt: Time)

  function Describe(m: Message): Metadata {
    Metadata(m.domain, m.messageID, m.sender, m.recipient, m.priority, m.queuedAt, m.expiresAt)
  }

  function DescribeAll(ms: seq<Message>): seq<Metadata> {
    seq(|ms|, i requires 0 <= i < |ms| => Describe(ms[i]))
  }

  /** The report tells everything about the messages but their envelopes. */
  ghost predicate Lists(out: seq<Metadata>, ms: seq<Message>) {
    && |out| == |ms|
    && forall i | 0 <= i < |out| ::
         && out[i].domain == ms[i].domain && out[i].messageID == ms[i].messageID
         && out[i].sender == ms[i].sender && out[i].recipient == ms[i].recipient
         && out[i].priority == ms[i].priority && out[i].queuedAt == ms[i].queuedAt && out[i].expiresAt == ms[i].expiresAt
  }

  ghost predicate Reports(before: seq<Message>, now: Time, out: seq<Metadata>) {
    exists sorted :: SortOf(Select(before, LiveAt(now)), sorted) && out == DescribeAll(sorted)
  }

  method SortMessages(ms: seq<Message>) returns (sorted: seq<Message>)
    ensures SortOf(ms, sorted) && |sorted| == |ms|
    ensures forall i, j | 0 <= i < j < |sorted| ::
              || sorted[i].priority > sorted[j].priority
              || (sorted[i].priority == sorted[j].priority && sorted[i].queuedAt <= sorted[j].queuedAt)
  {
    sorted := [];
    for i := 0 to |ms|
      invariant SortOf(ms[..i], sorted) && |sorted| == i
    {
      assert ms[..i + 1] == ms[..i] + [ms[i]];
      sorted := InsertMessage(sorted, ms[i]);
    }
    assert ms[..|ms|] == ms;
  }

  method InsertMessage(ms: seq<Message>, m: Message) returns (sorted: seq<Message>)
    requires Sorted(ms)
    ensures SortOf(ms + [m], sorted) && |sorted| == |ms| + 1
  {
    var k := 0;
    while k < |ms| && !Ahead(m, ms[k])
      invariant 0 <= k <= |ms|
      invariant forall i | 0 <= i < k :: !Ahead(m, ms[i])
    {
      k := k + 1;
    }
    sorted := ms[..k] + [m] + ms[k..];
    InsertedSorted(ms, m, k);
    assert multiset(sorted) == multiset(ms + [m]) by { assert ms == ms[..k] + ms[k..]; }
  }

  ghost predicate NoneAhead(later: seq<Message>, earlier: seq<Message>) {
    forall m, e | m in later && e in earlier :: !Ahead(m, e)
  }

  lemma SortedConcat(a: seq<Message>, b: seq<Message>)
    requires Sorted(a) && Sorted(b) && NoneAhead(b, a)
    ensures Sorted(a + b)
  {
    var ab := a + b;
    forall i, j | 0 <= i < j < |ab|
      ensures !Ahead(ab[j], ab[i])
    {
      if j < |a| {
        assert ab[i] == a[i] && ab[j] == a[j];
      } else if i < |a| {
        assert ab[i] == a[i] && ab[j] == b[j - |a|];
      } else {
        assert ab[i] == b[i - |a|] && ab[j] == b[j - |a|];
      }
    }
  }

  lemma SortedSplit(ms: seq<Message>, k: nat)
    requires Sorted(ms) && k <= |ms|
    ensures Sorted(ms[..k]) && Sorted(ms[k..]) && NoneAhead(ms[k..], ms[..k])
  {
  }

  lemma InsertedSorted(ms: seq<Message>, m: Message, k: nat)
    requires Sorted(ms) && k <= |ms|
    requires forall i | 0 <= i < k :: !Ahead(m, ms[i])
    requires k < |ms| ==> Ahead(m, ms[k])
    ensures Sorted(ms[..k] + [m] + ms[k..])
  {
    SortedSplit(ms, k);
    SortedConcat(ms[..k], [m]);
    forall x, e | x in ms[k..] && e in ms[..k] + [m]
      ensures !Ahead(x, e)
    {
      if e !in ms[..k] {
        var j :| k <= j < |ms| && ms[j] == x;
        assert j > k ==> !Ahead(ms[j], ms[k]);
      }
    }
    SortedConcat(ms[..k] + [m], ms[k..]);
  }

  /** What is handed out and what goes back. */
  method Take(sorted: seq<Message>, limit: int) returns (out: seq<Message>, rest: seq<Message>)
    ensures out == sorted[..Count(limit, |sorted|)] && rest == sorted[Count(limit, |sorted|)..]
  {
    if limit <= 0 {
      rest, out := sorted, [];
    } else if |sorted| > limit {
      rest, out := sorted[limit..], sorted[..limit];
    } else {
      rest, out := [], sorted;
    }
  }

  class Queue {
    var buffer: array<Message>     // the backing array of the slice
    var length: nat
    const maxBytes: int
    var currentBytes: int

    ghost predicate Valid()
      reads this, buffer
    {
      && length <= buffer.Length
      && currentBytes == Bytes(buffer[..length])
      && currentBytes <= (if maxBytes < 0 then 0 else maxBytes)
    }

    ghost function Messages(): seq<Message>
      reads this, buffer
      requires length <= buffer.Length
    {
      buffer[..length]
    }

    constructor (maxBytes: int)
      ensures Valid() && fresh(buffer) && Messages() == [] && this.maxBytes == maxBytes
    {
      buffer, length, this.maxBytes, currentBytes := new Message[0], 0, maxBytes, 0;
    }

    method DropExpired(now: Time)
      requires length <= buffer.Length
      modifies this, buffer
      ensures buffer == old(buffer) && length <= buffer.Length
      ensures Messages() == Select(old(Messages()), LiveAt(now)) && currentBytes == Bytes(Messages())
    {
      length := KeepLive(buffer, length, now);
      Recalculate();
    }

    method Recalculate()
      requires length <= buffer.Length
      modifies this`currentBytes
      ensures currentBytes == Bytes(buffer[..length])
    {
      var total := 0;
      for i := 0 to length
        invariant total == Bytes(buffer[..i])
      {
        assert buffer[..i + 1][..i] == buffer[..i];
        total := total + |buffer[i].envelope|;
      }
      currentBytes := total;
    }

    method Enqueue(msg: Message, now: Time) returns (ok: bool)
      requires Valid()
      modifies this, buffer
      ensures Valid() && (buffer == old(buffer) || fresh(buffer))
      ensures ok <==> Fits(maxBytes, Select(old(Messages()), LiveAt(now)), msg)
      ensures Messages() == Select(old(Messages()), LiveAt(now)) + (if ok then [Stamped(msg, now)] else [])
      ensures ok <==> UnexpiredBytes(old(Messages()), now) + |msg.envelope| <= maxBytes
      ensures forall m :: m in Messages() <==>
                || (m in old(Messages()) && now <= m.expiresAt)
                || (ok && m == msg.(queuedAt := if msg.queuedAt == 0 then now else msg.queuedAt))
    {
      ghost var before := buffer[..length];
      UnexpiredAreLive(before, now);
      DropExpired(now);
      SelectLight(before, LiveAt(now));
      var size := |msg.envelope|;
      if size > maxBytes || currentBytes + size > maxBytes { return false; }
      Append(Stamped(msg, now));
      currentBytes := currentBytes + size;
      return true;
    }

    /** `append`: in place while there is room, otherwise into a larger array. */
    method Append(m: Message)
      requires length <= buffer.Length
      modifies this`buffer, this`length, buffer
      ensures length <= buffer.Length && (buffer == old(buffer) || fresh(buffer))
      ensures Messages() == old(Messages()) + [m]
    {
      if length == buffer.Length {
        var a, n := buffer, length;
        var larger := new Message[2 * n + 1](_ => m);
        for i := 0 to n
          invariant buffer == a && length == n && a[..n] == old(buffer[..length])
          invariant larger[..i] == a[..i]
        {
          larger[i] := a[i];
        }
        buffer := larger;
      }
      buffer[length] := m;
      length := length + 1;
    }

    method DequeueFor(domain: string, recipient: string, now: Time, limit: int) returns (out: seq<Message>)
      requires Valid()
      modifies this, buffer
      ensures Valid() && buffer == old(buffer)
      ensures Dequeues(old(Messages()), domain, recipient, now, limit, out, Messages())
      ensures HandsOut(old(Messages()), domain, recipient, now, limit, out, Messages())
    {
      ghost var before := buffer[..length];
      var kept, matches := Partition(buffer, length, domain, recipient, now);
      var sorted := SortMessages(matches);
      var rest;
      out, rest := Take(sorted, limit);
      length := PutAll(buffer, kept, rest);
      Recalculate();
      assert DequeuesVia(before, domain, recipient, now, limit, out, buffer[..length], sorted);
      DequeueLight(before, domain, recipient, now, limit, out, buffer[..length]);
      DequeueHandsOut(before, domain, recipient, now, limit, out, buffer[..length]);
    }

    method SnapshotMetadata(now: Time) returns (out: seq<Metadata>)
      requires Valid()
      modifies this, buffer
      ensures Valid() && buffer == old(buffer)
      ensures Messages() == Select(old(Messages()), LiveAt(now))
      ensures Reports(old(Messages()), now, out)
      ensures forall m :: m in Messages() <==> m in old(Messages()) && now <= m.expiresAt
      ensures exists order :: Lists(out, order) && multiset(order) == multiset(Messages())
      ensures forall i, j | 0 <= i < j < |out| ::
                out[i].priority > out[j].priority || (out[i].priority == out[j].priority && out[i].queuedAt <= out[j].queuedAt)
    {
      ghost var before := buffer[..length];
      UnexpiredAreLive(before, now);
      length := KeepLive(buffer, length, now);
      SelectLight(before, LiveAt(now));
      Recalculate();
      var sorted := SortMessages(buffer[..length]);
      out := DescribeAll(sorted);
      assert Lists(out, sorted);
    }
  }

  /** The filtering loop: what is kept overwrites the front of what is still being read. */
  method KeepLive(a: array<Message>, n: nat, now: Time) returns (kept: nat)
    requires n <= a.Length
    modifies a
    ensures kept <= n && a[..kept] == Select(old(a[..n]), LiveAt(now))
  {
    ghost var before := a[..n];
    kept := 0;
    for i := 0 to n
      invariant kept <= i
      invariant a[..kept] == Select(before[..i], LiveAt(now))
      invariant forall k | i <= k < n :: a[k] == before[k]
    {
      SelectNext(before, i, LiveAt(now));
      var m := a[i];
      if !(now > m.expiresAt) {
        kept := Put(a, kept, m);
      }
    }
    assert before[..n] == before;
  }

  /** The same loop for `DequeueFor`: one recipient's live messages are moved out, the rest of the live ones kept. */
  method Partition(a: array<Message>, n: nat, domain: string, recipient: string, now: Time)
    returns (kept: nat, matches: seq<Message>)
    requires n <= a.Length
    modifies a
    ensures kept + |matches| <= n
    ensures a[..kept] == Select(old(a[..n]), Others(domain, recipient, now))
    ensures matches == Select(old(a[..n]), Mine(domain, recipient, now))
  {
    ghost var before := a[..n];
    kept, matches := 0, [];
    for i := 0 to n
      invariant kept + |matches| <= i
      invariant a[..kept] == Select(before[..i], Others(domain, recipient, now))
      invariant matches == Select(before[..i], Mine(domain, recipient, now))
      invariant forall k | i <= k < n :: a[k] == before[k]
    {
      SelectNext(before, i, Others(domain, recipient, now));
      SelectNext(before, i, Mine(domain, recipient, now));
      var m := a[i];
      if now > m.expiresAt {
      } else if m.domain == domain && m.recipient == recipient {
        matches := matches + [m];
      } else {
        kept := Put(a, kept, m);
      }
    }
    assert before[..n] == before;
  }

  /** `kept = append(kept, m)` where `kept` is a prefix of the slice being read. */
  method Put(a: array<Message>, kept: nat, m: Message) returns (next: nat)
    requires kept < a.Length
    modifies a
    ensures next == kept + 1 && a[..next] == old(a[..kept]) + [m]
    ensures forall k | kept < k < a.Length :: a[k] == old(a[k])
  {
    a[kept] := m;
    next := kept + 1;
  }

  method PutAll(a: array<Message>, kept: nat, ms: seq<Message>) returns (next: nat)
    requires kept + |ms| <= a.Length
    modifies a
    ensures next == kept + |ms| && a[..next] == old(a[..kept]) + ms
  {
    next := kept;
    for i := 0 to |ms|
      invariant next == kept + i && a[..next] == old(a[..kept]) + ms[..i]
    {
      next := Put(a, next, ms[i]);
      assert ms[..i + 1] == ms[..i] + [ms[i]];
    }
    assert ms[..|ms|] == ms;
  }

  // ----- facts about selection and bytes -----

  lemma SelectNext(ms: seq<Message>, i: nat, test: Test)
    requires i < |ms|
    ensures Select(ms[..i + 1], test) == Select(ms[..i], test) + (if test(ms[i]) then [ms[i]] else [])
  {
    assert ms[..i + 1][..i] == ms[..i];
  }

  lemma {:induction false} SelectMembers(ms: seq<Message>, test: Test)
    ensures forall m :: m in Select(ms, test) <==> m in ms && test(m)
    decreases |ms|
  {
    if ms != [] {
      var n := |ms| - 1;
      SelectMembers(ms[..n], test);
      assert ms == ms[..n] + [ms[n]];
    }
  }

  lemma {:induction false} SelectLight(ms: seq<Message>, test: Test)
    ensures Bytes(Select(ms, test)) <= Bytes(ms)
    decreases |ms|
  {
    if ms != [] {
      var n := |ms| - 1;
      SelectLight(ms[..n], test);
      var r := Select(ms, test);
      if test(ms[n]) { assert r[..|r| - 1] == Select(ms[..n], test); }
    }
  }

  lemma {:induction false} BytesConcat(a: seq<Message>, b: seq<Message>)
    ensures Bytes(a + b) == Bytes(a) + Bytes(b)
    decreases |b|
  {
    if b == [] {
      assert a + b == a;
    } else {
      var n := |b| - 1;
      BytesConcat(a, b[..n]);
      assert (a + b)[..|a + b| - 1] == a + b[..n];
    }
  }

  /** The byte count does not depend on the order. */
  lemma {:induction false} BytesPermuted(a: seq<Message>, b: seq<Message>)
    requires multiset(a) == multiset(b)
    ensures Bytes(a) == Bytes(b)
    decreases |a|
  {
    if a == [] {
      assert b == [] by { assert |multiset(b)| == |multiset(a)|; }
    } else {
      var n, m := |a| - 1, a[|a| - 1];
      assert m in multiset(a);
      var k :| 0 <= k < |b| && b[k] == m;
      assert a == a[..n] + [m];
      assert b == b[..k] + [m] + b[k + 1..];
      var shorter := b[..k] + b[k + 1..];
      assert multiset(shorter) == multiset(b) - multiset{m};
      assert multiset(a[..n]) == multiset(a) - multiset{m};
      BytesPermuted(a[..n], shorter);
      BytesConcat(b[..k] + [m], b[k + 1..]);
      BytesConcat(b[..k], [m]);
      BytesConcat(b[..k], b[k + 1..]);
    }
  }

  /** Two disjoint tests select no more bytes than there are. */
  lemma {:induction false} SelectPartLight(ms: seq<Message>, f: Test, g: Test)
    requires forall m | m in ms :: !(f(m) && g(m))
    ensures Bytes(Select(ms, f)) + Bytes(Select(ms, g)) <= Bytes(ms)
    decreases |ms|
  {
    if ms != [] {
      var n := |ms| - 1;
      SelectPartLight(ms[..n], f, g);
      BytesConcat(Select(ms[..n], f), [ms[n]]);
      BytesConcat(Select(ms[..n], g), [ms[n]]);
      assert Bytes([ms[n]]) == |ms[n].envelope| by { assert [ms[n]][..0] == []; }
    }
  }

  // ----- the same in terms of the messages' fields -----

  /** The bytes of the messages that have not expired; a message expires after its expiry time, not at it. */
  ghost function UnexpiredBytes(ms: seq<Message>, now: Time): nat {
    if ms == [] then 0
    else
      var m := ms[|ms| - 1];
      UnexpiredBytes(ms[..|ms| - 1], now) + if now <= m.expiresAt then |m.envelope| else 0
  }

  /** How many messages there are for the recipient that have not expired. */
  ghost function Waiting(ms: seq<Message>, domain: string, recipient: string, now: Time): nat {
    if ms == [] then 0
    else
      var m := ms[|ms| - 1];
      Waiting(ms[..|ms| - 1], domain, recipient, now)
        + if m.domain == domain && m.recipient == recipient && now <= m.expiresAt then 1 else 0
  }

  lemma {:induction false} UnexpiredAreLive(ms: seq<Message>, now: Time)
    ensures Bytes(Select(ms, LiveAt(now))) == UnexpiredBytes(ms, now)
    ensures forall m :: m in Select(ms, LiveAt(now)) <==> m in ms && now <= m.expiresAt
    decreases |ms|
  {
    SelectMembers(ms, LiveAt(now));
    if ms != [] {
      var n := |ms| - 1;
      UnexpiredAreLive(ms[..n], now);
      var r := Select(ms, LiveAt(now));
      if now <= ms[n].expiresAt { assert r[..|r| - 1] == Select(ms[..n], LiveAt(now)); }
    }
  }

  lemma {:induction false} WaitingAreMine(ms: seq<Message>, domain: string, recipient: string, now: Time)
    ensures |Select(ms, Mine(domain, recipient, now))| == Waiting(ms, domain, recipient, now)
    decreases |ms|
  {
    if ms != [] { WaitingAreMine(ms[..|ms| - 1], domain, recipient, now); }
  }

  /** A dequeue returns unexpired messages of its recipient, as many as it can up to the limit, the highest priority first and
      the oldest first among equals; what stays in the queue for that recipient has no higher priority than anything
      returned, and at equal priority is no older; everything unexpired is returned or stays, and nothing else stays. */
  ghost predicate HandsOut(
    before: seq<Message>, domain: string, recipient: string, now: Time, limit: int, out: seq<Message>, after: seq<Message>)
  {
    && (forall m | m in out :: m.domain == domain && m.recipient == recipient)
    && (var waiting := Waiting(before, domain, recipient, now);
        |out| == if limit <= 0 then 0 else if limit <= waiting then limit else waiting)
    && (forall i, j | 0 <= i < j < |out| ::
          out[i].priority > out[j].priority || (out[i].priority == out[j].priority && out[i].queuedAt <= out[j].queuedAt))
    && (forall m, left | m in out && left in after && left.domain == domain && left.recipient == recipient ::
          m.priority > left.priority || (m.priority == left.priority && m.queuedAt <= left.queuedAt))
    && (forall m :: multiset(out)[m] + multiset(after)[m] == if now <= m.expiresAt then multiset(before)[m] else 0)
  }

  lemma {:induction false} SelectCount(ms: seq<Message>, test: Test, m: Message)
    ensures multiset(Select(ms, test))[m] == if test(m) then multiset(ms)[m] else 0
    decreases |ms|
  {
    if ms != [] {
      var n := |ms| - 1;
      SelectCount(ms[..n], test, m);
      assert ms == ms[..n] + [ms[n]];
    }
  }

  lemma DequeueHandsOut(
    before: seq<Message>, domain: string, recipient: string, now: Time, limit: int, out: seq<Message>, after: seq<Message>)
    requires Dequeues(before, domain, recipient, now, limit, out, after)
    ensures HandsOut(before, domain, recipient, now, limit, out, after)
  {
    var sorted :| DequeuesVia(before, domain, recipient, now, limit, out, after, sorted);
    assert |sorted| == |multiset(sorted)|;
    WaitingAreMine(before, domain, recipient, now);
    SortedHandsOut(before, domain, recipient, now, sorted, Count(limit, |sorted|));
    forall m ensures multiset(out)[m] + multiset(after)[m] == if now <= m.expiresAt then multiset(before)[m] else 0 {
      DequeueBalances(before, domain, recipient, now, sorted, Count(limit, |sorted|), m);
    }
  }

  lemma DequeueBalances(
    before: seq<Message>, domain: string, recipient: string, now: Time, sorted: seq<Message>, k: nat, m: Message)
    requires multiset(sorted) == multiset(Select(before, Mine(domain, recipient, now))) && k <= |sorted|
    ensures multiset(sorted[..k])[m] + multiset(Select(before, Others(domain, recipient, now)) + sorted[k..])[m]
         == if now <= m.expiresAt then multiset(before)[m] else 0
  {
    SelectCount(before, Mine(domain, recipient, now), m);
    SelectCount(before, Others(domain, recipient, now), m);
    SplitCount(sorted, k, Select(before, Others(domain, recipient, now)), m);
  }

  lemma SplitCount(sorted: seq<Message>, k: nat, others: seq<Message>, m: Message)
    requires k <= |sorted|
    ensures multiset(sorted[..k])[m] + multiset(others + sorted[k..])[m] == multiset(sorted)[m] + multiset(others)[m]
  {
    assert sorted == sorted[..k] + sorted[k..];
  }

  lemma PermutedMembers(a: seq<Message>, b: seq<Message>)
    requires multiset(a) == multiset(b)
    ensures forall m :: m in a <==> m in b
  {
    forall m ensures m in a <==> m in b { assert m in a <==> m in multiset(b); }
  }

  lemma SortedHandsOut(
    before: seq<Message>, domain: string, recipient: string, now: Time, sorted: seq<Message>, k: nat)
    requires SortOf(Select(before, Mine(domain, recipient, now)), sorted) && k <= |sorted|
    ensures forall m | m in sorted[..k] :: m.domain == domain && m.recipient == recipient
    ensures forall i, j | 0 <= i < j < k ::
              sorted[i].priority > sorted[j].priority
              || (sorted[i].priority == sorted[j].priority && sorted[i].queuedAt <= sorted[j].queuedAt)
    ensures forall m, left | m in sorted[..k] && left in Select(before, Others(domain, recipient, now)) + sorted[k..]
                          && left.domain == domain && left.recipient == recipient ::
              m.priority > left.priority || (m.priority == left.priority && m.queuedAt <= left.queuedAt)
  {
    SelectMembers(before, Mine(domain, recipient, now));
    SelectMembers(before, Others(domain, recipient, now));
    SortedSplit(sorted, k);
    PermutedMembers(sorted, Select(before, Mine(domain, recipient, now)));
    forall m | m in sorted[..k] ensures m.domain == domain && m.recipient == recipient {
      assert m in sorted;
      assert Mine(domain, recipient, now)(m);
    }
    forall m, left | m in sorted[..k] && left in Select(before, Others(domain, recipient, now)) + sorted[k..]
                  && left.domain == domain && left.recipient == recipient
      ensures m.priority > left.priority || (m.priority == left.priority && m.queuedAt <= left.queuedAt)
    {
      assert left in sorted[k..];
      assert !Ahead(left, m);
    }
  }

  lemma DequeueLight(
    before: seq<Message>, domain: string, recipient: string, now: Time, limit: int, out: seq<Message>, after: seq<Message>)
    requires Dequeues(before, domain, recipient, now, limit, out, after)
    ensures Bytes(after) + Bytes(out) <= Bytes(before)
  {
    var mine, others := Select(before, Mine(domain, recipient, now)), Select(before, Others(domain, recipient, now));
    var sorted :| DequeuesVia(before, domain, recipient, now, limit, out, after, sorted);
    SplitBytes(mine, others, sorted, Count(limit, |sorted|));
    SelectPartLight(before, Mine(domain, recipient, now), Others(domain, recipient, now));
  }

  lemma SplitBytes(mine: seq<Message>, others: seq<Message>, sorted: seq<Message>, k: nat)
    requires multiset(sorted) == multiset(mine) && k <= |sorted|
    ensures Bytes(others + sorted[k..]) + Bytes(sorted[..k]) == Bytes(others) + Bytes(mine)
  {
    BytesConcat(others, sorted[k..]);
    BytesConcat(sorted[..k], sorted[k..]);
    assert sorted[..k] + sorted[k..] == sorted;
    BytesPermuted(sorted, mine);
  }
}
