/** What the delivery queue keeps over whole runs: nothing is lost or delivered twice, the byte quota holds, and
    deliveries come out in priority order. */
module DeliveryLedger {
  import opened GoTime
  import opened DeliveryQueue

  // ----- selection, once more -----

  lemma {:induction false} SelectConcat(a: seq<Message>, b: seq<Message>, test: Test)
    ensures Select(a + b, test) == Select(a, test) + Select(b, test)
    decreases |b|
  {
    if b == [] {
      assert a + b == a;
    } else {
      var n := |b| - 1;
      SelectConcat(a, b[..n], test);
      assert (a + b)[..|a + b| - 1] == a + b[..n];
    }
  }

  lemma {:induction false} SelectAll(ms: seq<Message>, test: Test)
    requires forall m | m in ms :: test(m)
    ensures Select(ms, test) == ms
    decreases |ms|
  {
    if ms != [] { SelectAll(ms[..|ms| - 1], test); }
  }

  lemma {:induction false} SelectNone(ms: seq<Message>, test: Test)
    requires forall m | m in ms :: !test(m)
    ensures Select(ms, test) == []
    decreases |ms|
  {
    if ms != [] { SelectNone(ms[..|ms| - 1], test); }
  }

  /** Tests that divide the messages divide their multiset. */
  lemma {:induction false} SelectDivides(ms: seq<Message>, f: Test, g: Test, h: Test)
    requires forall m | m in ms :: (f(m) && !g(m) && !h(m)) || (!f(m) && g(m) && !h(m)) || (!f(m) && !g(m) && h(m))
    ensures multiset(ms) == multiset(Select(ms, f)) + multiset(Select(ms, g)) + multiset(Select(ms, h))
    decreases |ms|
  {
    if ms != [] {
      var n := |ms| - 1;
      SelectDivides(ms[..n], f, g, h);
      assert ms == ms[..n] + [ms[n]];
    }
  }

  // ----- runs -----

  datatype Event =
    | Enqueue(msg: Message, now: Time, ok: bool)
    | Dequeue(domain: string, recipient: string, now: Time, limit: int, out: seq<Message>)
    | Snapshot(now: Time)

  /** One call of the queue, as the methods of `Queue` promise it. */
  ghost predicate Step(maxBytes: int, before: seq<Message>, e: Event, after: seq<Message>) {
    match e
    case Enqueue(msg, now, ok) =>
      var live := Select(before, LiveAt(now));
      && (ok <==> Fits(maxBytes, live, msg))
      && after == live + (if ok then [Stamped(msg, now)] else [])
    case Dequeue(domain, recipient, now, limit, out) => Dequeues(before, domain, recipient, now, limit, out, after)
    case Snapshot(now) => after == Select(before, LiveAt(now))
  }

  ghost predicate Run(maxBytes: int, states: seq<seq<Message>>, events: seq<Event>) {
    && |states| == |events| + 1
    && forall i | 0 <= i < |events| :: Step(maxBytes, states[i], events[i], states[i + 1])
  }

  // ----- one dequeue -----

  /** A sorting of selected messages holds those messages. */
  lemma SortedMembers(ms: seq<Message>, test: Test, sorted: seq<Message>)
    requires multiset(sorted) == multiset(Select(ms, test))
    ensures |sorted| == |Select(ms, test)|
    ensures forall m | m in sorted :: m in ms && test(m)
  {
    SelectMembers(ms, test);
    assert forall m | m in sorted :: m in multiset(Select(ms, test));
    assert |sorted| == |multiset(sorted)|;
  }

  /** What stays behind for the recipient is exactly what was sorted behind the messages handed out. */
  lemma RestIsMine(
    before: seq<Message>, domain: string, recipient: string, now: Time, limit: int, out: seq<Message>, after: seq<Message>,
    sorted: seq<Message>)
    requires DequeuesVia(before, domain, recipient, now, limit, out, after, sorted)
    ensures Select(after, Mine(domain, recipient, now)) == sorted[Count(limit, |sorted|)..]
    ensures forall m | m in sorted :: m in before && Live(m, now) && For(m, domain, recipient)
    ensures |sorted| == |Select(before, Mine(domain, recipient, now))|
  {
    SortedMembers(before, Mine(domain, recipient, now), sorted);
    var rest := sorted[Count(limit, |sorted|)..];
    assert forall m | m in rest :: m in sorted;
    SelectOthersAndMine(before, domain, recipient, now, rest);
  }

  lemma SelectOthersAndMine(before: seq<Message>, domain: string, recipient: string, now: Time, rest: seq<Message>)
    requires forall m | m in rest :: Live(m, now) && For(m, domain, recipient)
    ensures Select(Select(before, Others(domain, recipient, now)) + rest, Mine(domain, recipient, now)) == rest
  {
    var mine, others := Mine(domain, recipient, now), Others(domain, recipient, now);
    SelectConcat(Select(before, others), rest, mine);
    SelectAll(rest, mine);
    SelectMembers(before, others);
    SelectNone(Select(before, others), mine);
  }

  /** A dequeue hands out the best live messages of its recipient, sorted, as many as the limit allows: together with
      what stays behind they are exactly the live messages there were, and nothing left is ahead of anything taken. */
  lemma {:induction false} DequeueTakesTheBest(
    before: seq<Message>, domain: string, recipient: string, now: Time, limit: int, out: seq<Message>, after: seq<Message>)
    requires Dequeues(before, domain, recipient, now, limit, out, after)
    ensures Sorted(out) && |out| == Count(limit, |Select(before, Mine(domain, recipient, now))|)
    ensures NoneAhead(Select(after, Mine(domain, recipient, now)), out)
    ensures multiset(out) + multiset(Select(after, Mine(domain, recipient, now)))
         == multiset(Select(before, Mine(domain, recipient, now)))
    ensures forall m | m in out :: m in before && Live(m, now) && For(m, domain, recipient)
  {
    var sorted :| DequeuesVia(before, domain, recipient, now, limit, out, after, sorted);
    RestIsMine(before, domain, recipient, now, limit, out, after, sorted);
    var k := Count(limit, |sorted|);
    SortedSplit(sorted, k);
    assert sorted == sorted[..k] + sorted[k..];
  }

  function ForOther(domain: string, recipient: string): Test {
    m => !For(m, domain, recipient)
  }

  /** A dequeue leaves everyone else's live messages in the queue in the order they had. */
  lemma {:induction false} DequeueKeepsOthersInOrder(
    before: seq<Message>, domain: string, recipient: string, now: Time, limit: int, out: seq<Message>, after: seq<Message>)
    requires Dequeues(before, domain, recipient, now, limit, out, after)
    ensures Select(after, ForOther(domain, recipient)) == Select(before, Others(domain, recipient, now))
  {
    var sorted :| DequeuesVia(before, domain, recipient, now, limit, out, after, sorted);
    RestIsMine(before, domain, recipient, now, limit, out, after, sorted);
    var others, rest := Select(before, Others(domain, recipient, now)), sorted[Count(limit, |sorted|)..];
    assert forall m | m in rest :: m in sorted;
    SelectConcat(others, rest, ForOther(domain, recipient));
    SelectMembers(before, Others(domain, recipient, now));
    SelectAll(others, ForOther(domain, recipient));
    SelectNone(rest, ForOther(domain, recipient));
  }

  // ----- the ledger -----

  ghost function AcceptedBy(e: Event): multiset<Message> {
    if e.Enqueue? && e.ok then multiset{Stamped(e.msg, e.now)} else multiset{}
  }

  ghost function ReturnedBy(e: Event): multiset<Message> {
    if e.Dequeue? then multiset(e.out) else multiset{}
  }

  /** The messages an operation finds expired. */
  ghost function DroppedBy(before: seq<Message>, e: Event): multiset<Message> {
    multiset(Select(before, ExpiredAt(e.now)))
  }

  ghost function Accepted(events: seq<Event>): multiset<Message> {
    if events == [] then multiset{} else Accepted(events[..|events| - 1]) + AcceptedBy(events[|events| - 1])
  }

  ghost function Returned(events: seq<Event>): multiset<Message> {
    if events == [] then multiset{} else Returned(events[..|events| - 1]) + ReturnedBy(events[|events| - 1])
  }

  ghost function Dropped(states: seq<seq<Message>>, events: seq<Event>): multiset<Message>
    requires |states| == |events| + 1
    decreases |events|
  {
    if events == [] then multiset{}
    else
      var n := |events| - 1;
      Dropped(states[..n + 1], events[..n]) + DroppedBy(states[n], events[n])
  }

  lemma StepBalances(maxBytes: int, before: seq<Message>, e: Event, after: seq<Message>)
    requires Step(maxBytes, before, e, after)
    ensures multiset(before) + AcceptedBy(e) == multiset(after) + ReturnedBy(e) + DroppedBy(before, e)
  {
    match e
    case Dequeue(domain, recipient, now, limit, out) =>
      var sorted :| DequeuesVia(before, domain, recipient, now, limit, out, after, sorted);
      SelectDivides(before, Mine(domain, recipient, now), Others(domain, recipient, now), ExpiredAt(now));
      SplitCounts(sorted, Count(limit, |sorted|), Select(before, Others(domain, recipient, now)));
    case Enqueue(_, now, _) => LiveOrExpired(before, now);
    case Snapshot(now) => LiveOrExpired(before, now);
  }

  lemma SplitCounts(sorted: seq<Message>, k: nat, others: seq<Message>)
    requires k <= |sorted|
    ensures multiset(others + sorted[k..]) + multiset(sorted[..k]) == multiset(sorted) + multiset(others)
  {
    assert sorted == sorted[..k] + sorted[k..];
  }

  lemma LiveOrExpired(ms: seq<Message>, now: Time)
    ensures multiset(ms) == multiset(Select(ms, LiveAt(now))) + multiset(Select(ms, ExpiredAt(now)))
  {
    SelectDivides(ms, LiveAt(now), ExpiredAt(now), m => false);
    SelectNone(ms, m => false);
  }

  /** Conservation: in every run, every accepted message is still queued, was returned, or was dropped after its
      expiry, and is counted exactly once. */
  lemma {:induction false} Ledger(maxBytes: int, states: seq<seq<Message>>, events: seq<Event>)
    requires Run(maxBytes, states, events)
    ensures multiset(states[0]) + Accepted(events)
         == multiset(states[|events|]) + Returned(events) + Dropped(states, events)
    decreases |events|
  {
    if events != [] {
      var n := |events| - 1;
      Ledger(maxBytes, states[..n + 1], events[..n]);
      StepBalances(maxBytes, states[n], events[n], states[n + 1]);
      Carry(multiset(states[0]), Accepted(events[..n]), multiset(states[n]), Returned(events[..n]),
            Dropped(states[..n + 1], events[..n]), AcceptedBy(events[n]), multiset(states[n + 1]), ReturnedBy(events[n]),
            DroppedBy(states[n], events[n]));
    }
  }

  /** Adding one balanced entry to a balanced account. */
  lemma Carry<T>(first: multiset<T>, accepted: multiset<T>, queued: multiset<T>, returned: multiset<T>, dropped: multiset<T>,
                 accepts: multiset<T>, next: multiset<T>, gives: multiset<T>, drops: multiset<T>)
    requires first + accepted == queued + returned + dropped && queued + accepts == next + gives + drops
    ensures first + (accepted + accepts) == next + (returned + gives) + (dropped + drops)
  {
    calc {
      first + (accepted + accepts);
      (queued + returned + dropped) + accepts;
      (queued + accepts) + returned + dropped;
    }
  }

  /** Only an operation after its expiry drops a message. */
  lemma {:induction false} DroppedOnlyAfterExpiry(states: seq<seq<Message>>, events: seq<Event>, m: Message)
    requires |states| == |events| + 1 && m in Dropped(states, events)
    ensures exists i | 0 <= i < |events| :: m in states[i] && events[i].now > m.expiresAt
    decreases |events|
  {
    var n := |events| - 1;
    if m in DroppedBy(states[n], events[n]) {
      SelectMembers(states[n], ExpiredAt(events[n].now));
      assert m in states[n] && events[n].now > m.expiresAt;
    } else {
      DroppedOnlyAfterExpiry(states[..n + 1], events[..n], m);
      var i :| 0 <= i < n && m in states[..n + 1][i] && events[..n][i].now > m.expiresAt;
      assert m in states[i] && events[i].now > m.expiresAt;
    }
  }

  /** Only its recipient gets a message, and only before its expiry. */
  lemma {:induction false} ReturnedOnlyLive(maxBytes: int, states: seq<seq<Message>>, events: seq<Event>, m: Message)
    requires Run(maxBytes, states, events) && m in Returned(events)
    ensures exists i | 0 <= i < |events| ::
              events[i].Dequeue? && m.domain == events[i].domain && m.recipient == events[i].recipient && events[i].now <= m.expiresAt
    decreases |events|
  {
    var n := |events| - 1;
    if m in ReturnedBy(events[n]) {
      var e := events[n];
      assert Step(maxBytes, states[n], e, states[n + 1]);
      DequeueTakesTheBest(states[n], e.domain, e.recipient, e.now, e.limit, e.out, states[n + 1]);
    } else {
      ReturnedOnlyLive(maxBytes, states[..n + 1], events[..n], m);
      var i :| 0 <= i < n && events[..n][i].Dequeue? && m.domain == events[..n][i].domain
            && m.recipient == events[..n][i].recipient && events[..n][i].now <= m.expiresAt;
      assert events[i].Dequeue?;
    }
  }

  /** The fate of a message accepted once into an empty queue: it is in exactly one place, and only once. */
  lemma Fate(maxBytes: int, states: seq<seq<Message>>, events: seq<Event>, m: Message)
    requires Run(maxBytes, states, events) && states[0] == [] && Accepted(events)[m] == 1
    ensures multiset(states[|events|])[m] + Returned(events)[m] + Dropped(states, events)[m] == 1
  {
    Ledger(maxBytes, states, events);
    CountsAdd(multiset(states[|events|]), Returned(events), Dropped(states, events), m);
    CountsAdd(multiset(states[0]), Accepted(events), multiset{}, m);
  }

  lemma CountsAdd<T>(a: multiset<T>, b: multiset<T>, c: multiset<T>, x: T)
    ensures (a + b + c)[x] == a[x] + b[x] + c[x]
    ensures a + b + multiset{} == a + b
  {
  }

  // ----- the quota -----

  ghost predicate WithinQuota(maxBytes: int, ms: seq<Message>) {
    Bytes(ms) <= if maxBytes < 0 then 0 else maxBytes
  }

  lemma StepKeepsQuota(maxBytes: int, before: seq<Message>, e: Event, after: seq<Message>)
    requires Step(maxBytes, before, e, after) && WithinQuota(maxBytes, before)
    ensures WithinQuota(maxBytes, after)
  {
    match e
    case Dequeue(domain, recipient, now, limit, out) =>
      DequeueLight(before, domain, recipient, now, limit, out, after);
    case Snapshot(now) => SelectLight(before, LiveAt(now));
    case Enqueue(msg, now, ok) =>
      SelectLight(before, LiveAt(now));
      if ok {
        var stamped := Stamped(msg, now);
        BytesConcat(Select(before, LiveAt(now)), [stamped]);
        assert Bytes([stamped]) == |msg.envelope| by { assert [stamped][..0] == []; }
      } else {
        assert after == Select(before, LiveAt(now));
      }
  }

  /** The quota holds in every state of every run from the empty queue. */
  lemma {:induction false} QuotaHolds(maxBytes: int, states: seq<seq<Message>>, events: seq<Event>, i: nat)
    requires Run(maxBytes, states, events) && states[0] == [] && i <= |events|
    ensures WithinQuota(maxBytes, states[i])
  {
    if i > 0 {
      QuotaHolds(maxBytes, states, events, i - 1);
      StepKeepsQuota(maxBytes, states[i - 1], events[i - 1], states[i]);
    }
  }

  // ----- order over several dequeues -----

  /** Everything one recipient was handed, in the order it was handed out. */
  ghost function Handed(events: seq<Event>, domain: string, recipient: string): seq<Message> {
    if events == [] then []
    else
      var e := events[|events| - 1];
      Handed(events[..|events| - 1], domain, recipient)
        + (if e.Dequeue? && e.domain == domain && e.recipient == recipient then e.out else [])
  }

  function ForMe(domain: string, recipient: string): Test {
    m => For(m, domain, recipient)
  }

  /** No operation but an enqueue brings a message in. */
  lemma StepOnlyRemoves(maxBytes: int, before: seq<Message>, e: Event, after: seq<Message>)
    requires Step(maxBytes, before, e, after) && !e.Enqueue?
    ensures forall m | m in after :: m in before
  {
    if e.Dequeue? {
      var sorted :| DequeuesVia(before, e.domain, e.recipient, e.now, e.limit, e.out, after, sorted);
      RestIsMine(before, e.domain, e.recipient, e.now, e.limit, e.out, after, sorted);
      SelectMembers(before, Others(e.domain, e.recipient, e.now));
    } else {
      SelectMembers(before, LiveAt(e.now));
    }
  }

  lemma OwnDequeueExtends(maxBytes: int, before: seq<Message>, e: Event, after: seq<Message>, handed: seq<Message>)
    requires Step(maxBytes, before, e, after) && e.Dequeue?
    requires Sorted(handed) && NoneAhead(Select(before, ForMe(e.domain, e.recipient)), handed)
    ensures Sorted(handed + e.out) && NoneAhead(Select(after, ForMe(e.domain, e.recipient)), handed + e.out)
  {
    DequeueTakesTheBest(before, e.domain, e.recipient, e.now, e.limit, e.out, after);
    SelectMembers(before, ForMe(e.domain, e.recipient));
    SelectMembers(after, ForMe(e.domain, e.recipient));
    SelectMembers(after, Mine(e.domain, e.recipient, e.now));
    StepOnlyRemoves(maxBytes, before, e, after);
    StepKeepsLive(maxBytes, before, e, after);
    SortedConcat(handed, e.out);
  }

  /** After an operation nothing that has expired by its time is left. */
  lemma StepKeepsLive(maxBytes: int, before: seq<Message>, e: Event, after: seq<Message>)
    requires Step(maxBytes, before, e, after) && !e.Enqueue?
    ensures forall m | m in after :: e.now <= m.expiresAt
  {
    if e.Dequeue? {
      var sorted :| DequeuesVia(before, e.domain, e.recipient, e.now, e.limit, e.out, after, sorted);
      RestIsMine(before, e.domain, e.recipient, e.now, e.limit, e.out, after, sorted);
      SelectMembers(before, Others(e.domain, e.recipient, e.now));
    } else {
      SelectMembers(before, LiveAt(e.now));
    }
  }

  /** Between enqueues, the successive deliveries of one recipient, whatever the limits, the times, and the
      operations of others in between, form one sequence in priority and age order. */
  lemma {:induction false} DeliveriesComeInOrder(
    maxBytes: int, states: seq<seq<Message>>, events: seq<Event>, domain: string, recipient: string)
    requires Run(maxBytes, states, events)
    requires forall i | 0 <= i < |events| :: !events[i].Enqueue?
    ensures Sorted(Handed(events, domain, recipient))
    ensures NoneAhead(Select(states[|events|], ForMe(domain, recipient)), Handed(events, domain, recipient))
    ensures var handed := Handed(events, domain, recipient);
            forall i, j | 0 <= i < j < |handed| ::
              || handed[i].priority > handed[j].priority
              || (handed[i].priority == handed[j].priority && handed[i].queuedAt <= handed[j].queuedAt)
    decreases |events|
  {
    if events != [] {
      var n := |events| - 1;
      var e, handed := events[n], Handed(events[..n], domain, recipient);
      DeliveriesComeInOrder(maxBytes, states[..n + 1], events[..n], domain, recipient);
      assert Step(maxBytes, states[n], e, states[n + 1]);
      if e.Dequeue? && e.domain == domain && e.recipient == recipient {
        OwnDequeueExtends(maxBytes, states[n], e, states[n + 1], handed);
      } else {
        StepOnlyRemoves(maxBytes, states[n], e, states[n + 1]);
        SelectMembers(states[n], ForMe(domain, recipient));
        SelectMembers(states[n + 1], ForMe(domain, recipient));
        assert handed + [] == handed;
      }
    }
  }

  ghost predicate AllFor(events: seq<Event>, domain: string, recipient: string, now: Time) {
    forall i | 0 <= i < |events| ::
      events[i].Dequeue? && events[i].domain == domain && events[i].recipient == recipient && events[i].now == now
      && events[i].limit > 0
  }

  /** Dequeues of one recipient at one time with positive limits split that recipient's live messages between what was
      handed out and what is left, and each call takes at least one while there are any. */
  lemma {:induction false} Drains(
    maxBytes: int, states: seq<seq<Message>>, events: seq<Event>, domain: string, recipient: string, now: Time)
    requires Run(maxBytes, states, events) && AllFor(events, domain, recipient, now)
    ensures multiset(Handed(events, domain, recipient)) + multiset(Select(states[|events|], Mine(domain, recipient, now)))
         == multiset(Select(states[0], Mine(domain, recipient, now)))
    ensures Select(states[|events|], Mine(domain, recipient, now)) != [] ==> |Handed(events, domain, recipient)| >= |events|
    decreases |events|
  {
    if events != [] {
      var n := |events| - 1;
      var e, mine := events[n], Mine(domain, recipient, now);
      Drains(maxBytes, states[..n + 1], events[..n], domain, recipient, now);
      assert Step(maxBytes, states[n], e, states[n + 1]);
      DequeueTakesTheBest(states[n], domain, recipient, now, e.limit, e.out, states[n + 1]);
      var left, less := Select(states[n], mine), Select(states[n + 1], mine);
      assert |multiset(left)| == |left| && |multiset(less)| == |less|;
      assert |multiset(e.out) + multiset(less)| == |e.out| + |less|;
    }
  }

  /** As many calls as there are live messages exhaust them: the calls together hand out exactly those, in order. */
  lemma DequeuesExhaust(
    maxBytes: int, states: seq<seq<Message>>, events: seq<Event>, domain: string, recipient: string, now: Time)
    requires Run(maxBytes, states, events) && AllFor(events, domain, recipient, now)
    requires |events| >= |Select(states[0], Mine(domain, recipient, now))|
    ensures SortOf(Select(states[0], Mine(domain, recipient, now)), Handed(events, domain, recipient))
    ensures Select(states[|events|], Mine(domain, recipient, now)) == []
  {
    Drains(maxBytes, states, events, domain, recipient, now);
    DeliveriesComeInOrder(maxBytes, states, events, domain, recipient);
    var first, left := Select(states[0], Mine(domain, recipient, now)), Select(states[|events|], Mine(domain, recipient, now));
    var handed := Handed(events, domain, recipient);
    assert |multiset(handed) + multiset(left)| == |handed| + |left| && |multiset(first)| == |first|;
  }
}
