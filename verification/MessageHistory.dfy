/** The rows of the message table told from the statements alone: what a row holds after any run, and what a claim takes in terms
    of the messages that were stored. */
module MessageHistory {
  import opened GoStrings
  import opened GoTime
  import opened MessageTable

  /** The statement stores a message under the key. */
  predicate Stores(e: Event, key: Key) {
    e.Store? && (e.message.domain, e.message.messageID) == key
  }

  /** The message stored first under the key in the first n statements, and the one stored last. */
  function First(run: seq<Event>, n: nat, key: Key): Option<Message>
    requires n <= |run|
  {
    if n == 0 then None
    else if First(run, n - 1, key).Some? then First(run, n - 1, key)
    else if Stores(run[n - 1], key) then Some(run[n - 1].message) else None
  }

  function Last(run: seq<Event>, n: nat, key: Key): Option<Message>
    requires n <= |run|
  {
    if n == 0 then None else if Stores(run[n - 1], key) then Some(run[n - 1].message) else Last(run, n - 1, key)
  }

  /** When the message was last marked delivered. */
  function DeliveredAt(run: seq<Event>, n: nat, key: Key): Option<Time>
    requires n <= |run|
  {
    if n == 0 then None
    else if run[n - 1].Deliver? && run[n - 1].key == key && First(run, n - 1, key).Some? then Some(Micros(run[n - 1].now))
    else DeliveredAt(run, n - 1, key)
  }

  /** The end of the last lease on the message, unless it has been marked delivered since. */
  function LeasedUntil(run: seq<Event>, n: nat, key: Key): Option<Time>
    requires n <= |run|
  {
    if n == 0 then None
    else if Claims(run[n - 1], key) then Some(Micros(run[n - 1].now + run[n - 1].lease))
    else if run[n - 1].Deliver? && run[n - 1].key == key then None
    else LeasedUntil(run, n - 1, key)
  }

  /** The row is what the statements make of it: recipient, sender and queue time of the message stored first, envelope, priority
      and expiry of the one stored last. */
  predicate RowTold(table: Table, run: seq<Event>, n: nat, key: Key)
    requires n <= |run|
  {
    if First(run, n, key).None? then key !in table && Last(run, n, key).None? && LeasedUntil(run, n, key).None?
    else
      && Last(run, n, key).Some?
      && var first, last := First(run, n, key).value, Last(run, n, key).value;
         && key in table
         && table[key] == Row(first.id, first.recipient, first.sender, last.envelope, last.priority, Micros(first.queuedAt),
                              Micros(last.expiresAt), LeasedUntil(run, n, key), table[key].attempts, DeliveredAt(run, n, key))
  }

  lemma NeverDelivered(run: seq<Event>, n: nat, key: Key)
    requires n <= |run| && First(run, n, key).None?
    ensures DeliveredAt(run, n, key).None?
  {
  }

  lemma RowStep(table: Table, run: seq<Event>, n: nat, key: Key)
    requires n < |run| && RowTold(table, run, n, key) && Allowed(table, run[n])
    ensures RowTold(After(table, run[n]), run, n + 1, key)
  {
    if First(run, n, key).None? { NeverDelivered(run, n, key); }
  }

  /** Every row of every run is what the statements make of it. */
  lemma {:induction false} RowsFollowStatements(run: seq<Event>, n: nat, key: Key)
    requires ValidRun(run) && n <= |run|
    ensures RowTold(TableAfter(run[..n]), run, n, key)
  {
    if n > 0 {
      RowsFollowStatements(run, n - 1, key);
      TableStep(run, n - 1);
      assert AllowedAt(run, n - 1);
      RowStep(TableAfter(run[..n - 1]), run, n - 1, key);
    } else {
      assert run[..0] == [];
    }
  }

  /** The message can be claimed: it was stored for the recipient, has not expired, has not been delivered and is under no
      lease. */
  predicate Claimable(run: seq<Event>, n: nat, domain: string, recipient: string, now: Time, key: Key)
    requires n <= |run|
  {
    && key.0 == domain && First(run, n, key).Some? && Last(run, n, key).Some?
    && First(run, n, key).value.recipient == recipient
    && Micros(now) < Micros(Last(run, n, key).value.expiresAt)
    && DeliveredAt(run, n, key).None?
    && (LeasedUntil(run, n, key).None? || LeasedUntil(run, n, key).value <= Micros(now))
  }

  lemma EligibleIff(run: seq<Event>, n: nat, domain: string, recipient: string, now: Time, key: Key)
    requires ValidRun(run) && n <= |run|
    ensures key in Eligible(TableAfter(run[..n]), domain, recipient, Micros(now))
       <==> Claimable(run, n, domain, recipient, now, key)
  {
    RowsFollowStatements(run, n, key);
  }

  /** A claim takes only messages that can be claimed, and leaves one that can behind only if it is full and everything it took
      has a higher priority as last stored or, at equal priority, was first stored no later, to the microsecond. */
  lemma ClaimTakesTheBest(run: seq<Event>, n: nat, key: Key, left: Key)
    requires ValidRun(run) && n < |run| && run[n].Claim?
    ensures var e := run[n];
            && |e.picked| <= e.limit
            && (key in e.picked ==> Claimable(run, n, e.domain, e.recipient, e.now, key))
            && (Claimable(run, n, e.domain, e.recipient, e.now, left) && left !in e.picked ==>
                  && |e.picked| == e.limit
                  && (key in e.picked ==>
                        || Last(run, n, key).value.priority > Last(run, n, left).value.priority
                        || (&& Last(run, n, key).value.priority == Last(run, n, left).value.priority
                            && Micros(First(run, n, key).value.queuedAt) <= Micros(First(run, n, left).value.queuedAt))))
  {
    var e, table := run[n], TableAfter(run[..n]);
    var eligible := Eligible(table, e.domain, e.recipient, Micros(e.now));
    assert AllowedAt(run, n);
    EligibleIff(run, n, e.domain, e.recipient, e.now, key);
    EligibleIff(run, n, e.domain, e.recipient, e.now, left);
    RowsFollowStatements(run, n, key);
    RowsFollowStatements(run, n, left);
    if left in eligible && left !in e.picked {
      LeftBehindOnlyWhenFull(run, n, left);
    }
  }

  // ----- every statement can run at any time -----

  lemma {:induction false} BestExists(table: Table, keys: set<Key>) returns (best: Key)
    requires keys <= table.Keys && keys != {}
    ensures best in keys && forall l | l in keys :: !Ahead(table[l], table[best])
    decreases |keys|
  {
    best :| best in keys;
    var others := keys - {best};
    if others != {} {
      var next := BestExists(table, others);
      if Ahead(table[next], table[best]) { best := next; }
    }
  }

  lemma {:induction false} PickExists(table: Table, eligible: set<Key>, limit: nat) returns (picked: set<Key>)
    requires eligible <= table.Keys
    ensures FirstOf(table, eligible, limit, picked)
    decreases limit
  {
    if limit == 0 || eligible == {} {
      picked := {};
    } else {
      var best := BestExists(table, eligible);
      var rest := PickExists(table, eligible - {best}, limit - 1);
      picked := rest + {best};
      assert eligible - picked == eligible - {best} - rest;
    }
  }

  lemma RunExtends(run: seq<Event>, e: Event)
    requires ValidRun(run) && Allowed(TableAfter(run), e)
    ensures ValidRun(run + [e])
  {
    forall n | 0 <= n < |run| + 1 ensures AllowedAt(run + [e], n) {
      if n < |run| {
        assert AllowedAt(run, n);
        assert (run + [e])[..n] == run[..n];
      } else {
        assert (run + [e])[..n] == run;
      }
    }
  }

  /** Whatever has run, any message can be stored, any delivery marked, and a claim with a lease takes some rows. */
  lemma EveryStatementRuns(
    run: seq<Event>, m: Message, key: Key, domain: string, recipient: string, now: Time, lease: int, limit: nat)
    returns (picked: set<Key>)
    requires ValidRun(run) && lease >= 1
    ensures ValidRun(run + [Store(m)]) && ValidRun(run + [Deliver(key, now)])
    ensures ValidRun(run + [Claim(domain, recipient, now, lease, limit, picked)])
  {
    RunExtends(run, Store(m));
    RunExtends(run, Deliver(key, now));
    var table := TableAfter(run);
    picked := PickExists(table, Eligible(table, domain, recipient, Micros(now)), limit);
    RunExtends(run, Claim(domain, recipient, now, lease, limit, picked));
  }
}
