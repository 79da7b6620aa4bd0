/** Durable delivery (`pkg/server/repository/relay.go`): relay instances share a message table and take
    messages from it under a lease. Every SQL statement is one step on the table. */
module MessageTable {
  import opened GoStrings
  import opened GoTime

  type Key = (string, string)   // domain_id, message_id: unique

  /** Times in a row are in microseconds. */
  datatype Row = Row(
    id: string, recipient: string, sender: string, envelope: string, priority: int, queuedAt: Time, expiresAt: Time,
    claimedUntil: Option<Time>, attempts: int, deliveredAt: Option<Time>)

  type Table = map<Key, Row>

  datatype Message = Message(
    id: string, domain: string, messageID: string, sender: string, recipient: string, envelope: string,
    priority: int, queuedAt: Time, expiresAt: Time)

  // ----- the statements -----

  /** A `text` column holds no NUL, and a statement that is given one fails. */
  predicate Text(s: string) {
    '\0' !in s
  }

  /** What the table takes: text without NUL, and a priority that passes its `CHECK`. */
  predicate Storable(m: Message) {
    && Text(m.domain) && Text(m.messageID) && Text(m.sender) && Text(m.recipient)
    && 0 <= m.priority <= 9
  }

  /** `INSERT ... ON CONFLICT DO UPDATE`: a message stored again keeps its recipient, queue time, claim,
      attempts and delivery. */
  function Stored(table: Table, m: Message): Table {
    var key := (m.domain, m.messageID);
    if key in table then
      table[key := table[key].(envelope := m.envelope, priority := m.priority, expiresAt := Micros(m.expiresAt))]
    else
      table[key := Row(m.id, m.recipient, m.sender, m.envelope, m.priority, Micros(m.queuedAt), Micros(m.expiresAt),
                       None, 0, None)]
  }

  predicate EligibleRow(row: Row, recipient: string, now: Time) {
    && row.recipient == recipient && row.deliveredAt.None? && row.expiresAt > now
    && (row.claimedUntil.None? || row.claimedUntil.value <= now)
  }

  /** The rows a claim may take. */
  function Eligible(table: Table, domain: string, recipient: string, now: Time): set<Key> {
    set k | k in table && k.0 == domain && EligibleRow(table[k], recipient, now)
  }

  /** `ORDER BY priority DESC, queued_at`, strictly. */
  predicate Ahead(a: Row, b: Row) {
    a.priority > b.priority || (a.priority == b.priority && a.queuedAt < b.queuedAt)
  }

  /** `LIMIT`: as many as there are up to the limit, none of them behind one that is left. Rows that the
      order does not tell apart may be picked either way. */
  predicate FirstOf(table: Table, eligible: set<Key>, limit: nat, picked: set<Key>) {
    && picked <= eligible
    && |picked| == (if |eligible| < limit then |eligible| else limit)
    && forall k, l | k in picked && l in eligible - picked :: k in table && l in table && !Ahead(table[l], table[k])
  }

  function Claimed(table: Table, picked: set<Key>, until: Time): Table {
    map k | k in table ::
      if k in picked then table[k].(claimedUntil := Some(until), attempts := table[k].attempts + 1) else table[k]
  }

  function Delivered(table: Table, key: Key, now: Time): Table {
    if key in table then table[key := table[key].(deliveredAt := Some(now), claimedUntil := None)] else table
  }

  datatype ClaimError = NoDomain | NoRecipient | BadLease | NotText

  datatype ClaimResult = Refused(error: ClaimError) | Taken(keys: set<Key>)

  class Repository {
    var table: Table

    constructor ()
      ensures table == map[]
    {
      table := map[];
    }

    method StoreMessage(m: Message) returns (ok: bool)
      modifies this
      ensures ok <==> m.domain != "" && Storable(m)
      ensures ok <==> && m.domain != "" && 0 <= m.priority <= 9
                      && '\0' !in m.domain && '\0' !in m.messageID && '\0' !in m.sender && '\0' !in m.recipient
      ensures table == if ok then Stored(old(table), m) else old(table)
    {
      if m.domain == "" || !Storable(m) { return false; }
      var key := (m.domain, m.messageID);
      if key in table {
        table := table[key := table[key].(envelope := m.envelope, priority := m.priority, expiresAt := Micros(m.expiresAt))];
      } else {
        table := table[key := Row(m.id, m.recipient, m.sender, m.envelope, m.priority, Micros(m.queuedAt), Micros(m.expiresAt),
                                  None, 0, None)];
      }
      return true;
    }

    /** `ClaimPendingMessagesFor`. Which rows are taken is fixed up to ties; the order they are returned in
        is not. */
    method ClaimPendingMessagesFor(domain: string, recipient: string, now: Time, lease: int, limit: int)
      returns (r: ClaimResult)
      modifies this
      ensures domain == "" ==> r == Refused(NoDomain)
      ensures domain != "" && Blank(recipient) ==> r == Refused(NoRecipient)
      ensures domain != "" && !Blank(recipient) && limit <= 0 ==> r == Taken({})
      ensures domain != "" && !Blank(recipient) && limit > 0 && lease <= 0 ==> r == Refused(BadLease)
      ensures domain != "" && !Blank(recipient) && limit > 0 && lease > 0 && !(Text(domain) && Text(recipient)) ==>
                r == Refused(NotText)
      ensures domain != "" && !Blank(recipient) && limit > 0 && lease > 0 && Text(domain) && Text(recipient) ==>
                r.Taken? && FirstOf(old(table), Eligible(old(table), domain, recipient, Micros(now)), limit, r.keys)
      ensures table == if r.Taken? && r.keys != {} then Claimed(old(table), r.keys, Micros(now + lease)) else old(table)
    {
      if domain == "" { return Refused(NoDomain); }
      if Blank(recipient) { return Refused(NoRecipient); }
      if limit <= 0 { return Taken({}); }
      if lease <= 0 { return Refused(BadLease); }
      if !(Text(domain) && Text(recipient)) { return Refused(NotText); }
      var picked := PickFirst(table, Eligible(table, domain, recipient, Micros(now)), limit);
      if picked != {} {
        table := Claimed(table, picked, Micros(now + lease));
      }
      return Taken(picked);
    }

    method MarkMessageDelivered(domain: string, messageID: string, now: Time) returns (ok: bool)
      modifies this
      ensures ok <==> domain != "" && Text(domain) && Text(messageID)
      ensures table == if ok then Delivered(old(table), (domain, messageID), Micros(now)) else old(table)
    {
      if domain == "" || !(Text(domain) && Text(messageID)) { return false; }
      var key := (domain, messageID);
      if key in table {
        table := table[key := table[key].(deliveredAt := Some(Micros(now)), claimedUntil := None)];
      }
      return true;
    }
  }

  /** The selection, one best row at a time. */
  method PickFirst(table: Table, eligible: set<Key>, limit: nat) returns (picked: set<Key>)
    requires eligible <= table.Keys
    ensures FirstOf(table, eligible, limit, picked)
  {
    picked := {};
    while |picked| < limit && picked != eligible
      invariant picked <= eligible && |picked| <= limit
      invariant forall k, l | k in picked && l in eligible - picked :: !Ahead(table[l], table[k])
      decreases limit - |picked|
    {
      var best := Best(table, eligible - picked);
      picked := picked + {best};
    }
    if picked != eligible {
      assert |eligible| == |picked| + |eligible - picked|;
    }
  }

  method Best(table: Table, keys: set<Key>) returns (best: Key)
    requires keys <= table.Keys && keys != {}
    ensures best in keys && forall l | l in keys :: !Ahead(table[l], table[best])
  {
    best :| best in keys;
    var todo := keys - {best};
    while todo != {}
      invariant best in keys && todo <= keys
      invariant forall l | l in keys - todo :: !Ahead(table[l], table[best])
      decreases todo
    {
      var k :| k in todo;
      if Ahead(table[k], table[best]) { best := k; }
      todo := todo - {k};
    }
  }

  /** Which rows a claim takes is determined up to rows that the order does not tell apart. */
  lemma PickUniqueUpToTies(table: Table, eligible: set<Key>, limit: nat, p: set<Key>, q: set<Key>, k: Key, l: Key)
    requires eligible <= table.Keys && FirstOf(table, eligible, limit, p) && FirstOf(table, eligible, limit, q)
    requires k in p - q && l in q - p
    ensures table[k].priority == table[l].priority && table[k].queuedAt == table[l].queuedAt
  {
    assert k in eligible - q && l in eligible - p;
  }

  // ----- runs of any number of relay instances -----

  datatype Event =
    | Store(message: Message)
    | Claim(domain: string, recipient: string, now: Time, lease: int, limit: nat, picked: set<Key>)
    | Deliver(key: Key, now: Time)

  ghost predicate Allowed(table: Table, e: Event) {
    match e
    case Store(m) => true
    case Claim(domain, recipient, now, lease, limit, picked) =>
      lease > 0 && FirstOf(table, Eligible(table, domain, recipient, Micros(now)), limit, picked)
    case Deliver(key, now) => true
  }

  function After(table: Table, e: Event): Table {
    match e
    case Store(m) => Stored(table, m)
    case Claim(_, _, now, lease, _, picked) => Claimed(table, picked, Micros(now + lease))
    case Deliver(key, now) => Delivered(table, key, Micros(now))
  }

  function TableAfter(run: seq<Event>): Table {
    if run == [] then map[] else After(TableAfter(run[..|run| - 1]), run[|run| - 1])
  }

  /** Every claim in the run takes what the statement selects from the table as it then is. */
  ghost predicate ValidRun(run: seq<Event>) {
    forall n | 0 <= n < |run| :: AllowedAt(run, n)
  }

  ghost predicate AllowedAt(run: seq<Event>, n: nat)
    requires n < |run|
  {
    Allowed(TableAfter(run[..n]), run[n])
  }

  predicate Claims(e: Event, key: Key) {
    e.Claim? && key in e.picked
  }

  function ClaimCount(run: seq<Event>, key: Key): nat {
    if run == [] then 0
    else ClaimCount(run[..|run| - 1], key) + (if Claims(run[|run| - 1], key) then 1 else 0)
  }

  lemma ValidPrefix(run: seq<Event>, n: nat)
    requires ValidRun(run) && n <= |run|
    ensures ValidRun(run[..n])
  {
    forall m | 0 <= m < n ensures AllowedAt(run[..n], m) {
      assert AllowedAt(run, m);
      assert run[..n][..m] == run[..m];
    }
  }

  /** What a claim finds: the row exists, is undelivered, and any earlier lease on it is over. */
  lemma ClaimFinds(run: seq<Event>, n: nat, key: Key)
    requires ValidRun(run) && n < |run| && Claims(run[n], key)
    ensures var table := TableAfter(run[..n]);
            && key in table && table[key].deliveredAt.None?
            && (table[key].claimedUntil.None? || table[key].claimedUntil.value <= Micros(run[n].now))
            && run[n].lease > 0
  {
    assert AllowedAt(run, n);
  }

  /** The attempt count of a row is the number of claims of it, and nothing is claimed that is not stored. */
  lemma {:induction false} AttemptsCountClaims(run: seq<Event>, key: Key)
    requires ValidRun(run)
    ensures if key in TableAfter(run) then TableAfter(run)[key].attempts == ClaimCount(run, key)
            else ClaimCount(run, key) == 0
    decreases |run|
  {
    if run != [] {
      var n := |run| - 1;
      ValidPrefix(run, n);
      AttemptsCountClaims(run[..n], key);
      if Claims(run[n], key) { ClaimFinds(run, n, key); }
    }
  }

  /** After a claim the row stays under lease at least until that claim's end, or has been delivered. */
  ghost predicate HeldUntil(table: Table, key: Key, until: Time) {
    && key in table
    && (table[key].deliveredAt.Some? || (table[key].claimedUntil.Some? && table[key].claimedUntil.value >= until))
  }

  lemma HeldStep(table: Table, e: Event, key: Key, until: Time)
    requires HeldUntil(table, key, until) && Allowed(table, e)
    ensures HeldUntil(After(table, e), key, until)
  {
  }

  lemma TableStep(run: seq<Event>, n: nat)
    requires n < |run|
    ensures TableAfter(run[..n + 1]) == After(TableAfter(run[..n]), run[n])
  {
    assert run[..n + 1][..n] == run[..n];
  }

  lemma ClaimHolds(run: seq<Event>, i: nat, key: Key)
    requires i < |run| && Claims(run[i], key) && key in TableAfter(run[..i])
    ensures HeldUntil(TableAfter(run[..i + 1]), key, Micros(run[i].now + run[i].lease))
  {
    TableStep(run, i);
  }

  lemma HeldNext(run: seq<Event>, n: nat, key: Key, until: Time)
    requires n < |run| && AllowedAt(run, n) && HeldUntil(TableAfter(run[..n]), key, until)
    ensures HeldUntil(TableAfter(run[..n + 1]), key, until)
  {
    TableStep(run, n);
    HeldStep(TableAfter(run[..n]), run[n], key, until);
  }

  lemma LeaseStarts(run: seq<Event>, i: nat, key: Key)
    requires ValidRun(run) && i < |run| && Claims(run[i], key)
    ensures HeldUntil(TableAfter(run[..i + 1]), key, Micros(run[i].now + run[i].lease))
  {
    ClaimFinds(run, i, key);
    ClaimHolds(run, i, key);
  }

  lemma {:induction false} LeaseHeld(run: seq<Event>, i: nat, n: nat, key: Key)
    requires ValidRun(run) && i < n <= |run| && Claims(run[i], key)
    ensures HeldUntil(TableAfter(run[..n]), key, Micros(run[i].now + run[i].lease))
    decreases n
  {
    if i == n - 1 {
      LeaseStarts(run, i, key);
    } else {
      LeaseHeld(run, i, n - 1, key);
      assert AllowedAt(run, n - 1);
      HeldNext(run, n - 1, key, Micros(run[i].now + run[i].lease));
    }
  }

  /** Two claims of one row, by whatever instances, are at least the first claim's lease apart, to the microsecond. No clock
      assumption is needed. */
  lemma {:induction false} ClaimsLeaseApart(run: seq<Event>, i: nat, j: nat, key: Key)
    requires ValidRun(run) && i < j < |run| && Claims(run[i], key) && Claims(run[j], key)
    ensures Micros(run[j].now) >= Micros(run[i].now + run[i].lease)
    ensures run[j].now > run[i].now + run[i].lease - 1000
    ensures (run[i].now + run[i].lease) % 1000 == 0 ==> run[j].now >= run[i].now + run[i].lease
  {
    LeaseHeld(run, i, j, key);
    ClaimFinds(run, j, key);
  }

  /** In no microsecond do two claims hold a lease on one row. */
  lemma {:induction false} LeaseExclusive(run: seq<Event>, i: nat, j: nat, key: Key, t: Time)
    requires ValidRun(run) && i < |run| && j < |run| && Claims(run[i], key) && Claims(run[j], key)
    requires Micros(run[i].now) <= t < Micros(run[i].now + run[i].lease)
    requires Micros(run[j].now) <= t < Micros(run[j].now + run[j].lease)
    ensures i == j
  {
    if i < j { ClaimsLeaseApart(run, i, j, key); }
    if j < i { ClaimsLeaseApart(run, j, i, key); }
  }

  lemma DeliveredStep(table: Table, e: Event, key: Key)
    requires key in table && table[key].deliveredAt.Some?
    ensures key in After(table, e) && After(table, e)[key].deliveredAt.Some?
  {
  }

  lemma {:induction false} DeliveryLasts(run: seq<Event>, i: nat, n: nat, key: Key)
    requires i < n <= |run| && run[i].Deliver? && run[i].key == key && key in TableAfter(run[..i])
    ensures key in TableAfter(run[..n]) && TableAfter(run[..n])[key].deliveredAt.Some?
    decreases n
  {
    TableStep(run, n - 1);
    if i < n - 1 {
      DeliveryLasts(run, i, n - 1, key);
      DeliveredStep(TableAfter(run[..n - 1]), run[n - 1], key);
    }
  }

  /** A row that has been marked delivered is never claimed again, even if the message is stored again. */
  lemma {:induction false} DeliveredNeverClaimed(run: seq<Event>, i: nat, j: nat, key: Key)
    requires ValidRun(run) && i < j < |run|
    requires run[i].Deliver? && run[i].key == key && key in TableAfter(run[..i])
    ensures !Claims(run[j], key)
  {
    DeliveryLasts(run, i, j, key);
    if Claims(run[j], key) { ClaimFinds(run, j, key); }
  }

  /** A claim leaves an eligible row behind only when it is full, and then only for rows that are not behind
      it; so a claim with room takes every eligible row. */
  lemma {:induction false} LeftBehindOnlyWhenFull(run: seq<Event>, n: nat, key: Key)
    requires ValidRun(run) && n < |run| && run[n].Claim? && !Claims(run[n], key)
    requires key in Eligible(TableAfter(run[..n]), run[n].domain, run[n].recipient, Micros(run[n].now))
    ensures |run[n].picked| == run[n].limit
    ensures forall k | k in run[n].picked ::
              k in TableAfter(run[..n]) && !Ahead(TableAfter(run[..n])[key], TableAfter(run[..n])[k])
  {
    var table, e := TableAfter(run[..n]), run[n];
    assert AllowedAt(run, n);
    var eligible := Eligible(table, e.domain, e.recipient, Micros(e.now));
    assert key in eligible - e.picked;
    assert |eligible| == |e.picked| + |eligible - e.picked|;
  }
}
