/** Replay protection: the in-memory nonce cache (`pkg/server/replay`), the durable nonce table
    (`pkg/server/repository/proof_nonce.go`) and the proof time window in front of them. */
module Replay {
  import opened GoStrings
  import opened GoTime

  /** What a nonce is scoped to. */
  datatype Scope = Scope(domain: string, device: string, audience: string, nonce: string)

  datatype Use = Use(scope: Scope, expires: Time, now: Time)

  // ----- the in-memory cache -----

  type Items = map<string, Time>

  /** The key both servers build: the four parts joined by NUL. */
  function CacheKey(s: Scope): string {
    s.domain + ['\0'] + s.device + ['\0'] + s.audience + ['\0'] + s.nonce
  }

  function Purged(items: Items, now: Time): Items {
    map k | k in items && !(now > items[k]) :: items[k]
  }

  predicate CacheAccepts(items: Items, key: string, now: Time) {
    !(key in Purged(items, now) && now < items[key])
  }

  function CacheAfter(items: Items, key: string, expires: Time, now: Time): Items {
    if CacheAccepts(items, key, now) then Purged(items, now)[key := expires] else Purged(items, now)
  }

  class Cache {
    var items: Items

    constructor ()
      ensures items == map[]
    {
      items := map[];
    }

    method Use(key: string, expiresAt: Time, now: Time) returns (ok: bool)
      modifies this
      ensures ok <==> CacheAccepts(old(items), key, now)
      ensures items == CacheAfter(old(items), key, expiresAt, now)
      ensures ok <==> key !in old(items) || now >= old(items)[key]
      ensures forall k :: k in items <==> (k in old(items) && now <= old(items)[k]) || (ok && k == key)
    {
      ghost var before := items;
      var todo := items.Keys;
      while todo != {}
        invariant todo <= before.Keys
        invariant items.Keys <= before.Keys
        invariant forall k | k in items :: items[k] == before[k]
        invariant forall k | k in before :: k in items <==> k in todo || !(now > before[k])
        decreases todo
      {
        var k :| k in todo;
        if now > items[k] { items := items - {k}; }
        todo := todo - {k};
      }
      assert items == Purged(before, now);
      if key in items && now < items[key] { return false; }
      items := items[key := expiresAt];
      return true;
    }
  }

  // ----- the durable table -----

  type RowKey = (string, string, string)   // domain_id, device_id, nonce: the primary key

  type Rows = map<RowKey, Time>   // with the expiry, in microseconds

  /** `proofNonceStorageKey`, for a hash that is given. */
  function TableKey(hash: string -> string, s: Scope): RowKey {
    (s.domain, s.device, hash(s.audience + ['\0'] + s.nonce))
  }

  /** `useProofNonce` has an answer for these; for any other scope it returns an error at once. */
  predicate Complete(s: Scope) {
    s.domain != "" && !Blank(s.device) && !Blank(s.audience) && !Blank(s.nonce)
  }

  /** The `text` columns of a row cannot hold a NUL, and a statement that is given one fails. The nonce column holds a
      digest, so audience and nonce may contain anything. */
  predicate Storable(s: Scope) {
    '\0' !in s.domain && '\0' !in s.device
  }

  /** The scopes the table takes. */
  predicate WellScoped(s: Scope) {
    Complete(s) && Storable(s)
  }

  /** `DELETE`: only rows of the same domain, and already at the instant they expire. */
  function Deleted(rows: Rows, domain: string, now: Time): Rows {
    map k | k in rows && !(k.0 == domain && rows[k] <= now) :: rows[k]
  }

  predicate TableAccepts(rows: Rows, hash: string -> string, s: Scope, now: Time) {
    WellScoped(s) && TableKey(hash, s) !in Deleted(rows, s.domain, now)
  }

  /** With a NUL in the domain the `DELETE` fails; with one only in the device ID it has taken effect before the `INSERT`
      fails. */
  function TableAfter(rows: Rows, hash: string -> string, s: Scope, expires: Time, now: Time): Rows {
    if !Complete(s) || '\0' in s.domain then rows
    else if TableAccepts(rows, hash, s, now) then Deleted(rows, s.domain, now)[TableKey(hash, s) := expires]
    else Deleted(rows, s.domain, now)
  }

  /** The answer of `useProofNonce`: true, false, or an error. */
  datatype Answer = Used | AlreadyUsed | Failed

  class NonceTable {
    const hash: string -> string
    var rows: Rows

    constructor (hash: string -> string)
      ensures this.hash == hash && rows == map[]
    {
      this.hash, rows := hash, map[];
    }

    /** The `DELETE` statement, at a time in microseconds. */
    method DeleteExpired(domain: string, now: Time) returns (ok: bool)
      modifies this`rows
      ensures ok <==> '\0' !in domain
      ensures rows == if ok then Deleted(old(rows), domain, now) else old(rows)
    {
      if '\0' in domain { return false; }
      rows := map k | k in rows && !(k.0 == domain && rows[k] <= now) :: rows[k];
      return true;
    }

    /** The `INSERT` statement, with an expiry in microseconds; it fails on a taken key and on text it cannot store. */
    method Insert(s: Scope, expiresAt: Time) returns (answer: Answer)
      modifies this`rows
      ensures answer == if !Storable(s) then Failed else if TableKey(hash, s) in old(rows) then AlreadyUsed else Used
      ensures rows == if answer.Used? then old(rows)[TableKey(hash, s) := expiresAt] else old(rows)
    {
      if '\0' in s.domain || '\0' in s.device { return Failed; }
      if TableKey(hash, s) in rows { return AlreadyUsed; }
      rows := rows[TableKey(hash, s) := expiresAt];
      return Used;
    }

    /** `useProofNonce`: an insert that violates uniqueness means the nonce was used; any other failure is an error. */
    method UseProofNonce(s: Scope, expiresAt: Time, now: Time) returns (answer: Answer)
      modifies this`rows
      ensures answer.Used? <==> TableAccepts(old(rows), hash, s, Micros(now))
      ensures answer.Failed? <==> !WellScoped(s)
      ensures rows == TableAfter(old(rows), hash, s, Micros(expiresAt), Micros(now))
    {
      if s.domain == "" || Blank(s.device) || Blank(s.audience) || Blank(s.nonce) { return Failed; }
      var deleted := DeleteExpired(s.domain, Micros(now));
      if !deleted { return Failed; }
      answer := Insert(s, Micros(expiresAt));
    }
  }

  // ----- runs -----

  function CacheRun(uses: seq<Use>): (r: (Items, seq<bool>))
    ensures |r.1| == |uses|
  {
    if uses == [] then (map[], [])
    else
      var n := |uses| - 1;
      var (items, answers) := CacheRun(uses[..n]);
      var u := uses[n];
      (CacheAfter(items, CacheKey(u.scope), u.expires, u.now), answers + [CacheAccepts(items, CacheKey(u.scope), u.now)])
  }

  /** The table over times in microseconds. */
  function ColumnRun(hash: string -> string, uses: seq<Use>): (r: (Rows, seq<bool>))
    ensures |r.1| == |uses|
    decreases |uses|
  {
    if uses == [] then (map[], [])
    else
      var n := |uses| - 1;
      var (rows, answers) := ColumnRun(hash, uses[..n]);
      var u := uses[n];
      (TableAfter(rows, hash, u.scope, u.expires, u.now), answers + [TableAccepts(rows, hash, u.scope, u.now)])
  }

  function Cut(u: Use): Use {
    Use(u.scope, Micros(u.expires), Micros(u.now))
  }

  /** The uses as the table is told of them. */
  function CutAll(uses: seq<Use>): (cut: seq<Use>)
    ensures |cut| == |uses| && forall i | 0 <= i < |uses| :: cut[i] == Cut(uses[i])
  {
    seq(|uses|, i requires 0 <= i < |uses| => Cut(uses[i]))
  }

  function TableRun(hash: string -> string, uses: seq<Use>): (r: (Rows, seq<bool>))
    ensures |r.1| == |uses|
  {
    ColumnRun(hash, CutAll(uses))
  }

  ghost predicate ClockForward(uses: seq<Use>) {
    forall i, j | 0 <= i < j < |uses| :: uses[i].now <= uses[j].now
  }

  /** An accepted use of this key is still live after `now`. */
  ghost predicate Live<K(!new)>(key: Scope -> K, uses: seq<Use>, answers: seq<bool>, k: K, now: Time)
    requires |answers| == |uses|
  {
    exists i :: 0 <= i < |uses| && answers[i] && key(uses[i].scope) == k && uses[i].expires > now
  }

  /** The rule: accept a use exactly when no earlier accepted use of its key expires later than now. */
  ghost predicate FollowsRule<K(!new)>(key: Scope -> K, uses: seq<Use>, answers: seq<bool>) {
    && |answers| == |uses|
    && forall j | 0 <= j < |uses| ::
         answers[j] <==> !Live(key, uses[..j], answers[..j], key(uses[j].scope), uses[j].now)
  }

  /** The rule leaves no choice. */
  lemma {:induction false} RuleDetermines<K(!new)>(key: Scope -> K, uses: seq<Use>, a: seq<bool>, b: seq<bool>)
    requires FollowsRule(key, uses, a) && FollowsRule(key, uses, b)
    ensures a == b
    decreases |uses|
  {
    if uses != [] {
      var n := |uses| - 1;
      RulePrefix(key, uses, a);
      RulePrefix(key, uses, b);
      RuleDetermines(key, uses[..n], a[..n], b[..n]);
      assert a == a[..n] + [a[n]] && b == b[..n] + [b[n]];
    }
  }

  lemma RulePrefix<K(!new)>(key: Scope -> K, uses: seq<Use>, answers: seq<bool>)
    requires FollowsRule(key, uses, answers) && uses != []
    ensures FollowsRule(key, uses[..|uses| - 1], answers[..|uses| - 1])
  {
    var n := |uses| - 1;
    forall j | 0 <= j < n
      ensures answers[..n][j] <==> !Live(key, uses[..n][..j], answers[..n][..j], key(uses[..n][j].scope), uses[..n][j].now)
    {
      assert uses[..n][..j] == uses[..j] && answers[..n][..j] == answers[..j];
    }
  }

  lemma RuleExtend<K(!new)>(key: Scope -> K, uses: seq<Use>, answers: seq<bool>, u: Use, ok: bool)
    requires FollowsRule(key, uses, answers)
    requires ok <==> !Live(key, uses, answers, key(u.scope), u.now)
    ensures FollowsRule(key, uses + [u], answers + [ok])
  {
    forall j | 0 <= j <= |uses|
      ensures (answers + [ok])[j]
         <==> !Live(key, (uses + [u])[..j], (answers + [ok])[..j], key((uses + [u])[j].scope), (uses + [u])[j].now)
    {
      assert (uses + [u])[..j] == uses[..j] && (answers + [ok])[..j] == answers[..j];
      if j == |uses| { assert uses[..j] == uses && answers[..j] == answers; }
    }
  }

  lemma LiveExtend<K(!new)>(key: Scope -> K, uses: seq<Use>, answers: seq<bool>, u: Use, ok: bool, k: K, now: Time)
    requires |answers| == |uses|
    ensures Live(key, uses + [u], answers + [ok], k, now)
       <==> Live(key, uses, answers, k, now) || (ok && key(u.scope) == k && u.expires > now)
  {
    var us, bs := uses + [u], answers + [ok];
    if Live(key, us, bs, k, now) {
      var i :| 0 <= i < |us| && bs[i] && key(us[i].scope) == k && us[i].expires > now;
      if i < |uses| { assert answers[i] && uses[i] == us[i]; }
    }
    if Live(key, uses, answers, k, now) {
      var i :| 0 <= i < |uses| && answers[i] && key(uses[i].scope) == k && uses[i].expires > now;
      assert bs[i] && us[i] == uses[i];
    }
    if ok && key(u.scope) == k && u.expires > now { assert bs[|uses|] && us[|uses|] == u; }
  }

  // ----- both stores follow the rule -----

  /** From `since` on, the entries that still matter are those of live accepted uses. */
  ghost predicate CacheTracks(items: Items, uses: seq<Use>, answers: seq<bool>, since: Time)
    requires |answers| == |uses|
  {
    forall k, now | now >= since :: (k in items && now < items[k]) <==> Live(CacheKey, uses, answers, k, now)
  }

  lemma CacheStep(items: Items, uses: seq<Use>, answers: seq<bool>, u: Use)
    requires |answers| == |uses| && CacheTracks(items, uses, answers, u.now)
    ensures CacheAccepts(items, CacheKey(u.scope), u.now) <==> !Live(CacheKey, uses, answers, CacheKey(u.scope), u.now)
    ensures CacheTracks(CacheAfter(items, CacheKey(u.scope), u.expires, u.now),
                        uses + [u], answers + [CacheAccepts(items, CacheKey(u.scope), u.now)], u.now)
  {
    var key := CacheKey(u.scope);
    var ok := CacheAccepts(items, key, u.now);
    var after := CacheAfter(items, key, u.expires, u.now);
    forall k, now | now >= u.now
      ensures (k in after && now < after[k]) <==> Live(CacheKey, uses + [u], answers + [ok], k, now)
    {
      LiveExtend(CacheKey, uses, answers, u, ok, k, now);
      LiveEarlier(CacheKey, uses, answers, k, u.now, now);
    }
  }

  lemma LiveEarlier<K(!new)>(key: Scope -> K, uses: seq<Use>, answers: seq<bool>, k: K, now: Time, later: Time)
    requires |answers| == |uses| && now <= later
    ensures Live(key, uses, answers, k, later) ==> Live(key, uses, answers, k, now)
  {
  }

  lemma CacheTracksLater(items: Items, uses: seq<Use>, answers: seq<bool>, since: Time, later: Time)
    requires |answers| == |uses| && since <= later && CacheTracks(items, uses, answers, since)
    ensures CacheTracks(items, uses, answers, later)
  {
  }

  lemma CacheRunSnoc(uses: seq<Use>, u: Use)
    ensures var (items, answers) := CacheRun(uses);
            CacheRun(uses + [u]) == (CacheAfter(items, CacheKey(u.scope), u.expires, u.now),
                                     answers + [CacheAccepts(items, CacheKey(u.scope), u.now)])
  {
    assert (uses + [u])[..|uses|] == uses;
  }

  lemma CacheNext(items: Items, uses: seq<Use>, answers: seq<bool>, u: Use, since: Time)
    requires FollowsRule(CacheKey, uses, answers) && CacheTracks(items, uses, answers, u.now) && since >= u.now
    ensures var ok := CacheAccepts(items, CacheKey(u.scope), u.now);
            && FollowsRule(CacheKey, uses + [u], answers + [ok])
            && CacheTracks(CacheAfter(items, CacheKey(u.scope), u.expires, u.now), uses + [u], answers + [ok], since)
  {
    var ok := CacheAccepts(items, CacheKey(u.scope), u.now);
    CacheStep(items, uses, answers, u);
    RuleExtend(CacheKey, uses, answers, u, ok);
    CacheTracksLater(CacheAfter(items, CacheKey(u.scope), u.expires, u.now), uses + [u], answers + [ok], u.now, since);
  }

  lemma CacheRunMore(uses: seq<Use>, u: Use, since: Time)
    requires FollowsRule(CacheKey, uses, CacheRun(uses).1) && CacheTracks(CacheRun(uses).0, uses, CacheRun(uses).1, u.now)
    requires since >= u.now
    ensures FollowsRule(CacheKey, uses + [u], CacheRun(uses + [u]).1)
    ensures CacheTracks(CacheRun(uses + [u]).0, uses + [u], CacheRun(uses + [u]).1, since)
  {
    CacheNext(CacheRun(uses).0, uses, CacheRun(uses).1, u, since);
    CacheRunSnoc(uses, u);
  }

  lemma {:induction false} CacheRunFollows(uses: seq<Use>, since: Time)
    requires ClockForward(uses) && (uses == [] || since >= uses[|uses| - 1].now)
    ensures FollowsRule(CacheKey, uses, CacheRun(uses).1)
    ensures CacheTracks(CacheRun(uses).0, uses, CacheRun(uses).1, since)
    decreases |uses|, 1
  {
    if uses != [] {
      var n := |uses| - 1;
      var earlier, u := uses[..n], uses[n];
      assert uses == earlier + [u];
      CacheRunLast(earlier, u, since);
    }
  }

  lemma CacheRunLast(uses: seq<Use>, u: Use, since: Time)
    requires ClockForward(uses + [u]) && since >= u.now
    ensures FollowsRule(CacheKey, uses + [u], CacheRun(uses + [u]).1)
    ensures CacheTracks(CacheRun(uses + [u]).0, uses + [u], CacheRun(uses + [u]).1, since)
    decreases |uses| + 1, 0
  {
    ClockPrefix(uses, u);
    CacheRunFollows(uses, u.now);
    CacheRunMore(uses, u, since);
  }

  lemma ClockPrefix(uses: seq<Use>, u: Use)
    requires ClockForward(uses + [u])
    ensures ClockForward(uses) && (uses != [] ==> uses[|uses| - 1].now <= u.now)
  {
    var all := uses + [u];
    assert forall i | 0 <= i < |uses| :: all[i] == uses[i];
    if uses != [] { assert all[|uses| - 1].now <= all[|uses|].now; }
  }

  function TableKeys(hash: string -> string): Scope -> RowKey {
    s => TableKey(hash, s)
  }

  ghost predicate TableTracks(key: Scope -> RowKey, rows: Rows, uses: seq<Use>, answers: seq<bool>, since: Time)
    requires |answers| == |uses|
  {
    forall k, now | now >= since :: (k in rows && now < rows[k]) <==> Live(key, uses, answers, k, now)
  }

  lemma TableStep(hash: string -> string, rows: Rows, uses: seq<Use>, answers: seq<bool>, u: Use)
    requires |answers| == |uses| && WellScoped(u.scope) && TableTracks(TableKeys(hash), rows, uses, answers, u.now)
    ensures TableAccepts(rows, hash, u.scope, u.now)
       <==> !Live(TableKeys(hash), uses, answers, TableKey(hash, u.scope), u.now)
    ensures TableTracks(TableKeys(hash), TableAfter(rows, hash, u.scope, u.expires, u.now),
                        uses + [u], answers + [TableAccepts(rows, hash, u.scope, u.now)], u.now)
  {
    var key := TableKeys(hash);
    var ok := TableAccepts(rows, hash, u.scope, u.now);
    var after := TableAfter(rows, hash, u.scope, u.expires, u.now);
    forall k, now | now >= u.now
      ensures (k in after && now < after[k]) <==> Live(key, uses + [u], answers + [ok], k, now)
    {
      LiveExtend(key, uses, answers, u, ok, k, now);
      LiveEarlier(key, uses, answers, k, u.now, now);
    }
  }

  ghost predicate AllWellScoped(uses: seq<Use>) {
    forall i | 0 <= i < |uses| :: WellScoped(uses[i].scope)
  }

  lemma {:induction false} ColumnRunFollows(hash: string -> string, uses: seq<Use>, since: Time)
    requires ClockForward(uses) && AllWellScoped(uses) && (uses == [] || since >= uses[|uses| - 1].now)
    ensures FollowsRule(TableKeys(hash), uses, ColumnRun(hash, uses).1)
    ensures TableTracks(TableKeys(hash), ColumnRun(hash, uses).0, uses, ColumnRun(hash, uses).1, since)
    decreases |uses|
  {
    if uses != [] {
      var n := |uses| - 1;
      var earlier, u := uses[..n], uses[n];
      ColumnRunFollows(hash, earlier, u.now);
      var (rows, answers) := ColumnRun(hash, earlier);
      TableStep(hash, rows, earlier, answers, u);
      RuleExtend(TableKeys(hash), earlier, answers, u, TableAccepts(rows, hash, u.scope, u.now));
      assert uses == earlier + [u];
    }
  }

  /** On every run with a clock that does not go back, the cache answers by the rule, for its own keys. */
  lemma CacheFollowsRule(uses: seq<Use>)
    requires ClockForward(uses)
    ensures FollowsRule(CacheKey, uses, CacheRun(uses).1)
  {
    CacheRunFollows(uses, if uses == [] then 0 else uses[|uses| - 1].now);
  }

  /** So does the table for the times it is told of, although it purges other entries at other moments. */
  lemma TableFollowsRule(hash: string -> string, uses: seq<Use>)
    requires ClockForward(uses) && AllWellScoped(uses)
    ensures FollowsRule(TableKeys(hash), CutAll(uses), TableRun(hash, uses).1)
  {
    var cut := CutAll(uses);
    ColumnRunFollows(hash, cut, if cut == [] then 0 else cut[|cut| - 1].now);
  }

  // ----- device proofs -----

  datatype Proof = Proof(scope: Scope, issuedAt: Time)

  /** A device proof as a call of `verifyProof` sees it. `authentic` stands for the checks of that call that depend on
      neither time nor the store: type, identity, audience, challenge, key and signature. */
  datatype Presented = Presented(proof: Proof, authentic: bool, ttl: int, now: Time)

  /** The time window of `VerifyProof`. */
  predicate InWindow(issuedAt: Time, ttl: int, now: Time) {
    !(now - issuedAt > ttl || issuedAt > now + ttl)
  }

  /** The proof gets as far as the nonce store. */
  predicate Admissible(e: Presented) {
    !Blank(e.proof.scope.nonce) && e.authentic && InWindow(e.proof.issuedAt, e.ttl, e.now)
  }

  /** `verifyProof` over the in-memory cache, for a run of presented proofs. */
  function ProofRun(run: seq<Presented>): (r: (Items, seq<bool>))
    ensures |r.1| == |run|
  {
    if run == [] then (map[], [])
    else
      var n := |run| - 1;
      var (items, answers) := ProofRun(run[..n]);
      var e := run[n];
      var key := CacheKey(e.proof.scope);
      if !Admissible(e) then (items, answers + [false])
      else (CacheAfter(items, key, e.proof.issuedAt + e.ttl, e.now), answers + [CacheAccepts(items, key, e.now)])
  }

  /** What a presented proof asks of the store. */
  function AsUse(e: Presented): Use {
    Use(e.proof.scope, e.proof.issuedAt + e.ttl, e.now)
  }

  function AsUses(run: seq<Presented>): (uses: seq<Use>)
    ensures |uses| == |run| && forall i | 0 <= i < |run| :: uses[i] == AsUse(run[i])
  {
    if run == [] then [] else AsUses(run[..|run| - 1]) + [AsUse(run[|run| - 1])]
  }

  lemma {:induction false} ProofRunTracks(run: seq<Presented>, since: Time)
    requires ClockForward(AsUses(run)) && (run == [] || since >= run[|run| - 1].now)
    ensures CacheTracks(ProofRun(run).0, AsUses(run), ProofRun(run).1, since)
    decreases |run|
  {
    if run != [] {
      var n := |run| - 1;
      var earlier, e := run[..n], run[n];
      assert AsUses(run) == AsUses(earlier) + [AsUse(e)];
      ProofRunTracks(earlier, e.now);
      var (items, answers) := ProofRun(earlier);
      if Admissible(e) {
        CacheStep(items, AsUses(earlier), answers, AsUse(e));
        CacheTracksLater(ProofRun(run).0, AsUses(run), ProofRun(run).1, e.now, since);
      } else {
        forall k, now | now >= since
          ensures (k in items && now < items[k]) <==> Live(CacheKey, AsUses(run), answers + [false], k, now)
        {
          LiveExtend(CacheKey, AsUses(earlier), answers, AsUse(e), false, k, now);
        }
      }
    }
  }

  lemma {:induction false} AnswerPrefix(run: seq<Presented>, j: nat)
    requires j <= |run|
    ensures ProofRun(run[..j]).1 == ProofRun(run).1[..j]
    decreases |run|
  {
    if j < |run| {
      AnswerPrefix(run[..|run| - 1], j);
      assert run[..|run| - 1][..j] == run[..j];
    } else {
      assert run[..j] == run;
    }
  }

  /** A proof is accepted exactly when it is admissible and no earlier accepted proof with its key is still
      unexpired. */
  lemma {:induction false} ProofAcceptedIff(run: seq<Presented>, j: nat)
    requires ClockForward(AsUses(run)) && j < |run|
    ensures var answers := ProofRun(run).1;
            answers[j] <==>
              Admissible(run[j])
              && !Live(CacheKey, AsUses(run)[..j], answers[..j], CacheKey(run[j].proof.scope), run[j].now)
  {
    var answers, e, earlier := ProofRun(run).1, run[j], run[..j];
    AnswerPrefix(run, j);
    AnswerPrefix(run, j + 1);
    assert run[..j + 1][..j] == earlier && run[..j + 1][j] == e;
    assert answers[j] == ProofRun(run[..j + 1]).1[j];
    assert AsUses(earlier) == AsUses(run)[..j];
    ProofRunTracks(earlier, e.now);
    if Admissible(e) {
      CacheStep(ProofRun(earlier).0, AsUses(earlier), answers[..j], AsUse(e));
    }
  }

  /** The first proof with its key is accepted exactly when it is authentic, has a nonce, and is presented no earlier before and
      no later after it was issued than the time-to-live. */
  lemma {:induction false} FirstProofAcceptedIff(run: seq<Presented>, j: nat)
    requires ClockForward(AsUses(run)) && j < |run|
    requires forall k | 0 <= k < j && ProofRun(run).1[k] :: CacheKey(run[k].proof.scope) != CacheKey(run[j].proof.scope)
    ensures ProofRun(run).1[j]
       <==> && run[j].authentic && !Blank(run[j].proof.scope.nonce)
            && run[j].proof.issuedAt - run[j].ttl <= run[j].now <= run[j].proof.issuedAt + run[j].ttl
  {
    ProofAcceptedIff(run, j);
  }

  /** A proof accepted under one time-to-live is accepted again under no longer a one only at the single
      instant at which it expires, and only under the same time-to-live, whatever is presented in between. */
  lemma {:induction false} ProofAcceptedOnce(run: seq<Presented>, i: nat, j: nat)
    requires ClockForward(AsUses(run)) && i < j < |run| && run[i].proof == run[j].proof && run[j].ttl <= run[i].ttl
    requires ProofRun(run).1[i] && ProofRun(run).1[j]
    ensures run[j].now == run[i].proof.issuedAt + run[i].ttl && run[j].ttl == run[i].ttl
  {
    ProofAcceptedIff(run, j);
    assert AsUses(run)[..j][i] == AsUse(run[i]) && ProofRun(run).1[..j][i];
  }

  /** Exactly when a proof that was accepted is accepted again by a call for which it is authentic, if its key was not
      accepted in between: from the instant it expired under the first time-to-live until it expires under the second. */
  lemma {:induction false} ProofReacceptedIff(run: seq<Presented>, i: nat, j: nat)
    requires ClockForward(AsUses(run)) && i < j < |run| && run[i].proof == run[j].proof
    requires ProofRun(run).1[i]
    requires forall k | 0 <= k < j && k != i && ProofRun(run).1[k] :: CacheKey(run[k].proof.scope) != CacheKey(run[i].proof.scope)
    ensures ProofRun(run).1[j]
       <==> run[j].authentic && run[i].proof.issuedAt + run[i].ttl <= run[j].now <= run[i].proof.issuedAt + run[j].ttl
  {
    ProofAcceptedIff(run, i);
    ProofAcceptedIff(run, j);
    assert AsUses(run)[..j][i] == AsUse(run[i]) && ProofRun(run).1[..j][i];
  }
}
