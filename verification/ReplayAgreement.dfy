/** When the in-memory nonce cache and the durable nonce table give the same answers, and which scopes they tell apart. */
module ReplayAgreement {
  import opened GoStrings
  import opened GoTime
  import opened Replay

  ghost predicate Agree(hash: string -> string, uses: seq<Use>) {
    CacheRun(uses).1 == TableRun(hash, uses).1
  }

  // ----- the rule under other keys -----

  /** Two key functions identify the same scopes. */
  ghost predicate SameKeys<J(!new), K(!new)>(f: Scope -> J, g: Scope -> K, scopes: iset<Scope>) {
    forall s, t | s in scopes && t in scopes :: f(s) == f(t) <==> g(s) == g(t)
  }

  lemma RuleForSameKeys<J(!new), K(!new)>(
    f: Scope -> J, g: Scope -> K, scopes: iset<Scope>, uses: seq<Use>, answers: seq<bool>)
    requires SameKeys(f, g, scopes) && FollowsRule(f, uses, answers)
    requires forall i | 0 <= i < |uses| :: uses[i].scope in scopes
    ensures FollowsRule(g, uses, answers)
  {
    forall j | 0 <= j < |uses|
      ensures answers[j] <==> !Live(g, uses[..j], answers[..j], g(uses[j].scope), uses[j].now)
    {
      LiveForSameKeys(f, g, scopes, uses[..j], answers[..j], uses[j].scope, uses[j].now);
      LiveForSameKeys(g, f, scopes, uses[..j], answers[..j], uses[j].scope, uses[j].now);
    }
  }

  lemma LiveForSameKeys<J(!new), K(!new)>(
    f: Scope -> J, g: Scope -> K, scopes: iset<Scope>, uses: seq<Use>, answers: seq<bool>, s: Scope, now: Time)
    requires SameKeys(f, g, scopes) && |answers| == |uses| && s in scopes
    requires forall i | 0 <= i < |uses| :: uses[i].scope in scopes
    ensures Live(f, uses, answers, f(s), now) ==> Live(g, uses, answers, g(s), now)
  {
    if Live(f, uses, answers, f(s), now) {
      var i :| 0 <= i < |uses| && answers[i] && f(uses[i].scope) == f(s) && uses[i].expires > now;
      assert g(uses[i].scope) == g(s);
    }
  }

  // ----- which scopes the stores tell apart -----

  /** A text splits in one way at its first NUL. */
  lemma FirstNulUnique(a: string, b: string, c: string, d: string)
    requires '\0' !in a && '\0' !in c
    requires a + (['\0'] + b) == c + (['\0'] + d)
    ensures a == c && b == d
  {
    var t, u := a + (['\0'] + b), c + (['\0'] + d);
    assert t[|a|] == '\0' && u[|c|] == '\0';
    assert forall i | 0 <= i < |a| :: t[i] == a[i];
    assert forall i | 0 <= i < |c| :: u[i] == c[i];
    assert |a| == |c|;
    assert a == t[..|a|] && c == t[..|a|];
    assert b == t[|a| + 1..] && d == t[|a| + 1..];
  }

  /** What both stores go by: domain, device, and audience and nonce joined by NUL. */
  function Joined(s: Scope): (string, string, string) {
    (s.domain, s.device, s.audience + ['\0'] + s.nonce)
  }

  function Itself(s: Scope): Scope { s }

  lemma CacheKeyJoins(s: Scope, t: Scope)
    requires Storable(s) && Storable(t)
    ensures CacheKey(s) == CacheKey(t) <==> Joined(s) == Joined(t)
  {
    var s1, t1 := s.device + (['\0'] + Joined(s).2), t.device + (['\0'] + Joined(t).2);
    assert CacheKey(s) == s.domain + (['\0'] + s1) && CacheKey(t) == t.domain + (['\0'] + t1);
    if CacheKey(s) == CacheKey(t) {
      FirstNulUnique(s.domain, s1, t.domain, t1);
      FirstNulUnique(s.device, Joined(s).2, t.device, Joined(t).2);
    }
  }

  /** Both stores tell apart exactly the scopes that differ once audience and nonce are joined. */
  lemma KeysTellAlike(hash: string -> string, scopes: iset<Scope>)
    requires Injective(hash) && forall s | s in scopes :: WellScoped(s)
    ensures SameKeys(CacheKey, Joined, scopes) && SameKeys(CacheKey, TableKeys(hash), scopes)
  {
    forall s, t | s in scopes && t in scopes
      ensures CacheKey(s) == CacheKey(t) <==> Joined(s) == Joined(t)
      ensures CacheKey(s) == CacheKey(t) <==> TableKeys(hash)(s) == TableKeys(hash)(t)
    {
      CacheKeyJoins(s, t);
      assert hash(Joined(s).2) == hash(Joined(t).2) <==> Joined(s).2 == Joined(t).2;
    }
  }

  // ----- when the two stores agree -----

  ghost function TakenScopes(): iset<Scope> {
    iset s: Scope | WellScoped(s)
  }

  /** Use j comes before accepted use i of its scope expires, but not in an earlier microsecond. */
  ghost predicate Blurred(uses: seq<Use>, answers: seq<bool>, i: nat, j: nat)
    requires i < j < |uses| == |answers|
  {
    && answers[i] && Joined(uses[i].scope) == Joined(uses[j].scope)
    && uses[j].now < uses[i].expires && !(Micros(uses[j].now) < Micros(uses[i].expires))
  }

  /** No use falls into the microsecond in which an earlier accepted use of its scope is about to expire. */
  ghost predicate Sharp(uses: seq<Use>) {
    forall i, j | 0 <= i < j < |uses| :: !Blurred(uses, CacheRun(uses).1, i, j)
  }

  /** On every run over scopes that the table takes, the cache answers by the rule for the joined scope at the true times: accept
      exactly when no earlier accepted use of it expires later than now. The table answers by it at the times cut off. */
  lemma BothFollowTheRule(hash: string -> string, uses: seq<Use>)
    requires Injective(hash) && ClockForward(uses) && AllWellScoped(uses)
    ensures FollowsRule(Joined, uses, CacheRun(uses).1)
    ensures FollowsRule(Joined, CutAll(uses), TableRun(hash, uses).1)
  {
    KeysTellAlike(hash, TakenScopes());
    CacheFollowsRule(uses);
    RuleForSameKeys(CacheKey, Joined, TakenScopes(), uses, CacheRun(uses).1);
    TableFollowsRule(hash, uses);
    assert SameKeys(TableKeys(hash), Joined, TakenScopes());
    RuleForSameKeys(TableKeys(hash), Joined, TakenScopes(), CutAll(uses), TableRun(hash, uses).1);
  }

  lemma LiveUncut(uses: seq<Use>, answers: seq<bool>, j: nat)
    requires j < |uses| == |answers|
    requires Live(Joined, CutAll(uses)[..j], answers[..j], Joined(uses[j].scope), Micros(uses[j].now))
    ensures Live(Joined, uses[..j], answers[..j], Joined(uses[j].scope), uses[j].now)
  {
    var cut := CutAll(uses)[..j];
    var i :| 0 <= i < j && answers[..j][i] && Joined(cut[i].scope) == Joined(uses[j].scope)
          && cut[i].expires > Micros(uses[j].now);
    assert uses[..j][i] == uses[i] && cut[i] == Cut(uses[i]);
    assert uses[i].expires > uses[j].now;
  }

  lemma LiveCut(uses: seq<Use>, answers: seq<bool>, j: nat)
    requires j < |uses| == |answers|
    requires forall i | 0 <= i < j :: !Blurred(uses, answers, i, j)
    requires Live(Joined, uses[..j], answers[..j], Joined(uses[j].scope), uses[j].now)
    ensures Live(Joined, CutAll(uses)[..j], answers[..j], Joined(uses[j].scope), Micros(uses[j].now))
  {
    var i :| 0 <= i < j && answers[..j][i] && Joined(uses[..j][i].scope) == Joined(uses[j].scope)
          && uses[..j][i].expires > uses[j].now;
    assert uses[..j][i] == uses[i] && !Blurred(uses, answers, i, j);
    var cut := CutAll(uses)[..j];
    assert cut[i] == Cut(uses[i]);
  }

  /** A run without blur is answered by the rule at the times cut off as it is at the true times. */
  lemma SharpRuleCut(uses: seq<Use>, answers: seq<bool>)
    requires FollowsRule(Joined, uses, answers)
    requires forall i, j | 0 <= i < j < |uses| :: !Blurred(uses, answers, i, j)
    ensures FollowsRule(Joined, CutAll(uses), answers)
  {
    var cut := CutAll(uses);
    forall j | 0 <= j < |uses|
      ensures answers[j] <==> !Live(Joined, cut[..j], answers[..j], Joined(cut[j].scope), cut[j].now)
    {
      if Live(Joined, cut[..j], answers[..j], Joined(cut[j].scope), cut[j].now) { LiveUncut(uses, answers, j); }
      if Live(Joined, uses[..j], answers[..j], Joined(uses[j].scope), uses[j].now) { LiveCut(uses, answers, j); }
    }
  }

  /** Of two accepted uses of one scope, the earlier has expired by the later. */
  lemma AcceptedOneByOne(uses: seq<Use>, answers: seq<bool>, i: nat, k: nat)
    requires FollowsRule(Joined, uses, answers) && i < k < |uses|
    requires answers[i] && answers[k] && Joined(uses[i].scope) == Joined(uses[k].scope)
    ensures uses[i].expires <= uses[k].now
  {
    assert answers[k] <==> !Live(Joined, uses[..k], answers[..k], Joined(uses[k].scope), uses[k].now);
    assert uses[..k][i] == uses[i] && answers[..k][i];
  }

  /** Answers by the rule at both kinds of times leave no blur. */
  lemma CutRuleSharp(uses: seq<Use>, answers: seq<bool>, i: nat, j: nat)
    requires ClockForward(uses) && FollowsRule(Joined, uses, answers) && FollowsRule(Joined, CutAll(uses), answers)
    requires i < j < |uses|
    ensures !Blurred(uses, answers, i, j)
  {
    if Blurred(uses, answers, i, j) {
      var cut := CutAll(uses);
      assert uses[..j][i] == uses[i] && answers[..j][i];
      assert Live(Joined, uses[..j], answers[..j], Joined(uses[j].scope), uses[j].now);
      assert Live(Joined, cut[..j], answers[..j], Joined(cut[j].scope), cut[j].now);
      var k :| 0 <= k < j && answers[..j][k] && Joined(cut[..j][k].scope) == Joined(cut[j].scope)
            && cut[..j][k].expires > cut[j].now;
      assert cut[..j][k] == Cut(uses[k]) && answers[k];
      LaterMicrosecond(uses[i].expires, uses[k].expires);
      if i < k { AcceptedOneByOne(uses, answers, i, k); } else if k < i { AcceptedOneByOne(uses, answers, k, i); }
      assert false;
    }
  }

  lemma LaterMicrosecond(t: Time, u: Time)
    requires Micros(t) < Micros(u)
    ensures t < u
  {
  }

  /** On a run over scopes that the table takes, the in-memory cache and the durable table give the same answers exactly when no
      use falls into the microsecond in which an earlier accepted use of its scope is about to expire. */
  lemma AgreeIff(hash: string -> string, uses: seq<Use>)
    requires Injective(hash) && ClockForward(uses) && AllWellScoped(uses)
    ensures Agree(hash, uses) <==> Sharp(uses)
  {
    BothFollowTheRule(hash, uses);
    if Sharp(uses) { SharpAnswersMeet(uses, CacheRun(uses).1, TableRun(hash, uses).1); }
    if Agree(hash, uses) { MeetingAnswersSharp(uses, CacheRun(uses).1); }
  }

  lemma SharpAnswersMeet(uses: seq<Use>, cache: seq<bool>, table: seq<bool>)
    requires FollowsRule(Joined, uses, cache) && FollowsRule(Joined, CutAll(uses), table)
    requires forall i, j | 0 <= i < j < |uses| :: !Blurred(uses, cache, i, j)
    ensures cache == table
  {
    SharpRuleCut(uses, cache);
    RuleDetermines(Joined, CutAll(uses), cache, table);
  }

  lemma MeetingAnswersSharp(uses: seq<Use>, answers: seq<bool>)
    requires ClockForward(uses) && FollowsRule(Joined, uses, answers) && FollowsRule(Joined, CutAll(uses), answers)
    ensures forall i, j | 0 <= i < j < |uses| :: !Blurred(uses, answers, i, j)
  {
    forall i, j | 0 <= i < j < |uses| ensures !Blurred(uses, answers, i, j) { CutRuleSharp(uses, answers, i, j); }
  }

  // ----- all runs over given scopes and times -----

  ghost predicate Over(uses: seq<Use>, scopes: iset<Scope>, expiries: iset<Time>, instants: iset<Time>) {
    && ClockForward(uses)
    && forall i | 0 <= i < |uses| :: uses[i].scope in scopes && uses[i].expires in expiries && uses[i].now in instants
  }

  ghost predicate AlwaysAgree(hash: string -> string, scopes: iset<Scope>, expiries: iset<Time>, instants: iset<Time>) {
    forall uses | Over(uses, scopes, expiries, instants) :: Agree(hash, uses)
  }

  /** No instant falls into the microsecond of a later expiry. */
  ghost predicate Separated(expiries: iset<Time>, instants: iset<Time>) {
    forall e, n | e in expiries && n in instants && n < e :: Micros(n) < Micros(e)
  }

  lemma SeparatedIsSharp(uses: seq<Use>, scopes: iset<Scope>, expiries: iset<Time>, instants: iset<Time>)
    requires Separated(expiries, instants) && Over(uses, scopes, expiries, instants)
    ensures Sharp(uses)
  {
  }

  /** The cache takes a scope that the table refuses. */
  lemma OneUse(hash: string -> string, s: Scope, e: Time, n: Time)
    ensures var uses := [Use(s, e, n)]; CacheRun(uses).1 == [true] && TableRun(hash, uses).1 == [WellScoped(s)]
  {
    var uses := [Use(s, e, n)];
    assert uses[..0] == [];
    assert CutAll(uses) == [Use(s, Micros(e), Micros(n))];
    ColumnOneUse(hash, s, Micros(e), Micros(n));
  }

  lemma ColumnOneUse(hash: string -> string, s: Scope, e: Time, n: Time)
    ensures ColumnRun(hash, [Use(s, e, n)]).1 == [WellScoped(s)]
  {
    assert [Use(s, e, n)][..0] == [];
  }

  /** A use that expires later than the first two run, twice at one instant: the cache goes by the time, the table by the
      microsecond. */
  lemma TwiceWithin(hash: string -> string, s: Scope, t: Time, u: Time)
    requires WellScoped(s) && t < u
    ensures var uses := [Use(s, u, t), Use(s, u, t)];
            CacheRun(uses).1 == [true, false] && TableRun(hash, uses).1 == [true, Micros(t) == Micros(u)]
  {
    TwoUses(hash, s, s, t, u);
  }

  /** Two uses at one instant tell two keys apart, when their expiry is in a later microsecond. */
  lemma TwoUses(hash: string -> string, s: Scope, r: Scope, t: Time, u: Time)
    requires WellScoped(s) && WellScoped(r) && t < u
    ensures var uses := [Use(s, u, t), Use(r, u, t)];
            && CacheRun(uses).1 == [true, CacheKey(s) != CacheKey(r)]
            && TableRun(hash, uses).1 == [true, TableKey(hash, s) != TableKey(hash, r) || Micros(t) == Micros(u)]
  {
    var uses := [Use(s, u, t), Use(r, u, t)];
    CacheTwoUses(s, r, t, u);
    assert Micros(t) <= Micros(u);
    assert CutAll(uses) == [Use(s, Micros(u), Micros(t)), Use(r, Micros(u), Micros(t))];
    ColumnTwoUses(hash, s, r, Micros(t), Micros(u));
  }

  lemma CacheTwoUses(s: Scope, r: Scope, t: Time, u: Time)
    requires t < u
    ensures CacheRun([Use(s, u, t), Use(r, u, t)]).1 == [true, CacheKey(s) != CacheKey(r)]
  {
    var one, uses := [Use(s, u, t)], [Use(s, u, t), Use(r, u, t)];
    assert one[..0] == [] && uses[..1] == one;
    assert CacheRun(one[..0]) == (map[], []) && Purged(map[], t) == map[];
    assert CacheRun(one).0 == map[CacheKey(s) := u] && CacheRun(one).1 == [true];
  }

  lemma ColumnTwoUses(hash: string -> string, s: Scope, r: Scope, t: Time, u: Time)
    requires WellScoped(s) && WellScoped(r) && t <= u
    ensures ColumnRun(hash, [Use(s, u, t), Use(r, u, t)]).1 == [true, TableKey(hash, s) != TableKey(hash, r) || t == u]
  {
    var one, uses := [Use(s, u, t)], [Use(s, u, t), Use(r, u, t)];
    assert one[..0] == [] && uses[..1] == one;
    assert ColumnRun(hash, one[..0]) == (map[], []) && Deleted(map[], s.domain, t) == map[];
    assert ColumnRun(hash, one).0 == map[TableKey(hash, s) := u] && ColumnRun(hash, one).1 == [true];
  }

  /** The two stores give the same answers on every run over a set of scopes, of expiries and of instants exactly when the table
      takes every scope (no part is missing, and neither domain nor device ID contains a NUL) and no instant falls into the
      microsecond of a later expiry; or there is nothing to run over. */
  lemma AlwaysAgreeIff(hash: string -> string, scopes: iset<Scope>, expiries: iset<Time>, instants: iset<Time>)
    requires Injective(hash)
    ensures AlwaysAgree(hash, scopes, expiries, instants)
       <==> scopes == iset{} || expiries == iset{} || instants == iset{}
            || ((forall s | s in scopes :: WellScoped(s)) && Separated(expiries, instants))
  {
    if AlwaysAgree(hash, scopes, expiries, instants) {
      if s, e, n :| s in scopes && e in expiries && n in instants {
        AgreementNeeds(hash, scopes, expiries, instants, s, e, n);
      } else {
        assert (forall s :: s !in scopes) || (forall e :: e !in expiries) || (forall n :: n !in instants);
      }
    } else {
      var uses: seq<Use> :| Over(uses, scopes, expiries, instants) && !Agree(hash, uses);
      assert uses != [];
      assert uses[0].scope in scopes && uses[0].expires in expiries && uses[0].now in instants;
      if (forall s | s in scopes :: WellScoped(s)) && Separated(expiries, instants) {
        SeparatedIsSharp(uses, scopes, expiries, instants);
        AgreeIff(hash, uses);
      }
    }
  }

  lemma AgreementNeeds(
    hash: string -> string, scopes: iset<Scope>, expiries: iset<Time>, instants: iset<Time>, s0: Scope, e0: Time, n0: Time)
    requires AlwaysAgree(hash, scopes, expiries, instants) && s0 in scopes && e0 in expiries && n0 in instants
    ensures (forall s | s in scopes :: WellScoped(s)) && Separated(expiries, instants)
  {
    forall s | s in scopes ensures WellScoped(s) {
      OneUse(hash, s, e0, n0);
      assert Over([Use(s, e0, n0)], scopes, expiries, instants);
    }
    forall e, n | e in expiries && n in instants && n < e ensures Micros(n) < Micros(e) {
      TwiceWithin(hash, s0, n, e);
      assert Over([Use(s0, e, n), Use(s0, e, n)], scopes, expiries, instants);
      assert Agree(hash, [Use(s0, e, n), Use(s0, e, n)]);
    }
  }

  /** With expiries on whole microseconds the stores agree on every run over scopes that the table takes, at whatever instants. */
  lemma WholeExpiriesAgree(hash: string -> string, uses: seq<Use>)
    requires Injective(hash) && ClockForward(uses) && AllWellScoped(uses)
    requires forall i | 0 <= i < |uses| :: uses[i].expires % 1000 == 0
    ensures Agree(hash, uses)
  {
    AgreeIff(hash, uses);
  }

  /** A run on which the stores differ: the device ID has a NUL, the cache accepts and the table fails. */
  lemma NulInDeviceDiffers(hash: string -> string)
    ensures var uses := [Use(Scope("d", "x\0r", "r", "n"), 0, 0)];
            CacheRun(uses).1 == [true] && TableRun(hash, uses).1 == [false]
  {
    OneUse(hash, Scope("d", "x\0r", "r", "n"), 0, 0);
    assert "x\0r"[1] == '\0';
  }

  /** Another: the nonce is used again within the microsecond in which it expires; the cache refuses it and the table takes
      it. */
  lemma SameMicrosecondDiffers(hash: string -> string)
    ensures var uses := [Use(Scope("d", "x", "r", "n"), 1500, 1200), Use(Scope("d", "x", "r", "n"), 1500, 1200)];
            CacheRun(uses).1 == [true, false] && TableRun(hash, uses).1 == [true, true]
  {
    NotBlank("x");
    NotBlank("r");
    NotBlank("n");
    TwiceWithin(hash, Scope("d", "x", "r", "n"), 1200, 1500);
  }

  lemma NotBlank(s: string)
    requires s != "" && !UnicodeSpace(s[0])
    ensures !Blank(s)
  {
    assert s[0] in s;
  }

  // ----- when the rule is the one for the scope itself -----

  /** Two distinct scopes that both stores take for one, whatever the hash: the NUL in the one's nonce is in the other's
      audience. The second use is refused by both. */
  lemma NulMergesScopes(hash: string -> string)
    ensures var s, t := Scope("d", "x", "r", "r\0n"), Scope("d", "x", "r\0r", "n");
            var uses := [Use(s, 1000, 0), Use(t, 1000, 0)];
            s != t && CacheRun(uses).1 == [true, false] && TableRun(hash, uses).1 == [true, false]
  {
    var s, t := Scope("d", "x", "r", "r\0n"), Scope("d", "x", "r\0r", "n");
    assert |s.audience| != |t.audience|;
    assert Joined(s).2 == Joined(t).2 == "r\0r\0n";
    assert CacheKey(s) == "d" + ['\0'] + "x" + ['\0'] + Joined(s).2 && CacheKey(t) == "d" + ['\0'] + "x" + ['\0'] + Joined(t).2;
    NotBlank("x");
    NotBlank("r");
    NotBlank("n");
    NotBlank("r\0n");
    NotBlank("r\0r");
    TwoUses(hash, s, t, 0, 1000);
  }

  ghost predicate ByScope(hash: string -> string, uses: seq<Use>) {
    FollowsRule(Itself, uses, CacheRun(uses).1) && FollowsRule(Itself, uses, TableRun(hash, uses).1)
  }

  /** Use j comes before accepted use i of another scope expires, and the two scopes join to the same. */
  ghost predicate Merged(uses: seq<Use>, answers: seq<bool>, i: nat, j: nat)
    requires i < j < |uses| == |answers|
  {
    && answers[i] && uses[i].scope != uses[j].scope && Joined(uses[i].scope) == Joined(uses[j].scope)
    && uses[j].now < uses[i].expires
  }

  ghost predicate Unmerged(uses: seq<Use>, answers: seq<bool>)
    requires |uses| == |answers|
  {
    forall i, j | 0 <= i < j < |uses| :: !Merged(uses, answers, i, j)
  }

  /** On a run over scopes that the table takes, both stores answer by the rule for the scope itself exactly when no use falls into
      the microsecond in which an accepted use of its scope is about to expire, and none comes before an accepted use of another
      scope expires that joins to the same. */
  lemma ByScopeIff(hash: string -> string, uses: seq<Use>)
    requires Injective(hash) && ClockForward(uses) && AllWellScoped(uses)
    ensures ByScope(hash, uses) <==> Sharp(uses) && Unmerged(uses, CacheRun(uses).1)
  {
    BothFollowTheRule(hash, uses);
    AgreeIff(hash, uses);
    if ByScope(hash, uses) {
      RuleDetermines(Itself, uses, CacheRun(uses).1, TableRun(hash, uses).1);
    }
    UnmergedIff(uses, CacheRun(uses).1);
  }

  lemma UnmergedIff(uses: seq<Use>, answers: seq<bool>)
    requires ClockForward(uses) && FollowsRule(Joined, uses, answers)
    ensures FollowsRule(Itself, uses, answers) <==> Unmerged(uses, answers)
  {
    if FollowsRule(Itself, uses, answers) {
      forall i, j | 0 <= i < j < |uses| ensures !Merged(uses, answers, i, j) { ItselfUnmerged(uses, answers, i, j); }
    }
    if Unmerged(uses, answers) { UnmergedByItself(uses, answers); }
  }

  lemma ItselfUnmerged(uses: seq<Use>, answers: seq<bool>, i: nat, j: nat)
    requires ClockForward(uses) && FollowsRule(Joined, uses, answers) && FollowsRule(Itself, uses, answers)
    requires i < j < |uses|
    ensures !Merged(uses, answers, i, j)
  {
    if Merged(uses, answers, i, j) {
      assert uses[..j][i] == uses[i] && answers[..j][i];
      assert Live(Joined, uses[..j], answers[..j], Joined(uses[j].scope), uses[j].now);
      assert Live(Itself, uses[..j], answers[..j], Itself(uses[j].scope), uses[j].now);
      var k :| 0 <= k < j && answers[..j][k] && Itself(uses[..j][k].scope) == Itself(uses[j].scope)
            && uses[..j][k].expires > uses[j].now;
      assert uses[..j][k] == uses[k] && answers[k];
      if i < k { AcceptedOneByOne(uses, answers, i, k); } else if k < i { AcceptedOneByOne(uses, answers, k, i); }
      assert false;
    }
  }

  lemma UnmergedByItself(uses: seq<Use>, answers: seq<bool>)
    requires FollowsRule(Joined, uses, answers) && Unmerged(uses, answers)
    ensures FollowsRule(Itself, uses, answers)
  {
    forall j | 0 <= j < |uses|
      ensures Live(Itself, uses[..j], answers[..j], Itself(uses[j].scope), uses[j].now)
         <==> Live(Joined, uses[..j], answers[..j], Joined(uses[j].scope), uses[j].now)
    {
      var us, bs := uses[..j], answers[..j];
      if Live(Joined, us, bs, Joined(uses[j].scope), uses[j].now) {
        var i :| 0 <= i < j && bs[i] && Joined(us[i].scope) == Joined(uses[j].scope) && us[i].expires > uses[j].now;
        assert us[i] == uses[i] && !Merged(uses, answers, i, j);
      }
      if Live(Itself, us, bs, Itself(uses[j].scope), uses[j].now) {
        var i :| 0 <= i < j && bs[i] && Itself(us[i].scope) == Itself(uses[j].scope) && us[i].expires > uses[j].now;
        assert Joined(us[i].scope) == Joined(uses[j].scope);
      }
    }
  }

  ghost predicate AlwaysByScope(hash: string -> string, scopes: iset<Scope>, expiries: iset<Time>, instants: iset<Time>) {
    forall uses | Over(uses, scopes, expiries, instants) :: ByScope(hash, uses)
  }

  /** No two of the scopes join to the same. */
  ghost predicate JoinApart(scopes: iset<Scope>) {
    forall s, t | s in scopes && t in scopes :: Joined(s) == Joined(t) ==> s == t
  }

  /** Over scopes that the table takes, with no instant in the microsecond of a later expiry and at least one before an expiry,
      both stores answer every run by the rule for the scope itself exactly when no two of the scopes join to the same. */
  lemma RuleForScopeItselfIff(
    hash: string -> string, scopes: iset<Scope>, expiries: iset<Time>, instants: iset<Time>, e: Time, n: Time)
    requires Injective(hash) && (forall s | s in scopes :: WellScoped(s))
    requires Separated(expiries, instants) && e in expiries && n in instants && n < e
    ensures AlwaysByScope(hash, scopes, expiries, instants) <==> JoinApart(scopes)
  {
    if AlwaysByScope(hash, scopes, expiries, instants) {
      forall s, r | s in scopes && r in scopes && s != r ensures Joined(s) != Joined(r) {
        ScopesToldApart(hash, scopes, expiries, instants, s, r, e, n);
      }
    } else {
      var uses :| Over(uses, scopes, expiries, instants) && !ByScope(hash, uses);
      if JoinApart(scopes) {
        SeparatedIsSharp(uses, scopes, expiries, instants);
        RuleForScopeItself(hash, scopes, uses);
      }
    }
  }

  lemma ScopesToldApart(
    hash: string -> string, scopes: iset<Scope>, expiries: iset<Time>, instants: iset<Time>, s: Scope, r: Scope, e: Time, n: Time)
    requires AlwaysByScope(hash, scopes, expiries, instants) && s in scopes && r in scopes && s != r
    requires WellScoped(s) && WellScoped(r) && e in expiries && n in instants && n < e
    ensures Joined(s) != Joined(r)
  {
    var uses := [Use(s, e, n), Use(r, e, n)];
    TwoUses(hash, s, r, n, e);
    assert Over(uses, scopes, expiries, instants) && ByScope(hash, uses);
    DifferentScopesBothAccepted(uses, CacheRun(uses).1);
    CacheKeyJoins(s, r);
  }

  lemma DifferentScopesBothAccepted(uses: seq<Use>, answers: seq<bool>)
    requires |uses| == 2 && uses[0].scope != uses[1].scope && FollowsRule(Itself, uses, answers)
    ensures answers[1]
  {
    assert answers[1] <==> !Live(Itself, uses[..1], answers[..1], Itself(uses[1].scope), uses[1].now);
  }

  /** On a run without blur, over scopes that join apart, both stores answer by the rule for the scope itself. */
  lemma RuleForScopeItself(hash: string -> string, scopes: iset<Scope>, uses: seq<Use>)
    requires Injective(hash) && ClockForward(uses) && AllWellScoped(uses) && Sharp(uses)
    requires JoinApart(scopes) && forall i | 0 <= i < |uses| :: uses[i].scope in scopes
    ensures ByScope(hash, uses)
  {
    BothFollowTheRule(hash, uses);
    AgreeIff(hash, uses);
    assert SameKeys(Joined, Itself, scopes);
    RuleForSameKeys(Joined, Itself, scopes, uses, CacheRun(uses).1);
  }

  /** Scopes join apart when no audience contains a NUL, whatever the nonces contain. */
  lemma PlainAudiencesJoinApart(scopes: iset<Scope>)
    requires forall s | s in scopes :: '\0' !in s.audience
    ensures JoinApart(scopes)
  {
    forall s, t | s in scopes && t in scopes && Joined(s) == Joined(t) ensures s == t {
      assert Joined(s).2 == s.audience + (['\0'] + s.nonce) && Joined(t).2 == t.audience + (['\0'] + t.nonce);
      FirstNulUnique(s.audience, s.nonce, t.audience, t.nonce);
    }
  }

  /** They do for one service, which takes only proofs for its own audience: then no NUL anywhere merges two of them. */
  lemma OneAudienceJoinsApart(scopes: iset<Scope>, audience: string)
    requires forall s | s in scopes :: s.audience == audience
    ensures JoinApart(scopes)
  {
    forall s, t | s in scopes && t in scopes && Joined(s) == Joined(t) ensures s == t {
      assert s.nonce == Joined(s).2[|audience| + 1..] && t.nonce == Joined(t).2[|audience| + 1..];
    }
  }
}
