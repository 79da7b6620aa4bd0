/** The status that the Trust Root reports for a grant, over whole runs. */
module TrustRootStatus {
  import opened GoStrings
  import opened GoTime
  import opened Handshake
  import opened TrustGrant
  import opened KeyRing
  import opened TrustRoot
  import opened TrustRootGrants

  // ----- reported status -----

  datatype GrantStatus = GrantNotFound | GrantActive | GrantExpired | GrantRevoked

  /** `grantStatus`: the grant is looked up in one section and its device's epoch in a later one. */
  function StatusSeen(cfg: Config, first: World, second: World, grantID: string, now: Time): GrantStatus {
    if grantID !in first.grants then GrantNotFound
    else
      var g := first.grants[grantID];
      if grantID in first.revokedGrants || (g.subject in second.devices && second.devices[g.subject].epoch > g.epoch) then GrantRevoked
      else if now >= cfg.clock.instant(g.expiresAt) then GrantExpired
      else GrantActive
  }

  function StatusRank(s: GrantStatus): nat {
    match s
    case GrantNotFound => 0
    case GrantActive => 1
    case GrantExpired => 2
    case GrantRevoked => 3
  }

  /** A section of `authorizeDevice` that puts another grant in the place of a stored one with the same ID. */
  predicate Replaces(w: World, e: TrustRoot.Event, grantID: string, g: Grant) {
    e.Stores? && e.flight in w.flights && w.flights[e.flight].Issued?
    && w.flights[e.flight].grant.grantID == grantID && w.flights[e.flight].grant != g
  }

  lemma {:induction false} GrantsKept(
    cfg: Config, states: seq<World>, events: seq<TrustRoot.Event>, i: nat, j: nat, grantID: string)
    requires TrustRoot.Run(cfg, states, events) && i <= j <= |events| && grantID in states[i].grants
    requires forall k | i <= k < j :: !Replaces(states[k], events[k], grantID, states[i].grants[grantID])
    ensures grantID in states[j].grants && states[j].grants[grantID] == states[i].grants[grantID]
    ensures states[i].revokedGrants <= states[j].revokedGrants
    decreases j
  {
    if i < j {
      GrantsKept(cfg, states, events, i, j - 1, grantID);
      assert StepAt(cfg, states, events, j - 1);
    }
  }

  /** Whatever the IDs: with a clock that does not go back, the status reported for a grant that is not overwritten only moves
      from active to expired to revoked. */
  lemma StatusOnlyAdvances(
    cfg: Config, states: seq<World>, events: seq<TrustRoot.Event>, a: nat, b: nat, c: nat, d: nat, grantID: string,
    now: Time, after: Time)
    requires TrustRoot.Run(cfg, states, events) && a <= b <= c <= d <= |events| && now <= after
    requires grantID in states[a].grants
    requires forall k | a <= k < c :: !Replaces(states[k], events[k], grantID, states[a].grants[grantID])
    ensures StatusRank(StatusSeen(cfg, states[a], states[b], grantID, now))
         <= StatusRank(StatusSeen(cfg, states[c], states[d], grantID, after))
    ensures StatusSeen(cfg, states[a], states[b], grantID, now) == GrantRevoked ==>
              StatusSeen(cfg, states[c], states[d], grantID, after) == GrantRevoked
  {
    GrantsKept(cfg, states, events, a, c, grantID);
    var g := states[a].grants[grantID];
    if g.subject in states[b].devices {
      RecordsAdvance(cfg, states, events, b, d, g.subject);
    }
  }

  lemma {:induction false} RevocationsKept(
    cfg: Config, states: seq<World>, events: seq<TrustRoot.Event>, i: nat, j: nat, grantID: string)
    requires TrustRoot.Run(cfg, states, events) && i <= j <= |events| && grantID in states[i].grants
    ensures grantID in states[j].grants && states[i].revokedGrants <= states[j].revokedGrants
    decreases j
  {
    if i < j {
      RevocationsKept(cfg, states, events, i, j - 1, grantID);
      assert StepAt(cfg, states, events, j - 1);
    }
  }

  /** A grant that `revokeGrant` revoked is reported revoked for ever, even if another takes its place. */
  lemma RevokedGrantStaysRevoked(
    cfg: Config, states: seq<World>, events: seq<TrustRoot.Event>, a: nat, c: nat, d: nat, grantID: string, now: Time)
    requires TrustRoot.Run(cfg, states, events) && a <= c <= d <= |events|
    requires grantID in states[a].grants && grantID in states[a].revokedGrants
    ensures StatusSeen(cfg, states[c], states[d], grantID, now) == GrantRevoked
  {
    RevocationsKept(cfg, states, events, a, c, grantID);
  }

  // ----- when no grant takes another's place -----

  /** Grant IDs are as good as the device and the time they are made from. */
  ghost predicate IDsTellApart(cfg: Config) {
    forall d, t, e, u :: cfg.grantID(d, t) == cfg.grantID(e, u) ==> d == e && t == u
  }

  /** The event signs the grant. */
  ghost predicate SignsGrant(cfg: Config, w: World, e: TrustRoot.Event, g: Grant) {
    && e.Signs? && Enabled(cfg, w, e)
    && IssuedGrant(cfg, w.flights[e.flight], e.now, w.keys[e.kid]) == Some(g)
  }

  /** No two grants are signed for one device at the same instant. */
  ghost predicate SigningTimesDiffer(cfg: Config, states: seq<World>, events: seq<TrustRoot.Event>)
    requires |events| < |states|
  {
    forall i, j, g, h | 0 <= i < j < |events| && SignsAt(cfg, states, events, i, g) && SignsAt(cfg, states, events, j, h) ::
      g.subject == h.subject ==> events[i].now != events[j].now
  }

  ghost predicate SignsAt(cfg: Config, states: seq<World>, events: seq<TrustRoot.Event>, i: nat, g: Grant)
    requires |events| < |states|
  {
    i < |events| && SignsGrant(cfg, states[i], events[i], g)
  }

  /** Everything issued or stored was signed, and is stored under its own ID. */
  ghost predicate AllSigned(w: World) {
    && (forall f | f in w.flights && w.flights[f].Issued? :: w.flights[f].grant in w.signed)
    && (forall id | id in w.grants :: w.grants[id].grantID == id && w.grants[id] in w.signed)
  }

  lemma {:induction false} AlwaysSigned(cfg: Config, states: seq<World>, events: seq<TrustRoot.Event>, i: nat)
    requires TrustRoot.Run(cfg, states, events) && i <= |events|
    ensures AllSigned(states[i])
  {
    if i > 0 {
      AlwaysSigned(cfg, states, events, i - 1);
      assert StepAt(cfg, states, events, i - 1);
      StaySigned(cfg, states[i - 1], events[i - 1], states[i]);
    }
  }

  lemma StaySigned(cfg: Config, w: World, e: TrustRoot.Event, after: World)
    requires TrustRoot.Step(cfg, w, e, after) && AllSigned(w)
    ensures AllSigned(after)
  {
    if e.Signs? { StaySignedBySigning(w, e.flight, IssuedGrant(cfg, w.flights[e.flight], e.now, w.keys[e.kid])); }
  }

  lemma StaySignedBySigning(w: World, flight: nat, issued: Option<Grant>)
    requires AllSigned(w)
    ensures AllSigned(Signing(w, flight, issued))
  {
    var after := Signing(w, flight, issued);
    assert forall g | g in w.signed :: g in after.signed;
  }

  lemma OnlySigningSigns(cfg: Config, w: World, e: TrustRoot.Event, after: World, g: Grant)
    requires TrustRoot.Step(cfg, w, e, after) && g in after.signed && g !in w.signed
    ensures SignsGrant(cfg, w, e, g)
  {
  }

  lemma NothingSignedAtFirst(cfg: Config, w: World)
    requires Initial(cfg, w)
    ensures w.signed == []
  {
    var private :| InitialWith(cfg, w, private);
  }

  lemma {:induction false} SignedSomewhere(
    cfg: Config, states: seq<World>, events: seq<TrustRoot.Event>, k: nat, g: Grant) returns (i: nat)
    requires TrustRoot.Run(cfg, states, events) && k <= |events| && g in states[k].signed
    ensures i < k && SignsAt(cfg, states, events, i, g)
  {
    NothingSignedAtFirst(cfg, states[0]);
    i := k - 1;
    if g in states[i].signed {
      i := SignedSomewhere(cfg, states, events, i, g);
    } else {
      assert StepAt(cfg, states, events, i);
      OnlySigningSigns(cfg, states[i], events[i], states[k], g);
    }
  }

  lemma SignedIDs(cfg: Config, w: World, e: TrustRoot.Event, g: Grant)
    requires SignsGrant(cfg, w, e, g)
    ensures g.grantID == cfg.grantID(g.subject, e.now)
  {
    IssuedGrantIs(cfg, w.flights[e.flight], e.now, w.keys[e.kid]);
  }

  /** One signing, one ID. */
  lemma SameIDSameGrant(
    cfg: Config, states: seq<World>, events: seq<TrustRoot.Event>, m: nat, n: nat, g: Grant, h: Grant)
    requires |events| < |states| && IDsTellApart(cfg) && SigningTimesDiffer(cfg, states, events)
    requires SignsAt(cfg, states, events, m, g) && SignsAt(cfg, states, events, n, h) && g.grantID == h.grantID
    ensures g == h
  {
    SignedIDs(cfg, states[m], events[m], g);
    SignedIDs(cfg, states[n], events[n], h);
    assert g.subject == h.subject && events[m].now == events[n].now;
    assert m == n;
  }

  /** When IDs tell device and time apart and no device has two grants signed at one instant, no grant ever takes the place of
      another: the condition under which the reported status only advances can be met by the clock alone. */
  lemma NeverReplaced(
    cfg: Config, states: seq<World>, events: seq<TrustRoot.Event>, i: nat, k: nat, grantID: string)
    requires TrustRoot.Run(cfg, states, events) && i <= k < |events| && grantID in states[i].grants
    requires IDsTellApart(cfg) && SigningTimesDiffer(cfg, states, events)
    ensures !Replaces(states[k], events[k], grantID, states[i].grants[grantID])
  {
    var w, e, g := states[k], events[k], states[i].grants[grantID];
    AlwaysSigned(cfg, states, events, i);
    AlwaysSigned(cfg, states, events, k);
    if Replaces(w, e, grantID, g) {
      var h := w.flights[e.flight].grant;
      var m := SignedSomewhere(cfg, states, events, i, g);
      var n := SignedSomewhere(cfg, states, events, k, h);
      SameIDSameGrant(cfg, states, events, m, n, g, h);
      assert false;
    }
  }

  // ----- revoked is absorbing -----

  /** The test for revocation in a query that looks the grant up in one state and its device in another. */
  ghost predicate RevokedSeen(first: World, second: World, grantID: string)
    requires grantID in first.grants
  {
    var g := first.grants[grantID];
    grantID in first.revokedGrants || (g.subject in second.devices && second.devices[g.subject].epoch > g.epoch)
  }

  /** Grant IDs of different devices differ. */
  ghost predicate IDsTellDevicesApart(cfg: Config) {
    forall d, t, e, u :: cfg.grantID(d, t) == cfg.grantID(e, u) ==> d == e
  }

  /** Only a revoked device has an epoch above zero. */
  ghost predicate EpochsOfRevoked(w: World) {
    forall d | d in w.devices && w.devices[d].epoch > 0 :: w.devices[d].status.Banned?
  }

  lemma EpochsOfRevokedStep(cfg: Config, w: World, e: TrustRoot.Event, after: World)
    requires TrustRoot.Step(cfg, w, e, after) && EpochsOfRevoked(w)
    ensures EpochsOfRevoked(after)
  {
    if e.Signs? { SignAdds(cfg, w, e, after); }
  }

  lemma {:induction false} AlwaysEpochsOfRevoked(cfg: Config, states: seq<World>, events: seq<TrustRoot.Event>, i: nat)
    requires TrustRoot.Run(cfg, states, events) && i <= |events|
    ensures EpochsOfRevoked(states[i])
  {
    if i > 0 {
      AlwaysEpochsOfRevoked(cfg, states, events, i - 1);
      assert StepAt(cfg, states, events, i - 1);
      EpochsOfRevokedStep(cfg, states[i - 1], events[i - 1], states[i]);
    }
  }

  lemma SignedStep(cfg: Config, w: World, e: TrustRoot.Event, after: World, g: Grant)
    requires TrustRoot.Step(cfg, w, e, after) && g in w.signed
    ensures g in after.signed
  {
  }

  lemma {:induction false} SignedGrows(
    cfg: Config, states: seq<World>, events: seq<TrustRoot.Event>, i: nat, j: nat, g: Grant)
    requires TrustRoot.Run(cfg, states, events) && i <= j <= |events| && g in states[i].signed
    ensures g in states[j].signed
    decreases j
  {
    if i < j {
      SignedGrows(cfg, states, events, i, j - 1, g);
      assert StepAt(cfg, states, events, j - 1);
      SignedStep(cfg, states[j - 1], events[j - 1], states[j], g);
    }
  }

  /** One ID, one device. */
  lemma SameIDSameSubject(
    cfg: Config, states: seq<World>, events: seq<TrustRoot.Event>, i: nat, j: nat, g: Grant, h: Grant)
    requires TrustRoot.Run(cfg, states, events) && IDsTellDevicesApart(cfg) && i <= |events| && j <= |events|
    requires g in states[i].signed && h in states[j].signed && g.grantID == h.grantID
    ensures g.subject == h.subject
  {
    var m := SignedSomewhere(cfg, states, events, i, g);
    var n := SignedSomewhere(cfg, states, events, j, h);
    SignedIDs(cfg, states[m], events[m], g);
    SignedIDs(cfg, states[n], events[n], h);
  }

  /** A device that has been revoked before a state has outrun every grant signed for it by then. */
  lemma RevokedOutrunsAll(cfg: Config, states: seq<World>, events: seq<TrustRoot.Event>, b: nat, d: nat, h: Grant)
    requires TrustRoot.Run(cfg, states, events) && b <= d <= |events| && h in states[d].signed
    requires h.subject in states[b].devices && states[b].devices[h.subject].epoch > 0
    ensures h.subject in states[d].devices && states[d].devices[h.subject].epoch > h.epoch
  {
    AlwaysEpochsOfRevoked(cfg, states, events, b);
    RecordsAdvance(cfg, states, events, b, d, h.subject);
    AlwaysBelow(cfg, states, events, d);
  }

  /** Revoked is absorbing in every run: once a query finds the grant revoked, every query that does not end before it does,
      even if another grant has taken its place in between. */
  lemma RevokedIsAbsorbing(
    cfg: Config, states: seq<World>, events: seq<TrustRoot.Event>, a: nat, b: nat, c: nat, d: nat, grantID: string)
    requires TrustRoot.Run(cfg, states, events) && IDsTellDevicesApart(cfg)
    requires a <= b <= d <= |events| && a <= c <= d && grantID in states[a].grants
    requires RevokedSeen(states[a], states[b], grantID)
    ensures grantID in states[c].grants && RevokedSeen(states[c], states[d], grantID)
  {
    RevocationsKept(cfg, states, events, a, c, grantID);
    if grantID !in states[a].revokedGrants {
      AlwaysSigned(cfg, states, events, a);
      AlwaysSigned(cfg, states, events, c);
      var g, h := states[a].grants[grantID], states[c].grants[grantID];
      SameIDSameSubject(cfg, states, events, a, c, g, h);
      SignedGrows(cfg, states, events, c, d, h);
      RevokedOutrunsAll(cfg, states, events, b, d, h);
    }
  }

  // ----- when the status never goes back -----

  /** The two queries, the first done before the second starts and the times in order, report the status in order. */
  ghost predicate InOrder(
    cfg: Config, states: seq<World>, grantID: string, a: nat, b: nat, c: nat, d: nat, now: Time, after: Time)
    requires a <= b <= c <= d < |states|
  {
    StatusRank(StatusSeen(cfg, states[a], states[b], grantID, now))
      <= StatusRank(StatusSeen(cfg, states[c], states[d], grantID, after))
  }

  ghost predicate StatusNeverGoesBack(cfg: Config, states: seq<World>, grantID: string) {
    forall a: nat, b: nat, c: nat, d: nat, now, after | a <= b <= c <= d < |states| && now <= after ::
      InOrder(cfg, states, grantID, a, b, c, d, now, after)
  }

  /** The section stores a grant in the place of one that is not revoked and expires earlier. */
  ghost predicate Prolongs(cfg: Config, w: World, e: TrustRoot.Event, grantID: string) {
    && e.Stores? && e.flight in w.flights && w.flights[e.flight].Issued? && w.flights[e.flight].grant.grantID == grantID
    && grantID in w.grants && !RevokedSeen(w, w, grantID)
    && cfg.clock.instant(w.grants[grantID].expiresAt) < cfg.clock.instant(w.flights[e.flight].grant.expiresAt)
  }

  function Expiry(cfg: Config, w: World, grantID: string): Time
    requires grantID in w.grants
  {
    cfg.clock.instant(w.grants[grantID].expiresAt)
  }

  lemma ExpiryStep(cfg: Config, w: World, e: TrustRoot.Event, after: World, grantID: string)
    requires TrustRoot.Step(cfg, w, e, after) && grantID in w.grants
    requires !RevokedSeen(w, w, grantID) && !Prolongs(cfg, w, e, grantID)
    ensures grantID in after.grants && Expiry(cfg, after, grantID) <= Expiry(cfg, w, grantID)
  {
    if e.Signs? { SignAdds(cfg, w, e, after); }
  }

  /** Without such a section, what is stored under an ID never expires later than before, until it is revoked. */
  lemma {:induction false} ExpiryNeverGrows(
    cfg: Config, states: seq<World>, events: seq<TrustRoot.Event>, a: nat, c: nat, grantID: string)
    requires TrustRoot.Run(cfg, states, events) && a <= c <= |events| && grantID in states[a].grants
    requires forall k | a <= k < c :: grantID in states[k].grants && !RevokedSeen(states[k], states[k], grantID)
    requires forall k | a <= k < c :: !Prolongs(cfg, states[k], events[k], grantID)
    ensures grantID in states[c].grants && Expiry(cfg, states[c], grantID) <= Expiry(cfg, states[a], grantID)
    decreases c
  {
    if a < c {
      ExpiryNeverGrows(cfg, states, events, a, c - 1, grantID);
      assert StepAt(cfg, states, events, c - 1);
      ExpiryStep(cfg, states[c - 1], events[c - 1], states[c], grantID);
    }
  }

  lemma QueriesInOrder(
    cfg: Config, states: seq<World>, events: seq<TrustRoot.Event>, grantID: string, a: nat, b: nat, c: nat, d: nat,
    now: Time, after: Time)
    requires TrustRoot.Run(cfg, states, events) && IDsTellDevicesApart(cfg)
    requires forall k | 0 <= k < |events| :: !Prolongs(cfg, states[k], events[k], grantID)
    requires a <= b <= c <= d <= |events| && now <= after
    ensures InOrder(cfg, states, grantID, a, b, c, d, now, after)
  {
    if grantID in states[a].grants {
      RevocationsKept(cfg, states, events, a, c, grantID);
      if !RevokedSeen(states[c], states[d], grantID) {
        forall k | a <= k <= c ensures grantID in states[k].grants && !RevokedSeen(states[k], states[k], grantID) {
          RevocationsKept(cfg, states, events, a, k, grantID);
          if RevokedSeen(states[k], states[k], grantID) {
            RevokedIsAbsorbing(cfg, states, events, k, k, c, d, grantID);
          }
        }
        if RevokedSeen(states[a], states[b], grantID) {
          RevokedIsAbsorbing(cfg, states, events, a, b, c, d, grantID);
        }
        ExpiryNeverGrows(cfg, states, events, a, c, grantID);
      }
    }
  }

  /** Where a longer grant takes the place of one that is not revoked, it is not revoked either, and the status goes back at
      the instant the first expires. */
  lemma ProlongingGoesBack(cfg: Config, states: seq<World>, events: seq<TrustRoot.Event>, grantID: string, k: nat)
    requires TrustRoot.Run(cfg, states, events) && IDsTellDevicesApart(cfg)
    requires k < |events| && Prolongs(cfg, states[k], events[k], grantID)
    ensures var t := Expiry(cfg, states[k], grantID); !InOrder(cfg, states, grantID, k, k, k + 1, k + 1, t, t)
  {
    var w, e := states[k], events[k];
    var g, h := w.grants[grantID], w.flights[e.flight].grant;
    assert StepAt(cfg, states, events, k);
    AlwaysSigned(cfg, states, events, k);
    SameIDSameSubject(cfg, states, events, k, k, g, h);
    if h.subject in w.devices && w.devices[h.subject].epoch > 0 {
      RevokedOutrunsAll(cfg, states, events, k, k, g);
    }
    assert !RevokedSeen(w, w, grantID) && !RevokedSeen(states[k + 1], states[k + 1], grantID);
  }

  /** In a run with IDs that tell devices apart, the status reported for an ID never goes back, between any two queries in order
      and at any times in order, exactly when no section of `authorizeDevice` stores a grant with that ID in the place of one
      that is not revoked and expires earlier. */
  lemma StatusNeverGoesBackIff(cfg: Config, states: seq<World>, events: seq<TrustRoot.Event>, grantID: string)
    requires TrustRoot.Run(cfg, states, events) && IDsTellDevicesApart(cfg)
    ensures StatusNeverGoesBack(cfg, states, grantID)
       <==> forall k | 0 <= k < |events| :: !Prolongs(cfg, states[k], events[k], grantID)
  {
    if StatusNeverGoesBack(cfg, states, grantID) {
      forall k | 0 <= k < |events| ensures !Prolongs(cfg, states[k], events[k], grantID) {
        if Prolongs(cfg, states[k], events[k], grantID) {
          ProlongingGoesBack(cfg, states, events, grantID, k);
        }
      }
    }
    if forall k | 0 <= k < |events| :: !Prolongs(cfg, states[k], events[k], grantID) {
      forall a: nat, b: nat, c: nat, d: nat, now, after | a <= b <= c <= d < |states| && now <= after
        ensures InOrder(cfg, states, grantID, a, b, c, d, now, after)
      {
        QueriesInOrder(cfg, states, events, grantID, a, b, c, d, now, after);
      }
    }
  }

  /** A clock that never signs twice for a device at one instant is enough. */
  lemma StatusAdvancesByTheClock(cfg: Config, states: seq<World>, events: seq<TrustRoot.Event>, grantID: string)
    requires TrustRoot.Run(cfg, states, events) && IDsTellApart(cfg) && SigningTimesDiffer(cfg, states, events)
    ensures StatusNeverGoesBack(cfg, states, grantID)
  {
    forall k | 0 <= k < |events| ensures !Prolongs(cfg, states[k], events[k], grantID) {
      if Prolongs(cfg, states[k], events[k], grantID) {
        NeverReplaced(cfg, states, events, k, k, grantID);
        assert false;
      }
    }
    StatusNeverGoesBackIff(cfg, states, events, grantID);
  }

  function MinuteRequest(deviceID: string, minutes: int): Request {
    Request(deviceID, "", ["text"], "", 60 * minutes)
  }

  /** A flight begun for such a request is issued a grant that lasts that long. */
  lemma MinuteGrant(cfg: Config, record: Record, deviceID: string, minutes: int, now: Time, key: Key)
    requires Faithful(cfg.clock) && 0 < minutes <= 2 && record.epoch == 0
    ensures var issued := IssuedGrant(cfg, Begun(record, MinuteRequest(deviceID, minutes)), now, key);
            && issued.Some? && issued.value.grantID == cfg.grantID(deviceID, now) && issued.value.subject == deviceID
            && issued.value.epoch == 0 && cfg.clock.instant(issued.value.expiresAt) == now + 60 * minutes * SECOND
  {
    var request := MinuteRequest(deviceID, minutes);
    IssuableIff(cfg, record, request, now, key);
    IssuedGrantIs(cfg, Begun(record, request), now, key);
    MinuteTTL(deviceID, minutes);
    MinuteUnsigned(cfg, record, deviceID, minutes, now, IssuedGrant(cfg, Begun(record, request), now, key).value);
  }

  lemma MinuteTTL(deviceID: string, minutes: int)
    requires 0 < minutes <= 2
    ensures TTL(MinuteRequest(deviceID, minutes), 3600 * SECOND) == 60 * minutes * SECOND
  {
  }

  lemma MinuteUnsigned(cfg: Config, record: Record, deviceID: string, minutes: int, now: Time, g: Grant)
    requires Faithful(cfg.clock) && 0 < minutes <= 2 && record.epoch == 0
    requires Unsigned(g) == GrantFor(cfg, record, MinuteRequest(deviceID, minutes), now, 3600 * SECOND)
    ensures g.grantID == cfg.grantID(deviceID, now) && g.subject == deviceID
    ensures g.epoch == 0 && cfg.clock.instant(g.expiresAt) == now + 60 * minutes * SECOND
  {
    MinuteTTL(deviceID, minutes);
    assert cfg.clock.instant(cfg.clock.text(now + 60 * minutes * SECOND)) == now + 60 * minutes * SECOND;
  }

  /** Two requests for one device that are begun before either is signed. */
  ghost function TwoBegun(cfg: Config, private: string, id: Identity): World {
    var record := Record(id, Authorized, 3, 0);
    World(map[id.deviceID := record], map[], {}, [], map[KeyID(cfg.p, private) := NewKey(cfg.p, private).(state := Active)],
          map[0 := Begun(record.(version := 2), MinuteRequest(id.deviceID, 1)), 1 := Begun(record, MinuteRequest(id.deviceID, 2))],
          [])
  }

  lemma TwoBegunReached(cfg: Config, private: string, id: Identity) returns (states: seq<World>, events: seq<TrustRoot.Event>)
    requires !Blank(KeyID(cfg.p, private))
    ensures TrustRoot.Run(cfg, states, events) && |events| == 3 && states[3] == TwoBegun(cfg, private, id)
  {
    var keys := map[KeyID(cfg.p, private) := NewKey(cfg.p, private).(state := Active)];
    var w0 := World(map[], map[], {}, [], keys, map[], []);
    assert InitialWith(cfg, w0, private);
    events := [Submits(id), Begins(0, MinuteRequest(id.deviceID, 1)), Begins(1, MinuteRequest(id.deviceID, 2))];
    var w1 := Submit(w0, id);
    var w2 := Begin(w1, 0, MinuteRequest(id.deviceID, 1));
    var w3 := Begin(w2, 1, MinuteRequest(id.deviceID, 2));
    states := [w0, w1, w2, w3];
    assert StepAt(cfg, states, events, 0) && StepAt(cfg, states, events, 1) && StepAt(cfg, states, events, 2);
    assert w3.devices == TwoBegun(cfg, private, id).devices && w3.flights == TwoBegun(cfg, private, id).flights;
  }

  lemma {:induction false} RunExtends(
    cfg: Config, states: seq<World>, events: seq<TrustRoot.Event>, e: TrustRoot.Event, w: World)
    requires TrustRoot.Run(cfg, states, events) && TrustRoot.Step(cfg, states[|events|], e, w)
    ensures TrustRoot.Run(cfg, states + [w], events + [e])
  {
    forall i | 0 <= i < |events| + 1 ensures StepAt(cfg, states + [w], events + [e], i) {
      if i < |events| { assert StepAt(cfg, states, events, i); }
    }
  }

  lemma TwoSignedReached(cfg: Config, private: string, id: Identity, now: Time)
    returns (states: seq<World>, events: seq<TrustRoot.Event>)
    requires !Blank(KeyID(cfg.p, private))
    ensures TrustRoot.Run(cfg, states, events) && |events| == 5
    ensures var w := TwoBegun(cfg, private, id);
            var key := w.keys[KeyID(cfg.p, private)];
            states[5] == Signing(Signing(w, 0, IssuedGrant(cfg, w.flights[0], now, key)), 1,
                                 IssuedGrant(cfg, w.flights[1], now, key))
  {
    states, events := TwoBegunReached(cfg, private, id);
    var w, kid := TwoBegun(cfg, private, id), KeyID(cfg.p, private);
    var w4 := Signing(w, 0, IssuedGrant(cfg, w.flights[0], now, w.keys[kid]));
    var w5 := Signing(w4, 1, IssuedGrant(cfg, w.flights[1], now, w.keys[kid]));
    RunExtends(cfg, states, events, Signs(0, now, kid), w4);
    states, events := states + [w4], events + [Signs(0, now, kid)];
    RunExtends(cfg, states, events, Signs(1, now, kid), w5);
    states, events := states + [w5], events + [Signs(1, now, kid)];
  }

  /** Storing two grants with one ID, the longer one second. */
  lemma SecondTakesThePlace(cfg: Config, w: World, g: Grant, h: Grant, later: Time)
    requires 0 in w.flights && w.flights[0] == Issued(g) && 1 in w.flights && w.flights[1] == Issued(h)
    requires g.grantID == h.grantID && g.subject == h.subject && g.epoch == h.epoch == 0 && w.revokedGrants == {}
    requires g.subject in w.devices && w.devices[g.subject].epoch == 0
    requires cfg.clock.instant(g.expiresAt) <= later < cfg.clock.instant(h.expiresAt)
    ensures var once := Store(w, 0);
            && 1 in once.flights && once.flights[1].Issued?
            && StatusSeen(cfg, once, once, g.grantID, later) == GrantExpired
            && StatusSeen(cfg, Store(once, 1), Store(once, 1), g.grantID, later) == GrantActive
  {
  }

  lemma TwoStoredReached(cfg: Config, private: string, id: Identity, now: Time)
    returns (states: seq<World>, events: seq<TrustRoot.Event>)
    requires Faithful(cfg.clock) && !Blank(KeyID(cfg.p, private))
    ensures TrustRoot.Run(cfg, states, events) && |events| == 7
    ensures var grantID, later := cfg.grantID(id.deviceID, now), now + 60 * SECOND;
            && StatusSeen(cfg, states[6], states[6], grantID, later) == GrantExpired
            && StatusSeen(cfg, states[7], states[7], grantID, later) == GrantActive
  {
    states, events := TwoSignedReached(cfg, private, id, now);
    var begun, w := TwoBegun(cfg, private, id), states[5];
    var key := begun.keys[KeyID(cfg.p, private)];
    MinuteGrant(cfg, begun.flights[0].record, id.deviceID, 1, now, key);
    MinuteGrant(cfg, begun.flights[1].record, id.deviceID, 2, now, key);
    SecondTakesThePlace(cfg, w, w.flights[0].grant, w.flights[1].grant, now + 60 * SECOND);
    states, events := StoreBoth(cfg, states, events);
  }

  /** The condition is needed: when two grants are signed for one device at one instant, the second takes the place of the
      first, and a status that was expired is active again. */
  lemma ReplacedGrantRevives(cfg: Config, private: string, id: Identity, now: Time)
    returns (states: seq<World>, events: seq<TrustRoot.Event>)
    requires Faithful(cfg.clock) && !Blank(KeyID(cfg.p, private))
    ensures TrustRoot.Run(cfg, states, events) && |events| == 7
    ensures var grantID, later := cfg.grantID(id.deviceID, now), now + 60 * SECOND;
            && StatusSeen(cfg, states[6], states[6], grantID, later) == GrantExpired
            && StatusSeen(cfg, states[7], states[7], grantID, later) == GrantActive
            && !StatusNeverGoesBack(cfg, states, grantID)
  {
    states, events := TwoStoredReached(cfg, private, id, now);
    WentBack(cfg, states, cfg.grantID(id.deviceID, now), 6, now + 60 * SECOND);
  }

  lemma WentBack(cfg: Config, states: seq<World>, grantID: string, k: nat, t: Time)
    requires k + 1 < |states|
    requires StatusSeen(cfg, states[k], states[k], grantID, t) == GrantExpired
    requires StatusSeen(cfg, states[k + 1], states[k + 1], grantID, t) == GrantActive
    ensures !StatusNeverGoesBack(cfg, states, grantID)
  {
    assert !InOrder(cfg, states, grantID, k, k, k + 1, k + 1, t, t);
  }

  lemma StoreBoth(cfg: Config, states: seq<World>, events: seq<TrustRoot.Event>)
    returns (more: seq<World>, moreEvents: seq<TrustRoot.Event>)
    requires TrustRoot.Run(cfg, states, events)
    requires var w := states[|events|]; forall f | f in {0, 1} :: f in w.flights && w.flights[f].Issued?
    ensures TrustRoot.Run(cfg, more, moreEvents) && |moreEvents| == |events| + 2
    ensures var w := states[|events|];
            more[|events| + 1] == Store(w, 0) && more[|events| + 2] == Store(Store(w, 0), 1)
  {
    var once := Store(states[|events|], 0);
    RunExtends(cfg, states, events, Stores(0), once);
    more, moreEvents := states + [once], events + [Stores(0)];
    RunExtends(cfg, more, moreEvents, Stores(1), Store(once, 1));
    more, moreEvents := more + [Store(once, 1)], moreEvents + [Stores(1)];
  }

  /** What verifies was active all along: when a stored grant is accepted, every report on it so far, for any time up to
      then, said active, unless that very grant was revoked by `revokeGrant`, which verification does not consult. */
  lemma VerifiedIsActive(
    cfg: Config, states: seq<World>, events: seq<TrustRoot.Event>, a: nat, b: nat, read: nat, later: nat, g: Grant,
    o: Options, now: Time)
    requires TrustRoot.Run(cfg, states, events) && a <= b <= read <= later <= |events| && now <= o.now
    requires g.grantID in states[a].grants && states[a].grants[g.grantID] == g
    requires Verifies(cfg, states[read], states[later], g, o)
    ensures StatusSeen(cfg, states[a], states[b], g.grantID, now)
         == if g.grantID in states[a].revokedGrants then GrantRevoked else GrantActive
  {
    if g.subject in states[b].devices {
      RecordsAdvance(cfg, states, events, b, read, g.subject);
    }
  }
}
