/** The state of the Trust Root told from the requests alone: what a device's record, the revoked grants and the revocation log
    hold after any run is a function of the events, and every grant that verifies goes back to an authorisation of its device. */
module TrustRootHistory {
  import opened GoStrings
  import opened GoTime
  import opened Crypto
  import opened Handshake
  import opened TrustGrant
  import opened TrustRoot
  import opened TrustRootGrants
  import opened TrustRootStatus

  type Events = seq<TrustRoot.Event>

  // ----- devices -----

  /** The identity last submitted for a device in the first n events. */
  function Latest(events: Events, n: nat, deviceID: string): Option<Identity>
    requires n <= |events|
  {
    if n == 0 then None
    else if events[n - 1].Submits? && events[n - 1].identity.deviceID == deviceID then Some(events[n - 1].identity)
    else Latest(events, n - 1, deviceID)
  }

  /** How often the device was revoked: it must have been submitted, and have an ID. */
  function TimesRevoked(events: Events, n: nat, deviceID: string): nat
    requires n <= |events|
  {
    if n == 0 then 0
    else TimesRevoked(events, n - 1, deviceID)
         + if events[n - 1].RevokesDevice? && events[n - 1].deviceID == deviceID != "" && Latest(events, n - 1, deviceID).Some?
           then 1 else 0
  }

  /** How often an authorisation of the device began: it must have been submitted and not revoked. */
  function TimesBegun(events: Events, n: nat, deviceID: string): nat
    requires n <= |events|
  {
    if n == 0 then 0
    else TimesBegun(events, n - 1, deviceID)
         + if events[n - 1].Begins? && events[n - 1].request.deviceID == deviceID && Latest(events, n - 1, deviceID).Some?
              && TimesRevoked(events, n - 1, deviceID) == 0
           then 1 else 0
  }

  /** The record is what the events make of it. */
  predicate RecordTold(w: World, events: Events, n: nat, deviceID: string)
    requires n <= |events|
  {
    && (deviceID in w.devices <==> Latest(events, n, deviceID).Some?)
    && (deviceID in w.devices ==>
          var r, revoked, begun := w.devices[deviceID], TimesRevoked(events, n, deviceID), TimesBegun(events, n, deviceID);
          && r.identity == Latest(events, n, deviceID).value && r.identity.deviceID == deviceID
          && r.epoch == revoked && r.version == 1 + begun + revoked
          && r.status == if revoked > 0 then Banned else if begun > 0 then Authorized else Submitted)
  }

  ghost predicate ToldOrUnknown(w: World, events: Events, n: nat, deviceID: string)
    requires n <= |events|
  {
    && RecordTold(w, events, n, deviceID)
    && (deviceID !in w.devices ==> TimesRevoked(events, n, deviceID) == 0 && TimesBegun(events, n, deviceID) == 0)
  }

  lemma SubmitTold(w: World, events: Events, n: nat, deviceID: string)
    requires n < |events| && events[n].Submits? && ToldOrUnknown(w, events, n, deviceID)
    ensures ToldOrUnknown(Submit(w, events[n].identity), events, n + 1, deviceID)
  {
  }

  lemma BeginTold(w: World, events: Events, n: nat, deviceID: string)
    requires n < |events| && events[n].Begins? && ToldOrUnknown(w, events, n, deviceID)
    ensures ToldOrUnknown(Begin(w, events[n].flight, events[n].request), events, n + 1, deviceID)
  {
  }

  lemma RevokeTold(cfg: Config, w: World, events: Events, n: nat, deviceID: string)
    requires n < |events| && events[n].RevokesDevice? && ToldOrUnknown(w, events, n, deviceID)
    ensures var e := events[n];
            ToldOrUnknown(RevokeDevice(cfg, w, e.deviceID, e.id, e.reason, e.now), events, n + 1, deviceID)
  {
  }

  lemma OtherTold(w: World, after: World, events: Events, n: nat, deviceID: string)
    requires n < |events| && !events[n].Submits? && !events[n].Begins? && !events[n].RevokesDevice?
    requires ToldOrUnknown(w, events, n, deviceID) && after.devices == w.devices
    ensures ToldOrUnknown(after, events, n + 1, deviceID)
  {
  }

  lemma RecordStepTold(cfg: Config, w: World, after: World, events: Events, n: nat, deviceID: string)
    requires n < |events| && TrustRoot.Step(cfg, w, events[n], after) && ToldOrUnknown(w, events, n, deviceID)
    ensures ToldOrUnknown(after, events, n + 1, deviceID)
  {
    match events[n]
    case Submits(_) => SubmitTold(w, events, n, deviceID);
    case Begins(_, _) => BeginTold(w, events, n, deviceID);
    case RevokesDevice(_, _, _, _) => RevokeTold(cfg, w, events, n, deviceID);
    case Signs(_, _, _) =>
      SignAdds(cfg, w, events[n], after);
      OtherTold(w, after, events, n, deviceID);
    case _ => OtherTold(w, after, events, n, deviceID);
  }

  /** After any run, a device has a record exactly if it was submitted: with the identity submitted last, revoked exactly if it
      was revoked after a submission, with an epoch that counts the revocations and a version that counts them and the
      authorisations that began before the first. */
  lemma {:induction false} RecordsFollowEvents(cfg: Config, states: seq<World>, events: Events, n: nat, deviceID: string)
    requires TrustRoot.Run(cfg, states, events) && n <= |events|
    ensures ToldOrUnknown(states[n], events, n, deviceID)
  {
    if n > 0 {
      RecordsFollowEvents(cfg, states, events, n - 1, deviceID);
      assert StepAt(cfg, states, events, n - 1);
      RecordStepTold(cfg, states[n - 1], states[n], events, n - 1, deviceID);
    }
  }

  /** An authorisation begins exactly for a device that was submitted and never revoked; a revocation succeeds exactly for one
      that was submitted and has an ID. */
  lemma AdmittedIff(cfg: Config, states: seq<World>, events: Events, n: nat, request: Request)
    requires TrustRoot.Run(cfg, states, events) && n <= |events|
    ensures MayBegin(states[n], request)
       <==> Latest(events, n, request.deviceID).Some? && TimesRevoked(events, n, request.deviceID) == 0
    ensures MayRevoke(states[n], request.deviceID) <==> Latest(events, n, request.deviceID).Some? && request.deviceID != ""
  {
    RecordsFollowEvents(cfg, states, events, n, request.deviceID);
  }

  // ----- revoked grants and the log -----

  /** The event revokes the grant, which is stored. */
  ghost predicate RevokesStored(states: seq<World>, events: Events, i: nat, grantID: string)
    requires |events| < |states|
  {
    i < |events| && events[i].RevokesGrant? && events[i].grantID == grantID && grantID in states[i].grants
  }

  /** Exactly the grants that a request revoked while they were stored are marked revoked. */
  lemma {:induction false} RevokedGrantsIff(cfg: Config, states: seq<World>, events: Events, n: nat, grantID: string)
    requires TrustRoot.Run(cfg, states, events) && n <= |events|
    ensures grantID in states[n].revokedGrants <==> exists i: nat :: i < n && RevokesStored(states, events, i, grantID)
  {
    if n > 0 {
      RevokedGrantsIff(cfg, states, events, n - 1, grantID);
      assert StepAt(cfg, states, events, n - 1);
      if events[n - 1].Signs? { SignAdds(cfg, states[n - 1], events[n - 1], states[n]); }
      if RevokesStored(states, events, n - 1, grantID) {
        assert grantID in states[n].revokedGrants;
      }
    }
  }

  /** Once a stored grant has been revoked, every query that starts afterwards reports it revoked, at whatever time. */
  lemma RevokedGrantReported(
    cfg: Config, states: seq<World>, events: Events, i: nat, c: nat, d: nat, grantID: string, now: Time)
    requires TrustRoot.Run(cfg, states, events) && RevokesStored(states, events, i, grantID) && i < c <= d <= |events|
    ensures StatusSeen(cfg, states[c], states[d], grantID, now) == GrantRevoked
  {
    RevokedGrantsIff(cfg, states, events, i + 1, grantID);
    RevocationsKept(cfg, states, events, i, i + 1, grantID);
    RevokedGrantStaysRevoked(cfg, states, events, i + 1, c, d, grantID, now);
  }

  /** The request revokes a stored grant or a known device, and the entry tells which, why and when. */
  ghost predicate LoggedAt(cfg: Config, states: seq<World>, events: Events, i: nat, r: Revocation)
    requires |events| < |states|
  {
    && i < |events|
    && match events[i]
       case RevokesGrant(grantID, id, reason, now) =>
         grantID in states[i].grants && r == Revocation(id, cfg.domainID, "", grantID, reason, now)
       case RevokesDevice(deviceID, id, reason, now) =>
         deviceID != "" && Latest(events, i, deviceID).Some? && r == Revocation(id, cfg.domainID, deviceID, "", reason, now)
       case _ => false
  }

  /** `at[k]` is the request that the k-th entry records; they are in order, and none that succeeded is missing. */
  ghost predicate LogTold(cfg: Config, states: seq<World>, events: Events, n: nat, log: seq<Revocation>, at: seq<nat>)
    requires n <= |events| < |states|
  {
    && |at| == |log|
    && (forall k, l | 0 <= k < l < |at| :: at[k] < at[l])
    && (forall k | 0 <= k < |at| :: at[k] < n && LoggedAt(cfg, states, events, at[k], log[k]))
    && (forall i: nat, r | i < n && LoggedAt(cfg, states, events, i, r) :: i in at)
  }

  lemma LogStep(cfg: Config, states: seq<World>, events: Events, n: nat)
    requires TrustRoot.Run(cfg, states, events) && n < |events|
    ensures if exists r :: LoggedAt(cfg, states, events, n, r)
            then exists r :: LoggedAt(cfg, states, events, n, r) && states[n + 1].log == states[n].log + [r]
            else states[n + 1].log == states[n].log
  {
    var w, e := states[n], events[n];
    assert StepAt(cfg, states, events, n);
    match e
    case Signs(_, _, _) => SignAdds(cfg, w, e, states[n + 1]);
    case RevokesGrant(grantID, id, reason, now) =>
      if grantID in w.grants {
        assert LoggedAt(cfg, states, events, n, Revocation(id, cfg.domainID, "", grantID, reason, now));
      }
    case RevokesDevice(deviceID, id, reason, now) =>
      RecordsFollowEvents(cfg, states, events, n, deviceID);
      if MayRevoke(w, deviceID) {
        assert LoggedAt(cfg, states, events, n, Revocation(id, cfg.domainID, deviceID, "", reason, now));
      }
    case _ =>
  }

  /** The log has one entry for each revocation that succeeded, in order, with its device or grant, its reason and its time. */
  lemma {:induction false} LogFollowsEvents(cfg: Config, states: seq<World>, events: Events, n: nat) returns (at: seq<nat>)
    requires TrustRoot.Run(cfg, states, events) && n <= |events|
    ensures LogTold(cfg, states, events, n, states[n].log, at)
  {
    if n == 0 {
      at := [];
    } else {
      var m: nat := n - 1;
      at := LogFollowsEvents(cfg, states, events, m);
      LogStep(cfg, states, events, m);
      if exists r :: LoggedAt(cfg, states, events, m, r) {
        at := at + [m];
        LogMore(cfg, states, events, m, at);
      }
    }
  }

  lemma LogMore(cfg: Config, states: seq<World>, events: Events, n: nat, at: seq<nat>)
    requires TrustRoot.Run(cfg, states, events) && n < |events| && at != [] && at[|at| - 1] == n
    requires LogTold(cfg, states, events, n, states[n].log, at[..|at| - 1])
    requires exists r :: LoggedAt(cfg, states, events, n, r)
    ensures LogTold(cfg, states, events, n + 1, states[n + 1].log, at)
  {
    LogStep(cfg, states, events, n);
    var r :| LoggedAt(cfg, states, events, n, r) && states[n + 1].log == states[n].log + [r];
    var before := at[..|at| - 1];
    assert forall k | 0 <= k < |before| :: at[k] == before[k];
    forall i: nat, x | i < n + 1 && LoggedAt(cfg, states, events, i, x) ensures i in at {
      if i < n { assert i in before; }
    }
  }

  // ----- every grant that verifies goes back to an authorisation -----

  /** The authorisation that event b began for its request was signed at event i, with the record as the events had made it. */
  ghost predicate Authorised(cfg: Config, events: Events, b: nat, i: nat, h: Grant) {
    && b < i < |events|
    && events[b].Begins? && events[i].Signs? && events[i].flight == events[b].flight
    && var request, now := events[b].request, events[i].now;
       && Latest(events, b, request.deviceID).Some? && TimesRevoked(events, b, request.deviceID) == 0
       && MaxTTL(Permissions(request)[0]).Some?
       && h.typ == "iscp.trust_grant.v2" && h.grantID == cfg.grantID(request.deviceID, now) && h.issuer == cfg.issuer
       && h.subject == request.deviceID && h.audience == request.audience
       && h.thumbprint == Thumbprint(cfg.p, Latest(events, b, request.deviceID).value)
       && h.permissions == (if request.permissions == [] then ["text"] else request.permissions)
       && h.relays == [request.relayID] && h.epoch == 0
       && h.notBefore == cfg.clock.text(now - 1_000_000_000)
       && h.expiresAt == cfg.clock.text(now + TTL(request, MaxTTL(Permissions(request)[0]).value))
  }

  lemma BegunStep(cfg: Config, w: World, e: TrustRoot.Event, after: World, flight: nat)
    requires TrustRoot.Step(cfg, w, e, after) && flight in after.flights && after.flights[flight].Begun?
    ensures || (flight in w.flights && w.flights[flight] == after.flights[flight])
            || (e.Begins? && e.flight == flight && MayBegin(w, e.request)
                && after.flights[flight] == Begun(BegunRecord(w, e.request), e.request))
  {
    if e.Signs? { SignAdds(cfg, w, e, after); }
  }

  lemma {:induction false} FlightBegan(cfg: Config, states: seq<World>, events: Events, i: nat, flight: nat) returns (b: nat)
    requires TrustRoot.Run(cfg, states, events) && i <= |events| && flight in states[i].flights && states[i].flights[flight].Begun?
    ensures b < i && events[b].Begins? && events[b].flight == flight && MayBegin(states[b], events[b].request)
    ensures states[i].flights[flight] == Begun(BegunRecord(states[b], events[b].request), events[b].request)
  {
    b := i - 1;
    assert StepAt(cfg, states, events, b);
    BegunStep(cfg, states[b], events[b], states[i], flight);
    if flight in states[b].flights && states[b].flights[flight] == states[i].flights[flight] {
      b := FlightBegan(cfg, states, events, b, flight);
    }
  }

  /** Whatever the service signed, it signed for a request of a device that was submitted and not revoked, with what was asked
      for, the key of the identity submitted last, and the window that policy gives. */
  lemma SignedWasAuthorised(cfg: Config, states: seq<World>, events: Events, n: nat, h: Grant) returns (b: nat, i: nat)
    requires TrustRoot.Run(cfg, states, events) && n <= |events| && h in states[n].signed
    ensures i < n && Authorised(cfg, events, b, i, h)
  {
    i := SignedSomewhere(cfg, states, events, n, h);
    var flight := events[i].flight;
    b := FlightBegan(cfg, states, events, i, flight);
    IssuedGrantIs(cfg, states[i].flights[flight], events[i].now, states[i].keys[events[i].kid]);
    AdmittedIff(cfg, states, events, b, events[b].request);
    RecordsFollowEvents(cfg, states, events, b, events[b].request.deviceID);
    AuthorisedBy(cfg, events, b, i, BegunRecord(states[b], events[b].request), h);
  }

  lemma AuthorisedBy(cfg: Config, events: Events, b: nat, i: nat, record: Record, h: Grant)
    requires b < i < |events| && events[b].Begins? && events[i].Signs? && events[i].flight == events[b].flight
    requires Latest(events, b, events[b].request.deviceID) == Some(record.identity) && record.epoch == 0
    requires TimesRevoked(events, b, events[b].request.deviceID) == 0 && MaxTTL(Permissions(events[b].request)[0]).Some?
    requires Unsigned(h) == GrantFor(cfg, record, events[b].request, events[i].now, MaxTTL(Permissions(events[b].request)[0]).value)
    ensures Authorised(cfg, events, b, i, h)
  {
    FieldsOf(h, Unsigned(h));
  }

  lemma FieldsOf(g: Grant, h: Grant)
    requires Unsigned(g) == h
    ensures g.typ == h.typ && g.grantID == h.grantID && g.issuer == h.issuer && g.subject == h.subject && g.audience == h.audience
    ensures g.thumbprint == h.thumbprint && g.permissions == h.permissions && g.relays == h.relays
    ensures g.notBefore == h.notBefore && g.expiresAt == h.expiresAt && g.epoch == h.epoch
  {
    assert Unsigned(g).typ == g.typ && Unsigned(g).grantID == g.grantID && Unsigned(g).issuer == g.issuer;
  }

  /** Every grant that verifies was asked for and authorised: there is a request for the subject, the audience, the permission
      and the relay with which it is presented, of a device that was submitted with the presented key and not revoked, not even
      by the time its record is read, and the presentation lies in the window of its signing. */
  lemma VerifiedWasAuthorised(
    cfg: Config, states: seq<World>, events: Events, read: nat, later: nat, g: Grant, o: Options) returns (b: nat, i: nat)
    requires TrustRoot.Run(cfg, states, events) && Faithful(cfg.clock) && read <= later <= |events|
    requires TrustRoot.Unforged(cfg, states[later], g) && Verifies(cfg, states[read], states[later], g, o)
    ensures i < later && Authorised(cfg, events, b, i, g)
    ensures events[b].request.deviceID == o.subject && events[b].request.audience == o.audience
    ensures events[b].request.relayID == o.relayID && o.permission in g.permissions
    ensures Thumbprint(cfg.p, Latest(events, b, o.subject).value) == o.thumbprint
    ensures TimesRevoked(events, read, o.subject) == 0
    ensures var ttl := TTL(events[b].request, MaxTTL(Permissions(events[b].request)[0]).value);
            events[i].now - 1_000_000_000 <= o.now < events[i].now + ttl
  {
    var h :| h in states[later].signed && GrantInput(h) == GrantInput(g);
    GrantInputBinds(h, g);
    b, i := SignedWasAuthorised(cfg, states, events, later, h);
    AuthorisedAlike(cfg, events, b, i, h, g);
    RecordsFollowEvents(cfg, states, events, read, o.subject);
    BoundAsAuthorised(cfg, events, b, i, g, o.(epoch := CurrentEpoch(states[read], o.subject)));
  }

  lemma AuthorisedAlike(cfg: Config, events: Events, b: nat, i: nat, h: Grant, g: Grant)
    requires Authorised(cfg, events, b, i, h) && Unsigned(g) == Unsigned(h)
    ensures Authorised(cfg, events, b, i, g)
  {
    FieldsOf(h, Unsigned(h));
    FieldsOf(g, Unsigned(h));
  }

  lemma BoundAsAuthorised(cfg: Config, events: Events, b: nat, i: nat, g: Grant, o: Options)
    requires Faithful(cfg.clock) && Authorised(cfg, events, b, i, g) && Bound(cfg.clock, g, o)
    ensures events[b].request.deviceID == o.subject && events[b].request.audience == o.audience
    ensures events[b].request.relayID == o.relayID && o.permission in g.permissions && o.epoch == 0
    ensures Thumbprint(cfg.p, Latest(events, b, o.subject).value) == o.thumbprint
    ensures var ttl := TTL(events[b].request, MaxTTL(Permissions(events[b].request)[0]).value);
            events[i].now - 1_000_000_000 <= o.now < events[i].now + ttl
  {
    var now, ttl := events[i].now, TTL(events[b].request, MaxTTL(Permissions(events[b].request)[0]).value);
    assert cfg.clock.instant(cfg.clock.text(now - SECOND)) == now - SECOND;
    assert cfg.clock.instant(cfg.clock.text(now + ttl)) == now + ttl;
  }

  // ----- the status of an issued grant -----

  lemma IssuedStep(cfg: Config, w: World, e: TrustRoot.Event, after: World, flight: nat, g: Grant)
    requires TrustRoot.Step(cfg, w, e, after) && flight in w.flights && w.flights[flight] == Issued(g)
    requires !(e.Stores? && e.flight == flight)
    ensures flight in after.flights && after.flights[flight] == Issued(g)
  {
  }

  lemma {:induction false} IssuedWaits(
    cfg: Config, states: seq<World>, events: Events, i: nat, s: nat, flight: nat, g: Grant)
    requires TrustRoot.Run(cfg, states, events) && i <= s <= |events|
    requires flight in states[i].flights && states[i].flights[flight] == Issued(g)
    requires forall k | i <= k < s :: !(events[k].Stores? && events[k].flight == flight)
    ensures flight in states[s].flights && states[s].flights[flight] == Issued(g)
    decreases s
  {
    if i < s {
      IssuedWaits(cfg, states, events, i, s - 1, flight, g);
      assert StepAt(cfg, states, events, s - 1);
      IssuedStep(cfg, states[s - 1], events[s - 1], states[s], flight, g);
    }
  }

  /** The grant signed at i is stored at s. */
  ghost predicate StoredAt(events: Events, i: nat, s: nat) {
    && i < s < |events| && events[i].Signs? && events[s].Stores? && events[s].flight == events[i].flight
    && forall k | i < k < s :: !(events[k].Stores? && events[k].flight == events[i].flight)
  }

  /** The second section of an authorisation stores the grant that was signed, under its ID. */
  lemma StoredIsIssued(cfg: Config, states: seq<World>, events: Events, b: nat, i: nat, s: nat, g: Grant)
    requires TrustRoot.Run(cfg, states, events) && IssuedAt(states, events, b, i, g) && StoredAt(events, i, s)
    ensures g.grantID in states[s + 1].grants && states[s + 1].grants[g.grantID] == g
  {
    IssuedWaits(cfg, states, events, i + 1, s, events[i].flight, g);
    assert StepAt(cfg, states, events, s);
  }

  /** What is reported for a grant from its storing on, unless another takes its place: revoked exactly if it was revoked by its
      ID or its device was ever revoked, otherwise expired exactly from the end of its window on. */
  lemma IssuedStatusIs(
    cfg: Config, states: seq<World>, events: Events, b: nat, i: nat, s: nat, c: nat, d: nat, g: Grant, now: Time)
    requires TrustRoot.Run(cfg, states, events) && Faithful(cfg.clock)
    requires IssuedAt(states, events, b, i, g) && StoredAt(events, i, s) && s < c <= d <= |events|
    requires forall k | s < k < c :: !Replaces(states[k], events[k], g.grantID, g)
    ensures MaxTTL(Permissions(events[b].request)[0]).Some?
    ensures var ttl := TTL(events[b].request, MaxTTL(Permissions(events[b].request)[0]).value);
            StatusSeen(cfg, states[c], states[d], g.grantID, now)
            == if (exists k: nat :: k < c && RevokesStored(states, events, k, g.grantID))
                  || TimesRevoked(events, d, events[b].request.deviceID) > 0
               then GrantRevoked
               else if now >= events[i].now + ttl then GrantExpired else GrantActive
  {
    KeptSinceStored(cfg, states, events, b, i, s, c, g);
    IssuedFacts(cfg, states, events, b, i, g);
    StatusFromEvents(cfg, states, events, c, d, g, now);
  }

  lemma KeptSinceStored(cfg: Config, states: seq<World>, events: Events, b: nat, i: nat, s: nat, c: nat, g: Grant)
    requires TrustRoot.Run(cfg, states, events) && IssuedAt(states, events, b, i, g) && StoredAt(events, i, s) && s < c <= |events|
    requires forall k | s < k < c :: !Replaces(states[k], events[k], g.grantID, g)
    ensures g.grantID in states[c].grants && states[c].grants[g.grantID] == g
  {
    StoredIsIssued(cfg, states, events, b, i, s, g);
    GrantsKept(cfg, states, events, s + 1, c, g.grantID);
  }

  lemma StatusFromEvents(cfg: Config, states: seq<World>, events: Events, c: nat, d: nat, g: Grant, now: Time)
    requires TrustRoot.Run(cfg, states, events) && c <= d <= |events| && g.epoch == 0
    requires g.grantID in states[c].grants && states[c].grants[g.grantID] == g
    ensures StatusSeen(cfg, states[c], states[d], g.grantID, now)
         == if (exists k: nat :: k < c && RevokesStored(states, events, k, g.grantID)) || TimesRevoked(events, d, g.subject) > 0
            then GrantRevoked
            else if now >= cfg.clock.instant(g.expiresAt) then GrantExpired else GrantActive
  {
    RevokedGrantsIff(cfg, states, events, c, g.grantID);
    RecordsFollowEvents(cfg, states, events, d, g.subject);
  }

  lemma IssuedFacts(cfg: Config, states: seq<World>, events: Events, b: nat, i: nat, g: Grant)
    requires TrustRoot.Run(cfg, states, events) && Faithful(cfg.clock) && IssuedAt(states, events, b, i, g)
    ensures MaxTTL(Permissions(events[b].request)[0]).Some?
    ensures g.subject == events[b].request.deviceID && g.epoch == 0
    ensures cfg.clock.instant(g.expiresAt) == events[i].now + TTL(events[b].request, MaxTTL(Permissions(events[b].request)[0]).value)
  {
    var request := events[b].request;
    IssuedFrom(cfg, states, events, b, i, g);
    IssuedGrantIs(cfg, Begun(BegunRecord(states[b], request), request), events[i].now, states[i].keys[events[i].kid]);
    FieldsOf(g, Unsigned(g));
    AdmittedIff(cfg, states, events, b, request);
    RecordsFollowEvents(cfg, states, events, b, request.deviceID);
    var until := events[i].now + TTL(request, MaxTTL(Permissions(request)[0]).value);
    assert cfg.clock.instant(cfg.clock.text(until)) == until;
  }

  /** The ID of a signing key is the thumbprint of its public key. */
  lemma KeyIDIsThumbprint(p: Provider, private: string, id: Identity)
    requires Correct(p) && id.publicKey.kty == "Ed25519" && id.publicKey.public == p.base64(p.edPublic(private))
    ensures KeyID(p, private) == Thumbprint(p, id)
  {
    assert p.unbase64(p.base64(p.edPublic(private))) == Some(p.edPublic(private));
  }

  // ----- how long a grant lasts -----

  /** The most that policy allows: an hour for text, five minutes for audio frames, and it knows no other permission. */
  function Longest(permission: string): Option<int> {
    if permission == "text" then Some(3_600_000_000_000)
    else if permission == "audio.frame" then Some(300_000_000_000)
    else None
  }

  /** A request is for its first permission, or for text. Policy must know that permission, and the grant then lasts as long as was
      asked for, as the 64-bit number of nanoseconds that comes to, if that is positive and no more than policy allows, and
      otherwise as long as policy allows. */
  lemma LifetimeIs(request: Request, wraps: int, asked: int)
    requires asked == request.ttlSeconds * 1_000_000_000 + wraps * 0x1_0000_0000_0000_0000
    requires -0x8000_0000_0000_0000 <= asked < 0x8000_0000_0000_0000
    ensures var longest := Longest(if request.permissions == [] then "text" else request.permissions[0]);
            var max := MaxTTL(Permissions(request)[0]);
            && (max.Some? <==> longest.Some?)
            && (max.Some? ==> TTL(request, max.value) == if 0 < asked <= longest.value then asked else longest.value)
  {
    WrapUnique(request.ttlSeconds * 1_000_000_000, asked, wraps);
  }

  lemma WrapUnique(x: int, y: int, wraps: int)
    requires y == x + wraps * 0x1_0000_0000_0000_0000 && -0x8000_0000_0000_0000 <= y < 0x8000_0000_0000_0000
    ensures Wrap64(x) == y
  {
    var z := y + 0x8000_0000_0000_0000;
    assert x + 0x8000_0000_0000_0000 == (-wraps) * 0x1_0000_0000_0000_0000 + z;
    assert (x + 0x8000_0000_0000_0000) % 0x1_0000_0000_0000_0000 == z;
  }
}
