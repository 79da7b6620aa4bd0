/** What a grant is worth over the runs of the Trust Root: its signing key, its device's record and when it verifies. */
module TrustRootGrants {
  import opened GoStrings
  import opened GoTime
  import opened Crypto
  import opened Handshake
  import opened TrustGrant
  import opened KeyRing
  import opened TrustRoot

  // ----- keys -----

  /** Every key of the ring is a key pair under its own ID, is not revoked, and exactly one is active. */
  ghost predicate KeysSound(cfg: Config, keys: Keys) {
    KeyPairs(cfg, keys) && exists id :: SoleActive(keys, id)
  }

  ghost predicate KeyPairs(cfg: Config, keys: Keys) {
    forall id | id in keys ::
      && keys[id].id == id && !Blank(id) && !keys[id].state.Revoked?
      && keys[id].public == cfg.p.edPublic(keys[id].private)
  }

  /** What a step does to the ring is a step of the ring, or nothing. */
  lemma KeysStep(cfg: Config, w: World, e: TrustRoot.Event, after: World)
    requires TrustRoot.Step(cfg, w, e, after)
    ensures w.keys == after.keys || exists k :: KeyRing.Step(w.keys, k, after.keys)
  {
    match e
    case AddsKey(private) => assert KeyRing.Step(w.keys, AddKey(NewKey(cfg.p, private)), after.keys);
    case RotatesTo(kid) => assert KeyRing.Step(w.keys, Rotate(kid), after.keys);
    case _ =>
  }

  lemma KeysStaySound(cfg: Config, w: World, e: TrustRoot.Event, after: World)
    requires TrustRoot.Step(cfg, w, e, after) && KeysSound(cfg, w.keys)
    ensures KeysSound(cfg, after.keys)
  {
    KeysStep(cfg, w, e, after);
    if w.keys != after.keys {
      var k :| KeyRing.Step(w.keys, k, after.keys);
      var id :| SoleActive(w.keys, id);
      StepSoleActive(w.keys, k, after.keys, id);
      assert KeyPairs(cfg, after.keys) by { PairsStay(cfg, w, e, after); }
    }
  }

  lemma PairsStay(cfg: Config, w: World, e: TrustRoot.Event, after: World)
    requires TrustRoot.Step(cfg, w, e, after) && KeyPairs(cfg, w.keys)
    ensures KeyPairs(cfg, after.keys)
  {
  }

  lemma {:induction false} AlwaysSound(cfg: Config, states: seq<World>, events: seq<TrustRoot.Event>, i: nat)
    requires TrustRoot.Run(cfg, states, events) && i <= |events|
    ensures KeysSound(cfg, states[i].keys)
  {
    if i > 0 {
      AlwaysSound(cfg, states, events, i - 1);
      assert StepAt(cfg, states, events, i - 1);
      KeysStaySound(cfg, states[i - 1], events[i - 1], states[i]);
    } else {
      var private :| InitialWith(cfg, states[0], private);
      assert SoleActive(states[0].keys, KeyID(cfg.p, private));
    }
  }

  /** Keys are never lost: through any rotations, a key stays under its ID with the same key pair. */
  lemma {:induction false} KeysPersist(
    cfg: Config, states: seq<World>, events: seq<TrustRoot.Event>, i: nat, j: nat, id: string)
    requires TrustRoot.Run(cfg, states, events) && i <= j <= |events| && id in states[i].keys
    ensures id in states[j].keys && states[j].keys[id].private == states[i].keys[id].private
    ensures Found(states[j].keys, id).Some?
    decreases j
  {
    AlwaysSound(cfg, states, events, j);
    if i < j {
      KeysPersist(cfg, states, events, i, j - 1, id);
      assert StepAt(cfg, states, events, j - 1);
      KeysStep(cfg, states[j - 1], events[j - 1], states[j]);
      if states[j - 1].keys != states[j].keys {
        var k :| KeyRing.Step(states[j - 1].keys, k, states[j].keys);
        StepLater(states[j - 1].keys, k, states[j].keys, id);
      }
    }
  }

  // ----- records -----

  predicate Revokes(w: World, e: TrustRoot.Event, deviceID: string) {
    e.RevokesDevice? && e.deviceID == deviceID && MayRevoke(w, deviceID)
  }

  /** The number of successful revocations of a device from state i to state j. */
  ghost function Revocations(states: seq<World>, events: seq<TrustRoot.Event>, i: nat, j: nat, deviceID: string): nat
    requires i <= j <= |events| < |states|
    decreases j
  {
    if i == j then 0
    else Revocations(states, events, i, j - 1, deviceID) + if Revokes(states[j - 1], events[j - 1], deviceID) then 1 else 0
  }

  lemma RecordStep(cfg: Config, w: World, e: TrustRoot.Event, after: World, deviceID: string)
    requires TrustRoot.Step(cfg, w, e, after) && deviceID in w.devices
    ensures deviceID in after.devices
    ensures after.devices[deviceID].epoch == w.devices[deviceID].epoch + if Revokes(w, e, deviceID) then 1 else 0
    ensures after.devices[deviceID].version >= w.devices[deviceID].version
    ensures w.devices[deviceID].status.Banned? ==> after.devices[deviceID].status.Banned?
  {
  }

  /** Records are never lost, versions and epochs never decrease, a revoked device stays revoked, and the epoch counts
      the device's revocations exactly. */
  lemma {:induction false} RecordsAdvance(
    cfg: Config, states: seq<World>, events: seq<TrustRoot.Event>, i: nat, j: nat, deviceID: string)
    requires TrustRoot.Run(cfg, states, events) && i <= j <= |events| && deviceID in states[i].devices
    ensures deviceID in states[j].devices
    ensures states[j].devices[deviceID].epoch
         == states[i].devices[deviceID].epoch + Revocations(states, events, i, j, deviceID)
    ensures states[j].devices[deviceID].version >= states[i].devices[deviceID].version
    ensures states[i].devices[deviceID].status.Banned? ==> states[j].devices[deviceID].status.Banned?
    decreases j
  {
    if i < j {
      RecordsAdvance(cfg, states, events, i, j - 1, deviceID);
      assert StepAt(cfg, states, events, j - 1);
      RecordStep(cfg, states[j - 1], events[j - 1], states[j], deviceID);
    }
  }

  // ----- an issued grant -----

  /** The options with which the holder of a grant for a request presents it. */
  function OwnOptions(cfg: Config, record: Record, request: Request, permission: string, now: Time): Options {
    Options(request.audience, request.deviceID, Thumbprint(cfg.p, record.identity), permission, request.relayID, 0, now)
  }

  lemma {:induction false} FlightWaits(
    cfg: Config, states: seq<World>, events: seq<TrustRoot.Event>, b: nat, i: nat, flight: nat)
    requires TrustRoot.Run(cfg, states, events) && b < i <= |events|
    requires events[b].Begins? && events[b].flight == flight && MayBegin(states[b], events[b].request)
    requires forall k | b < k < i :: !(events[k].Signs? && events[k].flight == flight)
    ensures flight in states[i].flights
         && states[i].flights[flight] == Begun(BegunRecord(states[b], events[b].request), events[b].request)
    decreases i
  {
    if i > b + 1 {
      FlightWaits(cfg, states, events, b, i - 1, flight);
      assert StepAt(cfg, states, events, i - 1);
      FlightStep(cfg, states[i - 1], events[i - 1], states[i], flight);
    } else {
      assert StepAt(cfg, states, events, b);
    }
  }

  lemma FlightStep(cfg: Config, w: World, e: TrustRoot.Event, after: World, flight: nat)
    requires TrustRoot.Step(cfg, w, e, after) && flight in w.flights && w.flights[flight].Begun?
    requires !(e.Signs? && e.flight == flight)
    ensures flight in after.flights && after.flights[flight] == w.flights[flight]
  {
  }

  /** The conditions of a grant other than its signature come down to its window and its epoch. */
  lemma OwnBound(cfg: Config, record: Record, request: Request, signedAt: Time, max: int, g: Grant, permission: string,
                 now: Time, epoch: nat)
    requires Faithful(cfg.clock) && Unsigned(g) == GrantFor(cfg, record, request, signedAt, max)
    requires permission in Permissions(request)
    ensures Bound(cfg.clock, g, OwnOptions(cfg, record, request, permission, now).(epoch := epoch))
       <==> signedAt - SECOND <= now < signedAt + TTL(request, max) && epoch <= record.epoch
  {
    assert cfg.clock.instant(cfg.clock.text(signedAt - SECOND)) == signedAt - SECOND;
    assert cfg.clock.instant(cfg.clock.text(signedAt + TTL(request, max))) == signedAt + TTL(request, max);
    assert g.epoch == Unsigned(g).epoch && g.subject == Unsigned(g).subject && g.audience == Unsigned(g).audience
        && g.thumbprint == Unsigned(g).thumbprint;
    assert g.permissions == Unsigned(g).permissions && g.relays == Unsigned(g).relays && g.typ == Unsigned(g).typ
        && g.notBefore == Unsigned(g).notBefore && g.expiresAt == Unsigned(g).expiresAt;
  }

  lemma OwnSignature(cfg: Config, flight: Flight, signedAt: Time, key: Key, g: Grant, o: Options)
    requires Correct(cfg.p) && flight.Begun? && IssuedGrant(cfg, flight, signedAt, key) == Some(g)
    ensures GrantAccepted(cfg.p, cfg.clock, g, cfg.p.base64(cfg.p.edPublic(key.private)), o) <==> Bound(cfg.clock, g, o)
  {
    var max := MaxTTL(Permissions(flight.request)[0]);
    SignedGrantAcceptedIff(cfg.p, cfg.clock, key.id, key.private, cfg.issuer,
                           GrantFor(cfg, flight.record, flight.request, signedAt, max.value), g, o);
  }

  lemma KeyKept(cfg: Config, states: seq<World>, events: seq<TrustRoot.Event>, i: nat, later: nat, kid: string)
    requires TrustRoot.Run(cfg, states, events) && i <= later <= |events| && IsActive(states[i].keys, kid)
    ensures states[i].keys[kid].id == kid && !Blank(kid)
    ensures Found(states[later].keys, kid).Some?
         && Found(states[later].keys, kid).value.public == cfg.p.edPublic(states[i].keys[kid].private)
  {
    AlwaysSound(cfg, states, events, i);
    AlwaysSound(cfg, states, events, later);
    KeysPersist(cfg, states, events, i, later, kid);
  }

  /** An `authorizeDevice` request that began at b was signed at i, with grant g. */
  ghost predicate IssuedAt(states: seq<World>, events: seq<TrustRoot.Event>, b: nat, i: nat, g: Grant)
    requires |states| == |events| + 1
  {
    && b < i < |events|
    && events[b].Begins? && MayBegin(states[b], events[b].request)
    && events[i].Signs? && events[i].flight == events[b].flight
    && (forall k | b < k < i :: !(events[k].Signs? && events[k].flight == events[b].flight))
    && events[i].flight in states[i + 1].flights && states[i + 1].flights[events[i].flight] == Issued(g)
  }

  lemma IssuedFrom(cfg: Config, states: seq<World>, events: seq<TrustRoot.Event>, b: nat, i: nat, g: Grant)
    requires TrustRoot.Run(cfg, states, events) && IssuedAt(states, events, b, i, g)
    ensures IsActive(states[i].keys, events[i].kid)
    ensures IssuedGrant(cfg, Begun(BegunRecord(states[b], events[b].request), events[b].request), events[i].now,
                        states[i].keys[events[i].kid]) == Some(g)
  {
    FlightWaits(cfg, states, events, b, i, events[b].flight);
    assert StepAt(cfg, states, events, i);
  }

  lemma OwnVerifiesIff(
    cfg: Config, record: Record, request: Request, signedAt: Time, key: Key, g: Grant, permission: string, now: Time,
    read: World, later: World)
    requires Correct(cfg.p) && Faithful(cfg.clock)
    requires IssuedGrant(cfg, Begun(record, request), signedAt, key) == Some(g) && permission in Permissions(request)
    requires !Blank(key.id) && Found(later.keys, key.id).Some?
    requires Found(later.keys, key.id).value.public == cfg.p.edPublic(key.private)
    ensures MaxTTL(Permissions(request)[0]).Some?
    ensures var ttl := TTL(request, MaxTTL(Permissions(request)[0]).value);
            (Verifies(cfg, read, later, g, OwnOptions(cfg, record, request, permission, now))
             <==> signedAt - SECOND <= now < signedAt + ttl && CurrentEpoch(read, request.deviceID) <= record.epoch)
  {
    IssuedGrantIs(cfg, Begun(record, request), signedAt, key);
    var epoch := CurrentEpoch(read, request.deviceID);
    var o := OwnOptions(cfg, record, request, permission, now).(epoch := epoch);
    OwnBound(cfg, record, request, signedAt, MaxTTL(Permissions(request)[0]).value, g, permission, now, epoch);
    OwnSignature(cfg, Begun(record, request), signedAt, key, g, o);
  }

  /** A grant that `authorizeDevice` issued and that its holder presents with its own bindings verifies exactly inside its
      window and while the device has not been revoked since the request began, however the ring has rotated in the
      meantime. */
  lemma IssuedGrantVerifiesIff(
    cfg: Config, states: seq<World>, events: seq<TrustRoot.Event>, b: nat, i: nat, read: nat, later: nat,
    g: Grant, permission: string, now: Time)
    requires TrustRoot.Run(cfg, states, events) && Correct(cfg.p) && Faithful(cfg.clock)
    requires IssuedAt(states, events, b, i, g) && i < read <= later <= |events|
    requires permission in Permissions(events[b].request)
    ensures MaxTTL(Permissions(events[b].request)[0]).Some?
    ensures var request, signedAt := events[b].request, events[i].now;
            var record := BegunRecord(states[b], request);
            var ttl := TTL(request, MaxTTL(Permissions(request)[0]).value);
            (Verifies(cfg, states[read], states[later], g, OwnOptions(cfg, record, request, permission, now))
             <==> signedAt - SECOND <= now < signedAt + ttl && Revocations(states, events, b, read, request.deviceID) == 0)
  {
    var request, kid := events[b].request, events[i].kid;
    IssuedFrom(cfg, states, events, b, i, g);
    KeyKept(cfg, states, events, i, later, kid);
    OwnVerifiesIff(cfg, BegunRecord(states[b], request), request, events[i].now, states[i].keys[kid], g, permission, now,
                   states[read], states[later]);
    RecordsAdvance(cfg, states, events, b, read, request.deviceID);
  }

  // ----- policy -----

  /** The grant lasts no longer after its signing than policy allows for its first permission. */
  ghost predicate WithinPolicy(cfg: Config, g: Grant) {
    && g.issuer == cfg.issuer
    && g.permissions != [] && MaxTTL(g.permissions[0]).Some?
    && 0 < cfg.clock.instant(g.expiresAt) - cfg.clock.instant(g.notBefore) - SECOND <= MaxTTL(g.permissions[0]).value
  }

  lemma IssuedWithinPolicy(cfg: Config, flight: Flight, now: Time, key: Key)
    requires Faithful(cfg.clock) && flight.Begun? && IssuedGrant(cfg, flight, now, key).Some?
    ensures WithinPolicy(cfg, IssuedGrant(cfg, flight, now, key).value)
  {
    IssuedGrantIs(cfg, flight, now, key);
    var request := flight.request;
    var ttl := TTL(request, MaxTTL(Permissions(request)[0]).value);
    assert cfg.clock.instant(cfg.clock.text(now - SECOND)) == now - SECOND;
    assert cfg.clock.instant(cfg.clock.text(now + ttl)) == now + ttl;
  }

  lemma {:induction false} SignedWithinPolicy(
    cfg: Config, states: seq<World>, events: seq<TrustRoot.Event>, i: nat, g: Grant)
    requires TrustRoot.Run(cfg, states, events) && Faithful(cfg.clock) && i <= |events| && g in states[i].signed
    ensures WithinPolicy(cfg, g)
  {
    if i > 0 {
      var w, e := states[i - 1], events[i - 1];
      assert StepAt(cfg, states, events, i - 1);
      if g in w.signed {
        SignedWithinPolicy(cfg, states, events, i - 1, g);
      } else {
        IssuedWithinPolicy(cfg, w.flights[e.flight], e.now, w.keys[e.kid]);
      }
    }
  }

  /** No grant outlives policy: whatever verifies, its permissions start with one that policy knows, and its window is no
      longer than policy allows, even for time-to-live requests that overflow. */
  lemma VerifiedWithinPolicy(
    cfg: Config, states: seq<World>, events: seq<TrustRoot.Event>, read: nat, later: nat, g: Grant, o: Options)
    requires TrustRoot.Run(cfg, states, events) && Faithful(cfg.clock) && read <= later <= |events|
    requires Unforged(cfg, states[later], g) && Verifies(cfg, states[read], states[later], g, o)
    ensures WithinPolicy(cfg, g)
  {
    var h :| h in states[later].signed && GrantInput(h) == GrantInput(g);
    GrantInputBinds(h, g);
    SignedWithinPolicy(cfg, states, events, later, h);
    assert Unsigned(g).expiresAt == Unsigned(h).expiresAt && Unsigned(g).notBefore == Unsigned(h).notBefore;
    assert Unsigned(g).permissions == Unsigned(h).permissions && Unsigned(g).issuer == Unsigned(h).issuer;
  }
}
