/** The Trust Root reference service in its in-memory mode: device records, grants, revocation and signing keys as a
    state machine. A step is one critical section, so that the sections of concurrent requests interleave freely. */
module TrustRoot {
  import opened GoStrings
  import opened GoTime
  import opened Crypto
  import opened Handshake
  import opened TrustGrant
  import opened KeyRing

  const INT64: int := 0x1_0000_0000_0000_0000

  datatype Status = Submitted | Authorized | Banned

  datatype Record = Record(identity: Identity, status: Status, version: nat, epoch: nat)

  datatype Request = Request(
    deviceID: string, audience: string, permissions: seq<string>, relayID: string, ttlSeconds: int)

  /** A request of `authorizeDevice` between its critical sections. */
  datatype Flight = Begun(record: Record, request: Request) | Issued(grant: Grant)

  datatype Revocation = Revocation(
    id: string, domainID: string, deviceID: string, grantID: string, reason: string, effectiveAt: Time)

  /** `signed` is the history of everything the service has signed as a grant. */
  datatype World = World(
    devices: map<string, Record>, grants: map<string, Grant>, revokedGrants: set<string>, log: seq<Revocation>,
    keys: Keys, flights: map<nat, Flight>, signed: seq<Grant>)

  /** What the service is configured with; grant IDs are made from the device and the time. */
  datatype Config = Config(
    p: Provider, clock: Clock, domainID: string, issuer: string, grantID: (string, Time) -> string)

  // ----- policy -----

  function MaxTTL(permission: string): Option<int> {
    if permission == "text" then Some(3600 * SECOND)
    else if permission == "audio.frame" then Some(300 * SECOND)
    else None
  }

  function Wrap64(x: int): int {
    (x + INT64 / 2) % INT64 - INT64 / 2
  }

  function TTL(request: Request, max: int): int {
    var ttl := Wrap64(request.ttlSeconds * SECOND);
    if ttl <= 0 || ttl > max then max else ttl
  }

  function Permissions(request: Request): (r: seq<string>)
    ensures |r| > 0
  {
    if |request.permissions| > 0 then request.permissions else ["text"]
  }

  // ----- critical sections -----

  function Submit(w: World, id: Identity): World {
    var record :=
      if id.deviceID in w.devices then w.devices[id.deviceID].(identity := id) else Record(id, Submitted, 1, 0);
    w.(devices := w.devices[id.deviceID := record])
  }

  predicate MayBegin(w: World, request: Request) {
    request.deviceID in w.devices && !w.devices[request.deviceID].status.Banned?
  }

  function BegunRecord(w: World, request: Request): Record
    requires MayBegin(w, request)
  {
    var record := w.devices[request.deviceID];
    record.(status := Authorized, version := record.version + 1)
  }

  /** The first section of `authorizeDevice`. */
  function Begin(w: World, flight: nat, request: Request): World {
    if MayBegin(w, request) then
      var record := BegunRecord(w, request);
      w.(devices := w.devices[request.deviceID := record], flights := w.flights[flight := Begun(record, request)])
    else w
  }

  /** The grant that is signed, with the record read in the first section. */
  function GrantFor(cfg: Config, record: Record, request: Request, now: Time, max: int): Grant {
    Grant(TYPE_GRANT, cfg.grantID(request.deviceID, now), cfg.issuer, request.deviceID, request.audience,
          Thumbprint(cfg.p, record.identity), Permissions(request), [request.relayID],
          cfg.clock.text(now - SECOND), cfg.clock.text(now + TTL(request, max)), record.epoch, NO_SIGNATURE)
  }

  /** Policy and signature, between the two sections, with an active key. */
  ghost function IssuedGrant(cfg: Config, flight: Flight, now: Time, key: Key): Option<Grant>
    requires flight.Begun?
  {
    var max := MaxTTL(Permissions(flight.request)[0]);
    if max == None then None
    else Signed(cfg.p, key.id, key.private, cfg.issuer, GrantFor(cfg, flight.record, flight.request, now, max.value))
  }

  ghost function Sign(cfg: Config, w: World, flight: nat, now: Time, kid: string): World
    requires flight in w.flights && w.flights[flight].Begun? && IsActive(w.keys, kid)
  {
    Signing(w, flight, IssuedGrant(cfg, w.flights[flight], now, w.keys[kid]))
  }

  ghost function Signing(w: World, flight: nat, issued: Option<Grant>): World {
    match issued
    case None => w.(flights := w.flights - {flight})
    case Some(grant) => w.(flights := w.flights[flight := Issued(grant)], signed := w.signed + [grant])
  }

  /** The second section of `authorizeDevice`. */
  function Store(w: World, flight: nat): World
    requires flight in w.flights && w.flights[flight].Issued?
  {
    var grant := w.flights[flight].grant;
    w.(grants := w.grants[grant.grantID := grant], flights := w.flights - {flight})
  }

  function RevokeGrant(cfg: Config, w: World, grantID: string, id: string, reason: string, now: Time): World {
    if grantID in w.grants then
      w.(revokedGrants := w.revokedGrants + {grantID},
         log := w.log + [Revocation(id, cfg.domainID, "", grantID, reason, now)])
    else w
  }

  predicate MayRevoke(w: World, deviceID: string) {
    deviceID in w.devices && w.devices[deviceID].identity.deviceID != ""
  }

  function RevokeDevice(cfg: Config, w: World, deviceID: string, id: string, reason: string, now: Time): World {
    if MayRevoke(w, deviceID) then
      var record := w.devices[deviceID];
      w.(devices := w.devices[deviceID := record.(status := Banned, version := record.version + 1, epoch := record.epoch + 1)],
         log := w.log + [Revocation(id, cfg.domainID, deviceID, "", reason, now)])
    else w
  }

  /** The ID that `rotateKeys` gives a new key. */
  function KeyID(p: Provider, private: string): string {
    p.base64(p.sha256("iscp/v2/thumbprint/" + "Ed25519" + ['\0'] + p.edPublic(private)))
  }

  function NewKey(p: Provider, private: string): Key {
    Key(KeyID(p, private), Next, private, p.edPublic(private))
  }

  // ----- runs -----

  datatype Event =
    | Submits(identity: Identity)
    | Begins(flight: nat, request: Request)
    | Signs(flight: nat, now: Time, kid: string)
    | Stores(flight: nat)
    | RevokesGrant(grantID: string, id: string, reason: string, now: Time)
    | RevokesDevice(deviceID: string, id: string, reason: string, now: Time)
    | AddsKey(private: string)
    | RotatesTo(kid: string)

  /** Randomness is fresh: key IDs, revocation IDs and flight numbers do not repeat, and key IDs are not blank. */
  ghost predicate Enabled(cfg: Config, w: World, e: Event) {
    match e
    case Submits(_) => true
    case Begins(flight, _) => flight !in w.flights
    case Signs(flight, _, kid) => flight in w.flights && w.flights[flight].Begun? && IsActive(w.keys, kid)
    case Stores(flight) => flight in w.flights && w.flights[flight].Issued?
    case RevokesGrant(_, id, _, _) => FreshID(w.log, id)
    case RevokesDevice(_, id, _, _) => FreshID(w.log, id)
    case AddsKey(private) => KeyID(cfg.p, private) !in w.keys && !Blank(KeyID(cfg.p, private))
    case RotatesTo(_) => true
  }

  ghost predicate FreshID(log: seq<Revocation>, id: string) {
    id != "" && forall r | r in log :: r.id != id
  }

  ghost function After(cfg: Config, w: World, e: Event): World
    requires Enabled(cfg, w, e)
  {
    match e
    case Submits(id) => Submit(w, id)
    case Begins(flight, request) => Begin(w, flight, request)
    case Signs(flight, now, kid) => Sign(cfg, w, flight, now, kid)
    case Stores(flight) => Store(w, flight)
    case RevokesGrant(grantID, id, reason, now) => RevokeGrant(cfg, w, grantID, id, reason, now)
    case RevokesDevice(deviceID, id, reason, now) => RevokeDevice(cfg, w, deviceID, id, reason, now)
    case AddsKey(private) => w.(keys := w.keys[KeyID(cfg.p, private) := NewKey(cfg.p, private)])
    case RotatesTo(kid) => w.(keys := Rotated(w.keys, kid))
  }

  ghost predicate Step(cfg: Config, w: World, e: Event, after: World) {
    Enabled(cfg, w, e) && after == After(cfg, w, e)
  }

  /** A new service has one key, active. */
  ghost predicate Initial(cfg: Config, w: World) {
    exists private :: InitialWith(cfg, w, private)
  }

  ghost predicate InitialWith(cfg: Config, w: World, private: string) {
    && !Blank(KeyID(cfg.p, private))
    && w == World(map[], map[], {}, [], map[KeyID(cfg.p, private) := NewKey(cfg.p, private).(state := Active)], map[], [])
  }

  ghost predicate Run(cfg: Config, states: seq<World>, events: seq<Event>) {
    && |states| == |events| + 1
    && Initial(cfg, states[0])
    && forall i | 0 <= i < |events| :: StepAt(cfg, states, events, i)
  }

  ghost predicate StepAt(cfg: Config, states: seq<World>, events: seq<Event>, i: nat)
    requires i < |events| < |states|
  {
    Step(cfg, states[i], events[i], states[i + 1])
  }

  // ----- verification -----

  function CurrentEpoch(w: World, deviceID: string): nat {
    if deviceID in w.devices then w.devices[deviceID].epoch else 0
  }

  /** `verifyGrant`: the device record is read in one state, the signing key in a later one. */
  ghost predicate Verifies(cfg: Config, read: World, later: World, g: Grant, o: Options) {
    && !Blank(g.signature.kid)
    && var key := Found(later.keys, g.signature.kid);
       && key.Some?
       && GrantAccepted(cfg.p, cfg.clock, g, cfg.p.base64(key.value.public), o.(epoch := CurrentEpoch(read, o.subject)))
  }

  /** The presented signature is no forgery: if it verifies under a key of the ring, the service signed that input with
      that key. */
  ghost predicate Unforged(cfg: Config, w: World, g: Grant) {
    var key := Found(w.keys, g.signature.kid);
    key.Some? && SignatureHolds(cfg.p, cfg.p.base64(key.value.public), GrantInput(g), g.signature.value) ==>
      exists h :: h in w.signed && GrantInput(h) == GrantInput(g)
  }

  // ----- revocation of a device -----

  /** Every epoch the service has handed out for a device, or is about to, is at most the current one, and below it once
      the device is revoked. */
  ghost predicate EpochBelow(w: World, deviceID: string, epoch: nat) {
    && deviceID in w.devices
    && epoch <= w.devices[deviceID].epoch
    && (w.devices[deviceID].status.Banned? ==> epoch < w.devices[deviceID].epoch)
  }

  ghost predicate EpochsBelow(w: World) {
    && (forall f | f in w.flights && w.flights[f].Begun? ::
          EpochBelow(w, w.flights[f].request.deviceID, w.flights[f].record.epoch))
    && (forall g | g in w.signed :: EpochBelow(w, g.subject, g.epoch))
  }

  lemma IssuedGrantIs(cfg: Config, flight: Flight, now: Time, key: Key)
    requires flight.Begun? && IssuedGrant(cfg, flight, now, key).Some?
    ensures MaxTTL(Permissions(flight.request)[0]).Some?
    ensures var g := IssuedGrant(cfg, flight, now, key).value;
            var max := MaxTTL(Permissions(flight.request)[0]).value;
            Unsigned(g) == GrantFor(cfg, flight.record, flight.request, now, max) && g.signature.kid == key.id
  {
  }

  /** A begun request can be signed exactly when policy knows its permission and its epoch is a 64-bit signed integer. */
  lemma IssuableIff(cfg: Config, record: Record, request: Request, now: Time, key: Key)
    ensures IssuedGrant(cfg, Begun(record, request), now, key).Some?
       <==> MaxTTL(Permissions(request)[0]).Some? && record.epoch < 0x8000_0000_0000_0000
  {
    var max := MaxTTL(Permissions(request)[0]);
    if max.Some? {
      GrantInputExists(GrantFor(cfg, record, request, now, max.value).(typ := TYPE_GRANT, issuer := cfg.issuer));
    }
  }

  /** Signing adds a grant for the flight's device with the flight's epoch, or nothing. */
  lemma SignAdds(cfg: Config, w: World, e: Event, after: World)
    requires Step(cfg, w, e, after) && e.Signs?
    ensures after == w.(flights := after.flights, signed := after.signed)
    ensures forall f | f in after.flights && after.flights[f].Begun? :: f in w.flights && w.flights[f] == after.flights[f]
    ensures forall g | g in after.signed ::
              g in w.signed || (g.subject == w.flights[e.flight].request.deviceID && g.epoch == w.flights[e.flight].record.epoch)
  {
    var issued := IssuedGrant(cfg, w.flights[e.flight], e.now, w.keys[e.kid]);
    if issued.Some? {
      IssuedGrantIs(cfg, w.flights[e.flight], e.now, w.keys[e.kid]);
    }
    SigningAdds(w, e.flight, issued);
  }

  lemma SigningAdds(w: World, flight: nat, issued: Option<Grant>)
    requires flight in w.flights && w.flights[flight].Begun?
    requires issued.Some? ==>
               (issued.value.subject == w.flights[flight].request.deviceID && issued.value.epoch == w.flights[flight].record.epoch)
    ensures var after := Signing(w, flight, issued);
            && after == w.(flights := after.flights, signed := after.signed)
            && (forall f | f in after.flights && after.flights[f].Begun? :: f in w.flights && w.flights[f] == after.flights[f])
            && (forall g | g in after.signed ::
                  g in w.signed || (g.subject == w.flights[flight].request.deviceID && g.epoch == w.flights[flight].record.epoch))
  {
  }

  lemma EpochsStayBelow(cfg: Config, w: World, e: Event, after: World)
    requires Step(cfg, w, e, after) && EpochsBelow(w)
    ensures EpochsBelow(after)
  {
    if e.Signs? { SignAdds(cfg, w, e, after); }
  }

  /** From the revocation on: the device stays revoked, and nothing signed or in flight for it reaches the epoch. */
  ghost predicate Expelled(w: World, deviceID: string, epoch: nat) {
    && deviceID in w.devices && w.devices[deviceID].status.Banned? && w.devices[deviceID].epoch >= epoch
    && (forall f | f in w.flights && w.flights[f].Begun? && w.flights[f].request.deviceID == deviceID ::
          w.flights[f].record.epoch < epoch)
    && (forall g | g in w.signed && g.subject == deviceID :: g.epoch < epoch)
  }

  lemma ExpelledStays(cfg: Config, w: World, e: Event, after: World, deviceID: string, epoch: nat)
    requires Step(cfg, w, e, after) && Expelled(w, deviceID, epoch)
    ensures Expelled(after, deviceID, epoch)
  {
    if e.Signs? { SignAdds(cfg, w, e, after); }
  }

  lemma {:induction false} AlwaysBelow(cfg: Config, states: seq<World>, events: seq<Event>, i: nat)
    requires Run(cfg, states, events) && i <= |events|
    ensures EpochsBelow(states[i])
  {
    if i > 0 {
      AlwaysBelow(cfg, states, events, i - 1);
      assert StepAt(cfg, states, events, i - 1);
      EpochsStayBelow(cfg, states[i - 1], events[i - 1], states[i]);
    }
  }

  lemma {:induction false} AlwaysExpelled(
    cfg: Config, states: seq<World>, events: seq<Event>, i: nat, j: nat, deviceID: string, epoch: nat)
    requires Run(cfg, states, events) && i <= j <= |events| && Expelled(states[i], deviceID, epoch)
    ensures Expelled(states[j], deviceID, epoch)
    decreases j
  {
    if i < j {
      AlwaysExpelled(cfg, states, events, i, j - 1, deviceID, epoch);
      assert StepAt(cfg, states, events, j - 1);
      ExpelledStays(cfg, states[j - 1], events[j - 1], states[j], deviceID, epoch);
    }
  }

  lemma RevocationExpels(cfg: Config, w: World, e: Event, after: World)
    requires Step(cfg, w, e, after) && EpochsBelow(w)
    requires e.RevokesDevice? && MayRevoke(w, e.deviceID)
    ensures Expelled(after, e.deviceID, w.devices[e.deviceID].epoch + 1)
  {
  }

  /** Once `revokeDevice` has succeeded, no verification that starts afterwards accepts any grant for the device, ever,
      whatever was in flight and whatever submissions, authorisations and key rotations follow. */
  lemma RevokedDeviceNeverVerifies(
    cfg: Config, states: seq<World>, events: seq<Event>, i: nat, read: nat, later: nat, g: Grant, o: Options)
    requires Run(cfg, states, events) && i < read <= later <= |events|
    requires events[i].RevokesDevice? && MayRevoke(states[i], events[i].deviceID) && o.subject == events[i].deviceID
    requires Unforged(cfg, states[later], g)
    ensures !Verifies(cfg, states[read], states[later], g, o)
  {
    var deviceID, epoch := events[i].deviceID, states[i].devices[events[i].deviceID].epoch + 1;
    AlwaysBelow(cfg, states, events, i);
    assert StepAt(cfg, states, events, i);
    RevocationExpels(cfg, states[i], events[i], states[i + 1]);
    AlwaysExpelled(cfg, states, events, i + 1, read, deviceID, epoch);
    AlwaysExpelled(cfg, states, events, i + 1, later, deviceID, epoch);
    if Verifies(cfg, states[read], states[later], g, o) {
      var h :| h in states[later].signed && GrantInput(h) == GrantInput(g);
      GrantInputBinds(h, g);
      assert false;
    }
  }
}
