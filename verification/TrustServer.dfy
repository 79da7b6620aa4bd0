/** The handlers of the Trust Root as methods on its state, each one or more of the critical sections of `TrustRoot`. */
module TrustServer {
  import opened GoStrings
  import opened GoTime
  import opened Handshake
  import opened TrustGrant
  import opened KeyRing
  import opened TrustRoot
  import opened TrustRootStatus
  import opened RevocationFeed

  /** The grant for a request: the policy of its first permission, the clamped time to live, and the signature. */
  method MakeGrant(cfg: Config, record: Record, request: Request, now: Time, key: Key) returns (grant: Option<Grant>)
    ensures grant == IssuedGrant(cfg, Begun(record, request), now, key)
  {
    var permissions := if |request.permissions| > 0 then request.permissions else ["text"];
    var max := MaxTTL(permissions[0]);
    if max == None { return None; }
    var ttl := Wrap64(request.ttlSeconds * SECOND);
    if ttl <= 0 || ttl > max.value { ttl := max.value; }
    var unsigned := Grant(TYPE_GRANT, cfg.grantID(request.deviceID, now), cfg.issuer, request.deviceID, request.audience,
                          Thumbprint(cfg.p, record.identity), permissions, [request.relayID],
                          cfg.clock.text(now - SECOND), cfg.clock.text(now + ttl), record.epoch, NO_SIGNATURE);
    assert unsigned == GrantFor(cfg, record, request, now, max.value);
    grant := SignGrant(cfg.p, key.id, key.private, cfg.issuer, unsigned);
  }

  class Server {
    const cfg: Config
    const ring: Ring
    var devices: map<string, Record>
    var grants: map<string, Grant>
    var revokedGrants: set<string>
    var revocationLog: seq<Revocation>
    ghost var flights: map<nat, Flight>
    ghost var signed: seq<Grant>

    ghost function Contents(): World
      reads this, ring
    {
      World(devices, grants, revokedGrants, revocationLog, ring.keys, flights, signed)
    }

    constructor (cfg: Config, private: string)
      ensures this.cfg == cfg && fresh(ring)
      ensures !Blank(KeyID(cfg.p, private)) ==> Initial(cfg, Contents())
      ensures SoleActive(Contents().keys, KeyID(cfg.p, private))
    {
      this.cfg := cfg;
      var keys := new Ring();
      keys.Add(NewKey(cfg.p, private).(state := Active));
      ring := keys;
      devices, grants, revokedGrants, revocationLog := map[], map[], {}, [];
      flights, signed := map[], [];
      new;
      assert !Blank(KeyID(cfg.p, private)) ==> InitialWith(cfg, Contents(), private);
    }

    /** `submitDevice` once the proof has been verified. */
    method SubmitDevice(id: Identity)
      modifies this
      ensures Contents() == Submit(old(Contents()), id)
    {
      var record := Record(id, Submitted, 1, 0);
      if id.deviceID in devices {
        record := devices[id.deviceID].(identity := id);
      }
      devices := devices[id.deviceID := record];
    }

    method BeginAuthorize(request: Request, ghost flight: nat) returns (record: Option<Record>)
      modifies this
      ensures Contents() == Begin(old(Contents()), flight, request)
      ensures record == if MayBegin(old(Contents()), request) then Some(BegunRecord(old(Contents()), request)) else None
    {
      if request.deviceID !in devices || devices[request.deviceID].status == Banned { return None; }
      var read := devices[request.deviceID];
      read := read.(status := Authorized, version := read.version + 1);
      devices := devices[request.deviceID := read];
      flights := flights[flight := Begun(read, request)];
      return Some(read);
    }

    /** Policy, time to live and signature, outside the lock; without an active key there is no grant. */
    method IssueGrant(record: Record, request: Request, now: Time, ghost flight: nat)
      returns (grant: Option<Grant>, ghost kid: string)
      requires flight in flights && flights[flight] == Begun(record, request)
      modifies this
      ensures if exists id :: IsActive(old(ring.keys), id) then
                && IsActive(old(ring.keys), kid) && Contents() == Sign(cfg, old(Contents()), flight, now, kid)
                && grant == IssuedGrant(cfg, Begun(record, request), now, old(ring.keys)[kid])
              else grant == None && Contents() == old(Contents()).(flights := old(flights) - {flight})
    {
      var active := ring.FindActive();
      if active == None {
        kid := "";
        flights := flights - {flight};
        return None, kid;
      }
      kid :| IsActive(ring.keys, kid) && ring.keys[kid] == active.value;
      grant := MakeGrant(cfg, record, request, now, active.value);
      if grant == None {
        flights := flights - {flight};
      } else {
        flights, signed := flights[flight := Issued(grant.value)], signed + [grant.value];
      }
    }

    method StoreGrant(grant: Grant, ghost flight: nat)
      requires flight in flights && flights[flight] == Issued(grant)
      modifies this
      ensures Contents() == Store(old(Contents()), flight)
    {
      grants := grants[grant.grantID := grant];
      flights := flights - {flight};
    }

    /** `authorizeDevice` with nothing in between: it succeeds exactly for a known device that is not revoked, a permission
        that policy knows, an epoch that can be signed and an active key, and then stores what it signed. */
    method AuthorizeDevice(request: Request, now: Time, ghost flight: nat) returns (grant: Option<Grant>)
      requires flight !in flights
      modifies this
      ensures grant.Some? <==>
                && MayBegin(old(Contents()), request) && MaxTTL(Permissions(request)[0]).Some?
                && old(devices)[request.deviceID].epoch < 0x8000_0000_0000_0000
                && exists id :: IsActive(ring.keys, id)
      ensures grant.Some? ==> grants == old(grants)[grant.value.grantID := grant.value] && signed == old(signed) + [grant.value]
      ensures grant == None ==> grants == old(grants) && signed == old(signed)
      ensures devices == Begin(old(Contents()), flight, request).devices
      ensures flights == old(flights) && revokedGrants == old(revokedGrants) && revocationLog == old(revocationLog)
    {
      var record := BeginAuthorize(request, flight);
      if record == None { return None; }
      grant := FinishAuthorize(record.value, request, now, flight);
    }

    /** The rest of `authorizeDevice` once it has begun. */
    method FinishAuthorize(record: Record, request: Request, now: Time, ghost flight: nat) returns (grant: Option<Grant>)
      requires flight in flights && flights[flight] == Begun(record, request)
      modifies this
      ensures grant.Some? <==>
                && MaxTTL(Permissions(request)[0]).Some? && record.epoch < 0x8000_0000_0000_0000
                && exists id :: IsActive(ring.keys, id)
      ensures grant.Some? ==> grants == old(grants)[grant.value.grantID := grant.value] && signed == old(signed) + [grant.value]
      ensures grant == None ==> grants == old(grants) && signed == old(signed)
      ensures flights == old(flights) - {flight} && devices == old(devices)
      ensures revokedGrants == old(revokedGrants) && revocationLog == old(revocationLog)
    {
      ghost var kid;
      grant, kid := IssueGrant(record, request, now, flight);
      if IsActive(ring.keys, kid) { IssuableIff(cfg, record, request, now, ring.keys[kid]); }
      if grant.Some? { StoreGrant(grant.value, flight); }
    }

    method VerifyGrantRequest(g: Grant, o: Options) returns (ok: bool)
      ensures ok <==> Verifies(cfg, Contents(), Contents(), g, o)
    {
      var epoch := if o.subject in devices then devices[o.subject].epoch else 0;
      if Blank(g.signature.kid) { return false; }
      var key := ring.Get(g.signature.kid);
      if key == None { return false; }
      ok := VerifyGrant(cfg.p, cfg.clock, g, cfg.p.base64(key.value.public), o.(epoch := epoch));
    }

    /** A query for another domain finds nothing. */
    predicate OtherDomain(domainID: string) {
      domainID != "" && domainID != cfg.domainID
    }

    method GrantStatusOf(domainID: string, grantID: string, now: Time) returns (status: GrantStatus)
      ensures status
           == if OtherDomain(domainID) then GrantNotFound else StatusSeen(cfg, Contents(), Contents(), grantID, now)
    {
      if grantID !in grants || OtherDomain(domainID) { return GrantNotFound; }
      var grant, revoked := grants[grantID], grantID in revokedGrants;
      if grant.subject in devices && devices[grant.subject].epoch > grant.epoch { revoked := true; }
      status := GrantActive;
      if revoked {
        status := GrantRevoked;
      } else if !(now < cfg.clock.instant(grant.expiresAt)) {
        status := GrantExpired;
      }
    }

    method RevokeStoredGrant(grantID: string, id: string, reason: string, now: Time) returns (ok: bool)
      modifies this
      ensures ok <==> grantID in old(grants)
      ensures Contents() == RevokeGrant(cfg, old(Contents()), grantID, id, reason, now)
      ensures ok ==> forall at :: StatusSeen(cfg, Contents(), Contents(), grantID, at) == GrantRevoked
      ensures revokedGrants == old(revokedGrants) + (if ok then {grantID} else {}) && grants == old(grants) && devices == old(devices)
      ensures revocationLog == old(revocationLog) + if ok then [Revocation(id, cfg.domainID, "", grantID, reason, now)] else []
    {
      if grantID !in grants { return false; }
      revokedGrants := revokedGrants + {grantID};
      revocationLog := revocationLog + [Revocation(id, cfg.domainID, "", grantID, reason, now)];
      return true;
    }

    method RevokeKnownDevice(deviceID: string, id: string, reason: string, now: Time) returns (ok: bool)
      modifies this
      ensures ok <==> MayRevoke(old(Contents()), deviceID)
      ensures Contents() == RevokeDevice(cfg, old(Contents()), deviceID, id, reason, now)
      ensures ok ==> devices[deviceID].status == Banned && devices[deviceID].epoch == old(devices[deviceID].epoch) + 1
      ensures revocationLog == old(revocationLog) + if ok then [Revocation(id, cfg.domainID, deviceID, "", reason, now)] else []
    {
      if deviceID !in devices || devices[deviceID].identity.deviceID == "" { return false; }
      var record := devices[deviceID];
      record := record.(status := Banned, version := record.version + 1, epoch := record.epoch + 1);
      devices := devices[deviceID := record];
      revocationLog := revocationLog + [Revocation(id, cfg.domainID, deviceID, "", reason, now)];
      return true;
    }

    /** `rotateKeys`: with a new key the rotation always succeeds, and the new key is the only active one. */
    method RotateKeys(private: string) returns (kid: string, ok: bool)
      requires KeyID(cfg.p, private) !in ring.keys
      modifies ring
      ensures ok && kid == KeyID(cfg.p, private)
      ensures ring.keys == Rotated(old(ring.keys)[kid := NewKey(cfg.p, private)], kid)
      ensures SoleActive(ring.keys, kid)
    {
      kid := KeyID(cfg.p, private);
      ring.Add(NewKey(cfg.p, private));
      ok := ring.Rotate(kid);
      assert forall other | IsActive(ring.keys, other) :: other == kid;
    }

    /** `revocations`: a query for another domain sees an empty feed, and a bad limit is refused. */
    method Revocations(domainID: string, limit: LimitParameter, cursor: string) returns (page: Option<Page>)
      ensures OtherDomain(domainID) ==> page == Some(Page([], ""))
      ensures !OtherDomain(domainID) ==>
                page == match Limit(limit) case None => None case Some(n) => Some(PageOf(revocationLog, cursor, n))
      ensures !OtherDomain(domainID) ==>
                && (page.Some? <==> limit.Absent? || (limit.Number? && 1 <= limit.n <= 200))
                && (page.Some? ==> |page.value.items| <= if limit.Absent? then 100 else limit.n)
    {
      if OtherDomain(domainID) { return Some(Page([], "")); }
      var size := Limit(limit);
      if size == None { return None; }
      var found := ListPage(revocationLog, cursor, size.value);
      return Some(found);
    }
  }
}
