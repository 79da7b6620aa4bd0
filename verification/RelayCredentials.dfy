/** The access and refresh credentials of the relay reference service, in its in-memory mode. Each handler is one step here;
    `RelaySections` takes them apart. */
module RelayCredentials {
  import opened GoStrings
  import opened GoTime
  import opened Handshake

  const ACCESS_TTL: int := 15 * 60 * SECOND
  const REFRESH_TTL: int := 24 * 60 * 60 * SECOND

  datatype Credential = Credential(domainID: string, deviceID: string, token: string, expiresAt: Time, revoked: bool)

  /** Credentials under the hash of their token. */
  type Credentials = map<string, Credential>

  datatype Relay = Relay(
    access: Credentials, refresh: Credentials, revoked: set<string>, devices: map<string, Identity>)

  type Hash = string -> string

  // ----- the handlers on values -----

  function Issue(h: Hash, w: Relay, domainID: string, deviceID: string, a: string, r: string, now: Time): Relay {
    w.(access := w.access[h(a) := Credential(domainID, deviceID, a, now + ACCESS_TTL, false)],
       refresh := w.refresh[h(r) := Credential(domainID, deviceID, r, now + REFRESH_TTL, false)])
  }

  function Bind(h: Hash, w: Relay, id: Identity, a: string, r: string, now: Time): Relay {
    Issue(h, w, id.domainID, id.deviceID, a, r, now).(devices := w.devices[id.deviceID := id])
  }

  predicate RefreshValid(h: Hash, w: Relay, token: string, now: Time) {
    h(token) in w.refresh && !w.refresh[h(token)].revoked && !(now > w.refresh[h(token)].expiresAt)
  }

  /** `refreshAccess`: the token is spent and a new pair issued for its device. */
  function Refresh(h: Hash, w: Relay, token: string, a: string, r: string, now: Time): Relay {
    if RefreshValid(h, w, token, now) then
      var c := w.refresh[h(token)];
      Issue(h, w.(refresh := w.refresh[h(token) := c.(revoked := true)]), c.domainID, c.deviceID, a, r, now)
    else w
  }

  /** An access credential presented after its expiry is marked revoked. */
  function Lapse(h: Hash, w: Relay, token: string, now: Time): Relay {
    if token != "" && h(token) in w.access && !w.access[h(token)].revoked && now > w.access[h(token)].expiresAt then
      w.(access := w.access[h(token) := w.access[h(token)].(revoked := true)])
    else w
  }

  /** `authenticateAccess`; `proved` is the outcome of the proof of possession where the profile asks for one. */
  predicate AccessValid(h: Hash, w: Relay, token: string, now: Time, proved: bool) {
    && token != "" && h(token) in w.access
    && !w.access[h(token)].revoked && now < w.access[h(token)].expiresAt
    && proved
  }

  function RevokeAll(cs: Credentials, deviceID: string): Credentials {
    map k | k in cs :: if cs[k].deviceID == deviceID then cs[k].(revoked := true) else cs[k]
  }

  /** A device may revoke itself; an administrator, any device, unless with another device's valid credential. */
  predicate MayRevoke(h: Hash, w: Relay, token: string, now: Time, proved: bool, admin: bool, deviceID: string) {
    if AccessValid(h, w, token, now, proved) then w.access[h(token)].deviceID == deviceID else admin
  }

  function Revoke(h: Hash, w: Relay, token: string, now: Time, proved: bool, admin: bool, deviceID: string): Relay {
    var lapsed := Lapse(h, w, token, now);
    if MayRevoke(h, w, token, now, proved, admin, deviceID) then
      lapsed.(revoked := w.revoked + {deviceID}, access := RevokeAll(lapsed.access, deviceID),
              refresh := RevokeAll(w.refresh, deviceID))
    else lapsed
  }

  /** The admission test of `connect`. */
  predicate Admits(w: Relay, deviceID: string) {
    deviceID in w.devices && deviceID !in w.revoked
  }

  // ----- the service -----

  class Server {
    const h: Hash
    var access: Credentials
    var refresh: Credentials
    var revoked: set<string>
    var devices: map<string, Identity>

    ghost function Contents(): Relay
      reads this
    {
      Relay(access, refresh, revoked, devices)
    }

    constructor (h: Hash)
      ensures this.h == h && Contents() == Relay(map[], map[], {}, map[])
    {
      this.h, access, refresh, revoked, devices := h, map[], map[], {}, map[];
    }

    method IssueCredentials(domainID: string, deviceID: string, a: string, r: string, now: Time)
      modifies this
      ensures Contents() == Issue(h, old(Contents()), domainID, deviceID, a, r, now)
    {
      access := access[h(a) := Credential(domainID, deviceID, a, now + ACCESS_TTL, false)];
      refresh := refresh[h(r) := Credential(domainID, deviceID, r, now + REFRESH_TTL, false)];
    }

    method BindIdentity(id: Identity, a: string, r: string, now: Time)
      modifies this
      ensures Contents() == Bind(h, old(Contents()), id, a, r, now)
    {
      IssueCredentials(id.domainID, id.deviceID, a, r, now);
      devices := devices[id.deviceID := id];
    }

    method RefreshAccess(token: string, a: string, r: string, now: Time) returns (ok: bool)
      modifies this
      ensures ok <==> RefreshValid(h, old(Contents()), token, now)
      ensures Contents() == Refresh(h, old(Contents()), token, a, r, now)
    {
      var cred := CheckRefresh(token, now);
      if cred == None { return false; }
      RevokeRefreshCredential(token);
      IssueCredentials(cred.value.domainID, cred.value.deviceID, a, r, now);
      return true;
    }

    /** The first section of `refreshAccess` and the test after it. */
    method CheckRefresh(token: string, now: Time) returns (cred: Option<Credential>)
      ensures cred == if RefreshValid(h, Contents(), token, now) then Some(refresh[h(token)]) else None
    {
      if h(token) !in refresh { return None; }
      var read := refresh[h(token)];
      if read.revoked || now > read.expiresAt { return None; }
      return Some(read);
    }

    method RevokeRefreshCredential(token: string)
      modifies this
      ensures Contents() == old(Contents()).(refresh := refresh)
      ensures refresh == if h(token) in old(refresh)
                         then old(refresh)[h(token) := old(refresh)[h(token)].(revoked := true)] else old(refresh)
    {
      if h(token) in refresh {
        refresh := refresh[h(token) := refresh[h(token)].(revoked := true)];
      }
    }

    method AuthenticateAccess(token: string, now: Time, proved: bool) returns (cred: Option<Credential>)
      modifies this
      ensures cred == if AccessValid(h, old(Contents()), token, now, proved) then Some(old(access)[h(token)]) else None
      ensures Contents() == Lapse(h, old(Contents()), token, now)
    {
      if token == "" || h(token) !in access { return None; }
      var found := access[h(token)];
      if !found.revoked && now > found.expiresAt {
        found := found.(revoked := true);
        access := access[h(token) := found];
      }
      if !found.revoked && now < found.expiresAt && proved { return Some(found); }
      return None;
    }

    method RevokeAccess(token: string, now: Time, proved: bool, admin: bool, deviceID: string) returns (ok: bool)
      modifies this
      ensures ok <==> MayRevoke(h, old(Contents()), token, now, proved, admin, deviceID)
      ensures Contents() == Revoke(h, old(Contents()), token, now, proved, admin, deviceID)
    {
      var cred := AuthenticateAccess(token, now, proved);
      if cred == None {
        if !admin { return false; }
      } else if cred.value.deviceID != deviceID {
        return false;
      }
      revoked := revoked + {deviceID};
      access := MarkRevoked(access, deviceID);
      refresh := MarkRevoked(refresh, deviceID);
      return true;
    }
  }

  /** The loop that marks a device's credentials; the map is walked in any order. */
  method MarkRevoked(cs: Credentials, deviceID: string) returns (r: Credentials)
    ensures r == RevokeAll(cs, deviceID)
  {
    r := cs;
    var todo := cs.Keys;
    while todo != {}
      invariant todo <= cs.Keys == r.Keys
      invariant forall k | k in cs ::
                  r[k] == if k !in todo && cs[k].deviceID == deviceID then cs[k].(revoked := true) else cs[k]
    {
      var k :| k in todo;
      if r[k].deviceID == deviceID {
        r := r[k := r[k].(revoked := true)];
      }
      todo := todo - {k};
    }
  }

  // ----- runs -----

  datatype Event =
    | Binds(id: Identity, a: string, r: string, now: Time)
    | Refreshes(token: string, a: string, r: string, now: Time)
    | Authenticates(token: string, now: Time, proved: bool)
    | Revokes(token: string, now: Time, proved: bool, admin: bool, deviceID: string)

  /** New tokens are fresh. */
  ghost predicate Enabled(h: Hash, w: Relay, e: Event) {
    e.Binds? || e.Refreshes? ==> h(e.a) !in w.access && h(e.r) !in w.refresh
  }

  function After(h: Hash, w: Relay, e: Event): Relay {
    match e
    case Binds(id, a, r, now) => Bind(h, w, id, a, r, now)
    case Refreshes(token, a, r, now) => Refresh(h, w, token, a, r, now)
    case Authenticates(token, now, _) => Lapse(h, w, token, now)
    case Revokes(token, now, proved, admin, deviceID) => Revoke(h, w, token, now, proved, admin, deviceID)
  }

  ghost predicate Run(h: Hash, states: seq<Relay>, events: seq<Event>) {
    && |states| == |events| + 1
    && states[0] == Relay(map[], map[], {}, map[])
    && forall i | 0 <= i < |events| :: Enabled(h, states[i], events[i]) && states[i + 1] == After(h, states[i], events[i])
  }

  /** The event revokes the device. */
  predicate RevokesDevice(h: Hash, w: Relay, e: Event, deviceID: string) {
    e.Revokes? && e.deviceID == deviceID && MayRevoke(h, w, e.token, e.now, e.proved, e.admin, deviceID)
  }

  ghost predicate RevokedBetween(h: Hash, states: seq<Relay>, events: seq<Event>, i: nat, j: nat, deviceID: string)
    requires j <= |events| <= |states|
  {
    exists k | i <= k < j :: RevokesDevice(h, states[k], events[k], deviceID)
  }

  // ----- a refresh token -----

  /** The event spends the refresh token. */
  predicate Spends(h: Hash, w: Relay, e: Event, token: string) {
    e.Refreshes? && e.token == token && RefreshValid(h, w, token, e.now)
  }

  ghost predicate SpentBetween(h: Hash, states: seq<Relay>, events: seq<Event>, i: nat, j: nat, token: string)
    requires j <= |events| <= |states|
  {
    exists k | i <= k < j :: Spends(h, states[k], events[k], token)
  }

  /** What one step does to a refresh credential: it is revoked by its use and by the revocation of its device, and by
      nothing else, and nothing else about it ever changes. */
  lemma RefreshStep(h: Hash, w: Relay, e: Event, token: string)
    requires Injective(h) && Enabled(h, w, e) && h(token) in w.refresh
    ensures h(token) in After(h, w, e).refresh
    ensures var c := w.refresh[h(token)];
            After(h, w, e).refresh[h(token)]
            == c.(revoked := c.revoked || Spends(h, w, e, token) || RevokesDevice(h, w, e, c.deviceID))
  {
  }

  lemma {:induction false} RefreshCredentialLater(
    h: Hash, states: seq<Relay>, events: seq<Event>, i: nat, j: nat, token: string)
    requires Injective(h) && Run(h, states, events) && i <= j <= |events| && h(token) in states[i].refresh
    ensures h(token) in states[j].refresh
    ensures var c := states[i].refresh[h(token)];
            states[j].refresh[h(token)]
            == c.(revoked := c.revoked || SpentBetween(h, states, events, i, j, token)
                             || RevokedBetween(h, states, events, i, j, c.deviceID))
    decreases j
  {
    if i < j {
      RefreshCredentialLater(h, states, events, i, j - 1, token);
      RefreshStep(h, states[j - 1], events[j - 1], token);
    }
  }

  /** The event issues the refresh token to the device at the time. */
  predicate IssuesRefresh(h: Hash, w: Relay, e: Event, token: string, deviceID: string) {
    || (e.Binds? && e.r == token && e.id.deviceID == deviceID)
    || (e.Refreshes? && e.r == token && RefreshValid(h, w, e.token, e.now) && w.refresh[h(e.token)].deviceID == deviceID)
  }

  /** A refresh token issued at step i is accepted at step j exactly when it has not expired, has not been accepted before,
      and its device has not been revoked since. */
  lemma RefreshAcceptedIff(h: Hash, states: seq<Relay>, events: seq<Event>, i: nat, j: nat, token: string, deviceID: string)
    requires Injective(h) && Run(h, states, events) && i < j < |events|
    requires IssuesRefresh(h, states[i], events[i], token, deviceID)
    requires events[j].Refreshes? && events[j].token == token
    ensures RefreshValid(h, states[j], token, events[j].now)
       <==> && events[j].now <= events[i].now + 86_400_000_000_000
            && !SpentBetween(h, states, events, i + 1, j, token)
            && !RevokedBetween(h, states, events, i + 1, j, deviceID)
  {
    assert states[i + 1] == After(h, states[i], events[i]);
    RefreshCredentialLater(h, states, events, i + 1, j, token);
  }

  /** No refresh token is ever accepted twice. */
  lemma RefreshAcceptedOnce(h: Hash, states: seq<Relay>, events: seq<Event>, i: nat, j: nat, token: string)
    requires Injective(h) && Run(h, states, events) && i < j < |events|
    requires Spends(h, states[i], events[i], token)
    ensures !Spends(h, states[j], events[j], token)
  {
    RefreshCredentialLater(h, states, events, i, j, token);
  }

  // ----- an access token -----

  lemma AccessStep(h: Hash, w: Relay, e: Event, token: string)
    requires Injective(h) && Enabled(h, w, e) && h(token) in w.access
    ensures h(token) in After(h, w, e).access
    ensures var c, d := w.access[h(token)], After(h, w, e).access[h(token)];
            && d == c.(revoked := d.revoked)
            && (c.revoked || RevokesDevice(h, w, e, c.deviceID) ==> d.revoked)
            && (d.revoked ==> c.revoked || RevokesDevice(h, w, e, c.deviceID) || e.now > c.expiresAt)
  {
  }

  ghost predicate ClockNeverBack(events: seq<Event>) {
    forall i, j | 0 <= i < j < |events| :: events[i].now <= events[j].now
  }

  lemma {:induction false} AccessCredentialLater(
    h: Hash, states: seq<Relay>, events: seq<Event>, i: nat, j: nat, token: string)
    requires Injective(h) && Run(h, states, events) && i <= j < |events| && ClockNeverBack(events)
    requires h(token) in states[i].access
    ensures h(token) in states[j].access
    ensures var c, d := states[i].access[h(token)], states[j].access[h(token)];
            && d == c.(revoked := d.revoked)
            && (c.revoked || RevokedBetween(h, states, events, i, j, c.deviceID) ==> d.revoked)
            && (d.revoked ==>
                  c.revoked || RevokedBetween(h, states, events, i, j, c.deviceID) || events[j].now > c.expiresAt)
    decreases j
  {
    if i < j {
      AccessCredentialLater(h, states, events, i, j - 1, token);
      AccessStep(h, states[j - 1], events[j - 1], token);
    }
  }

  predicate IssuesAccess(h: Hash, w: Relay, e: Event, token: string, deviceID: string) {
    || (e.Binds? && e.a == token && e.id.deviceID == deviceID)
    || (e.Refreshes? && e.a == token && RefreshValid(h, w, e.token, e.now) && w.refresh[h(e.token)].deviceID == deviceID)
  }

  /** With a clock that does not go back, an access token issued at step i authenticates at step j exactly when it has not
      expired and its device has not been revoked since (given the proof of possession). */
  lemma AccessAcceptedIff(
    h: Hash, states: seq<Relay>, events: seq<Event>, i: nat, j: nat, token: string, deviceID: string, proved: bool)
    requires Injective(h) && Run(h, states, events) && i < j < |events| && ClockNeverBack(events)
    requires IssuesAccess(h, states[i], events[i], token, deviceID) && token != ""
    ensures AccessValid(h, states[j], token, events[j].now, proved)
       <==> && events[j].now < events[i].now + 900_000_000_000
            && !RevokedBetween(h, states, events, i + 1, j, deviceID)
            && proved
  {
    assert states[i + 1] == After(h, states[i], events[i]);
    AccessCredentialLater(h, states, events, i + 1, j, token);
  }

  // ----- revocation -----

  lemma {:induction false} RevokedStays(h: Hash, states: seq<Relay>, events: seq<Event>, i: nat, j: nat, deviceID: string)
    requires Run(h, states, events) && i <= j <= |events| && deviceID in states[i].revoked
    ensures deviceID in states[j].revoked
    decreases j
  {
    if i < j {
      RevokedStays(h, states, events, i, j - 1, deviceID);
      assert states[j] == After(h, states[j - 1], events[j - 1]);
    }
  }

  /** After `revokeAccess` for a device, every token it held is refused for ever, at any time and with any proof, and
      `connect` refuses the device for ever, even after it is bound again. */
  lemma RevocationIsFinal(h: Hash, states: seq<Relay>, events: seq<Event>, i: nat, j: nat, deviceID: string, token: string,
                          now: Time, proved: bool)
    requires Injective(h) && Run(h, states, events) && i < j <= |events|
    requires RevokesDevice(h, states[i], events[i], deviceID)
    ensures !Admits(states[j], deviceID)
    ensures h(token) in states[i].refresh && states[i].refresh[h(token)].deviceID == deviceID ==>
              !RefreshValid(h, states[j], token, now)
    ensures h(token) in states[i].access && states[i].access[h(token)].deviceID == deviceID ==>
              !AccessValid(h, states[j], token, now, proved)
  {
    assert states[i + 1] == After(h, states[i], events[i]);
    RevokedStays(h, states, events, i + 1, j, deviceID);
    if h(token) in states[i].refresh && states[i].refresh[h(token)].deviceID == deviceID {
      RefreshCredentialLater(h, states, events, i, j, token);
    }
    if h(token) in states[i].access && states[i].access[h(token)].deviceID == deviceID {
      AccessStep(h, states[i], events[i], token);
      RevokedAccessStays(h, states, events, i + 1, j, token);
    }
  }

  lemma {:induction false} RevokedAccessStays(
    h: Hash, states: seq<Relay>, events: seq<Event>, i: nat, j: nat, token: string)
    requires Injective(h) && Run(h, states, events) && i <= j <= |events|
    requires h(token) in states[i].access && states[i].access[h(token)].revoked
    ensures h(token) in states[j].access && states[j].access[h(token)].revoked
    decreases j
  {
    if i < j {
      RevokedAccessStays(h, states, events, i, j - 1, token);
      AccessStep(h, states[j - 1], events[j - 1], token);
    }
  }

  /** Who may revoke, told from the events: a token that was issued to a device, has not expired, is presented with its proof,
      and whose device has not been revoked since, revokes that device and no other, not even for an administrator; when it is
      no longer valid, an administrator revokes any device and nobody else does. A refused request revokes no device. */
  lemma RevokesIff(
    h: Hash, states: seq<Relay>, events: seq<Event>, i: nat, j: nat, holder: string, deviceID: string)
    requires Injective(h) && Run(h, states, events) && i < j < |events| && ClockNeverBack(events)
    requires events[j].Revokes? && events[j].deviceID == deviceID && events[j].token != ""
    requires IssuesAccess(h, states[i], events[i], events[j].token, holder)
    ensures var valid := && events[j].now < events[i].now + 900_000_000_000
                         && !RevokedBetween(h, states, events, i + 1, j, holder) && events[j].proved;
            (RevokesDevice(h, states[j], events[j], deviceID) <==> if valid then deviceID == holder else events[j].admin)
    ensures states[j + 1].revoked
         == states[j].revoked + if RevokesDevice(h, states[j], events[j], deviceID) then {deviceID} else {}
  {
    AccessAcceptedIff(h, states, events, i, j, events[j].token, holder, events[j].proved);
    assert states[i + 1] == After(h, states[i], events[i]);
    AccessCredentialLater(h, states, events, i + 1, j, events[j].token);
    assert states[j + 1] == After(h, states[j], events[j]);
  }

  /** Without a token, or with one that was never issued, only an administrator revokes. */
  lemma UnknownTokenNeedsAdmin(h: Hash, w: Relay, e: Event, deviceID: string)
    requires e.Revokes? && e.deviceID == deviceID && (e.token == "" || h(e.token) !in w.access)
    ensures RevokesDevice(h, w, e, deviceID) <==> e.admin
    ensures !e.admin ==> After(h, w, e) == w
  {
  }

  /** A valid token of another device revokes nothing at all. */
  lemma OthersTokenRevokesNothing(
    h: Hash, w: Relay, token: string, now: Time, proved: bool, admin: bool, deviceID: string)
    requires token != "" && h(token) in w.access && proved
    requires !w.access[h(token)].revoked && now < w.access[h(token)].expiresAt && w.access[h(token)].deviceID != deviceID
    ensures Revoke(h, w, token, now, proved, admin, deviceID) == w
  {
  }

  /** The identity last bound for a device in the first n events. */
  function LastBound(events: seq<Event>, n: nat, deviceID: string): Option<Identity>
    requires n <= |events|
  {
    if n == 0 then None
    else if events[n - 1].Binds? && events[n - 1].id.deviceID == deviceID then Some(events[n - 1].id)
    else LastBound(events, n - 1, deviceID)
  }

  /** `connect` admits exactly the devices that have been bound and never revoked, under the identity bound last. */
  lemma {:induction false} AdmitsIff(h: Hash, states: seq<Relay>, events: seq<Event>, n: nat, deviceID: string)
    requires Run(h, states, events) && n <= |events|
    ensures Admits(states[n], deviceID)
       <==> LastBound(events, n, deviceID).Some? && !RevokedBetween(h, states, events, 0, n, deviceID)
    ensures deviceID in states[n].devices <==> LastBound(events, n, deviceID).Some?
    ensures deviceID in states[n].devices ==> states[n].devices[deviceID] == LastBound(events, n, deviceID).value
    ensures deviceID in states[n].revoked <==> RevokedBetween(h, states, events, 0, n, deviceID)
  {
    if n > 0 {
      AdmitsIff(h, states, events, n - 1, deviceID);
      assert states[n] == After(h, states[n - 1], events[n - 1]);
    }
  }

  /** The credential names a device and a domain that were bound together. */
  ghost predicate FromBind(h: Hash, events: seq<Event>, n: nat, key: string, c: Credential)
    requires n <= |events|
  {
    && key == h(c.token)
    && exists i: nat :: i < n && events[i].Binds? && events[i].id.deviceID == c.deviceID && events[i].id.domainID == c.domainID
  }

  ghost predicate AllFromBinds(h: Hash, events: seq<Event>, n: nat, w: Relay)
    requires n <= |events|
  {
    && (forall k | k in w.access :: FromBind(h, events, n, k, w.access[k]))
    && (forall k | k in w.refresh :: FromBind(h, events, n, k, w.refresh[k]))
  }

  lemma FromBindLater(h: Hash, events: seq<Event>, n: nat, key: string, c: Credential, d: Credential)
    requires n < |events| && FromBind(h, events, n, key, c) && d == c.(revoked := d.revoked)
    ensures FromBind(h, events, n + 1, key, d)
  {
  }

  lemma AccessFromBindsStep(h: Hash, events: seq<Event>, n: nat, w: Relay, k: string)
    requires n < |events| && AllFromBinds(h, events, n, w) && k in After(h, w, events[n]).access
    ensures FromBind(h, events, n + 1, k, After(h, w, events[n]).access[k])
  {
    var c, e := After(h, w, events[n]).access[k], events[n];
    if e.Binds? && k == h(e.a) {
      assert c.token == e.a && c.deviceID == e.id.deviceID && c.domainID == e.id.domainID;
    } else if e.Refreshes? && RefreshValid(h, w, e.token, e.now) && k == h(e.a) {
      var spent := w.refresh[h(e.token)];
      assert c.token == e.a && c.deviceID == spent.deviceID && c.domainID == spent.domainID;
      assert FromBind(h, events, n, h(e.token), spent);
    } else {
      SameAccess(h, w, e, k);
      FromBindLater(h, events, n, k, w.access[k], c);
    }
  }

  lemma SameAccess(h: Hash, w: Relay, e: Event, k: string)
    requires k in After(h, w, e).access && !(e.Binds? && k == h(e.a))
    requires !(e.Refreshes? && RefreshValid(h, w, e.token, e.now) && k == h(e.a))
    ensures k in w.access && After(h, w, e).access[k] == w.access[k].(revoked := After(h, w, e).access[k].revoked)
  {
    match e
    case Binds(_, _, _, _) =>
    case Refreshes(_, _, _, _) =>
    case Authenticates(_, _, _) =>
    case Revokes(_, _, _, _, _) =>
  }

  lemma RefreshFromBindsStep(h: Hash, events: seq<Event>, n: nat, w: Relay, k: string)
    requires n < |events| && AllFromBinds(h, events, n, w) && k in After(h, w, events[n]).refresh
    ensures FromBind(h, events, n + 1, k, After(h, w, events[n]).refresh[k])
  {
    var c, e := After(h, w, events[n]).refresh[k], events[n];
    if e.Binds? && k == h(e.r) {
      assert c.token == e.r && c.deviceID == e.id.deviceID && c.domainID == e.id.domainID;
    } else if e.Refreshes? && RefreshValid(h, w, e.token, e.now) && k == h(e.r) {
      var spent := w.refresh[h(e.token)];
      assert c.token == e.r && c.deviceID == spent.deviceID && c.domainID == spent.domainID;
      assert FromBind(h, events, n, h(e.token), spent);
    } else {
      SameRefresh(h, w, e, k);
      FromBindLater(h, events, n, k, w.refresh[k], c);
    }
  }

  lemma SameRefresh(h: Hash, w: Relay, e: Event, k: string)
    requires k in After(h, w, e).refresh && !(e.Binds? && k == h(e.r))
    requires !(e.Refreshes? && RefreshValid(h, w, e.token, e.now) && k == h(e.r))
    ensures k in w.refresh && After(h, w, e).refresh[k] == w.refresh[k].(revoked := After(h, w, e).refresh[k].revoked)
  {
    match e
    case Binds(_, _, _, _) =>
    case Refreshes(_, _, _, _) =>
    case Authenticates(_, _, _) =>
    case Revokes(_, _, _, _, _) =>
  }

  /** Every credential, however often refreshed, goes back to a bind of its device in its domain, and is kept under the hash of
      its own token. */
  lemma {:induction false} CredentialsGoBackToBinds(h: Hash, states: seq<Relay>, events: seq<Event>, n: nat)
    requires Run(h, states, events) && n <= |events|
    ensures AllFromBinds(h, events, n, states[n])
  {
    if n > 0 {
      CredentialsGoBackToBinds(h, states, events, n - 1);
      assert states[n] == After(h, states[n - 1], events[n - 1]);
      forall k | k in states[n].access ensures FromBind(h, events, n, k, states[n].access[k]) {
        AccessFromBindsStep(h, events, n - 1, states[n - 1], k);
      }
      forall k | k in states[n].refresh ensures FromBind(h, events, n, k, states[n].refresh[k]) {
        RefreshFromBindsStep(h, events, n - 1, states[n - 1], k);
      }
    }
  }

  /** An access token that is presented after its expiry never works again, not even if the clock goes back. */
  lemma LapsedIsFinal(
    h: Hash, states: seq<Relay>, events: seq<Event>, i: nat, j: nat, token: string, now: Time, proved: bool)
    requires Injective(h) && Run(h, states, events) && i < j <= |events|
    requires (events[i].Authenticates? || events[i].Revokes?) && events[i].token == token != ""
    requires h(token) in states[i].access && events[i].now > states[i].access[h(token)].expiresAt
    ensures !AccessValid(h, states[j], token, now, proved)
  {
    assert states[i + 1] == After(h, states[i], events[i]);
    AccessStep(h, states[i], events[i], token);
    RevokedAccessStays(h, states, events, i + 1, j, token);
  }

  // ----- conservation -----

  /** The unrevoked refresh credentials of a device. */
  ghost function Unrevoked(cs: Credentials, deviceID: string): set<string> {
    set k | k in cs && cs[k].deviceID == deviceID && !cs[k].revoked
  }

  /** The binds of a device since it was last revoked. */
  ghost function BindsSince(h: Hash, states: seq<Relay>, events: seq<Event>, j: nat, deviceID: string): nat
    requires j <= |events| <= |states|
  {
    if j == 0 then 0
    else
      var w, e := states[j - 1], events[j - 1];
      if RevokesDevice(h, w, e, deviceID) then 0
      else BindsSince(h, states, events, j - 1, deviceID) + if e.Binds? && e.id.deviceID == deviceID then 1 else 0
  }

  lemma IssueAddsOne(cs: Credentials, k: string, c: Credential, deviceID: string)
    requires k !in cs && !c.revoked
    ensures |Unrevoked(cs[k := c], deviceID)| == |Unrevoked(cs, deviceID)| + if c.deviceID == deviceID then 1 else 0
  {
    var before, after := Unrevoked(cs, deviceID), Unrevoked(cs[k := c], deviceID);
    assert after == if c.deviceID == deviceID then before + {k} else before;
  }

  lemma SpendRemovesOne(cs: Credentials, k: string, deviceID: string)
    requires k in cs && !cs[k].revoked
    ensures |Unrevoked(cs[k := cs[k].(revoked := true)], deviceID)|
         == |Unrevoked(cs, deviceID)| - if cs[k].deviceID == deviceID then 1 else 0
  {
    var before, after := Unrevoked(cs, deviceID), Unrevoked(cs[k := cs[k].(revoked := true)], deviceID);
    if cs[k].deviceID == deviceID {
      assert k in before && after == before - {k};
    } else {
      assert after == before;
    }
  }

  lemma RevokeRemovesAll(cs: Credentials, revoked: string, deviceID: string)
    ensures |Unrevoked(RevokeAll(cs, revoked), deviceID)| == if revoked == deviceID then 0 else |Unrevoked(cs, deviceID)|
  {
    assert Unrevoked(RevokeAll(cs, revoked), deviceID) == if revoked == deviceID then {} else Unrevoked(cs, deviceID);
  }

  lemma StepConserves(h: Hash, w: Relay, e: Event, deviceID: string)
    requires Enabled(h, w, e)
    ensures |Unrevoked(After(h, w, e).refresh, deviceID)|
         == if RevokesDevice(h, w, e, deviceID) then 0
            else |Unrevoked(w.refresh, deviceID)| + if e.Binds? && e.id.deviceID == deviceID then 1 else 0
  {
    match e
    case Binds(id, _, r, now) =>
      IssueAddsOne(w.refresh, h(r), Credential(id.domainID, id.deviceID, r, now + REFRESH_TTL, false), deviceID);
    case Refreshes(token, _, r, now) =>
      if RefreshValid(h, w, token, now) {
        var c := w.refresh[h(token)];
        SpendRemovesOne(w.refresh, h(token), deviceID);
        IssueAddsOne(w.refresh[h(token) := c.(revoked := true)], h(r),
                     Credential(c.domainID, c.deviceID, r, now + REFRESH_TTL, false), deviceID);
      }
    case Authenticates(_, _, _) =>
    case Revokes(_, _, _, _, revoked) => RevokeRemovesAll(w.refresh, revoked, deviceID);
  }

  /** Refreshing conserves, revoking zeroes: in every state, a device has exactly as many unrevoked refresh credentials as
      it was bound times since it was last revoked. */
  lemma {:induction false} UnrevokedCountsBinds(h: Hash, states: seq<Relay>, events: seq<Event>, j: nat, deviceID: string)
    requires Run(h, states, events) && j <= |events|
    ensures |Unrevoked(states[j].refresh, deviceID)| == BindsSince(h, states, events, j, deviceID)
  {
    if j > 0 {
      UnrevokedCountsBinds(h, states, events, j - 1, deviceID);
      StepConserves(h, states[j - 1], events[j - 1], deviceID);
    }
  }
}
