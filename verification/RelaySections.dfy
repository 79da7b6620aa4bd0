/** The relay's credential handlers taken apart into their critical sections: a refresh token is checked under one hold of the
    lock, spent under another, and the new pair is stored under a third, so that requests interleave. */
module RelaySections {
  import opened GoStrings
  import opened GoTime
  import opened Handshake
  import opened RelayCredentials

  /** A `refreshAccess` request between its sections; it goes by the credential it read first. */
  datatype Flight = Checked(token: string, credential: Credential) | Paid(credential: Credential)

  datatype World = World(relay: Relay, flights: map<nat, Flight>)

  // ----- the sections -----

  /** The credential is read, and the request goes on if it is valid. */
  function Check(h: Hash, w: World, flight: nat, token: string, now: Time): World {
    if RefreshValid(h, w.relay, token, now) then
      w.(flights := w.flights[flight := Checked(token, w.relay.refresh[h(token)])])
    else w
  }

  /** `revokeRefreshCredential`, whatever has become of the credential since. */
  function Spend(h: Hash, w: World, flight: nat): World
    requires flight in w.flights && w.flights[flight].Checked?
  {
    var token := w.flights[flight].token;
    World(w.relay.(refresh := Spent(w.relay.refresh, h(token))), w.flights[flight := Paid(w.flights[flight].credential)])
  }

  function Spent(cs: Credentials, k: string): Credentials {
    if k in cs then cs[k := cs[k].(revoked := true)] else cs
  }

  /** `issueCredentials` for the device of the credential that was read. */
  function Renew(h: Hash, w: World, flight: nat, a: string, r: string, now: Time): World
    requires flight in w.flights && w.flights[flight].Paid?
  {
    var c := w.flights[flight].credential;
    World(Issue(h, w.relay, c.domainID, c.deviceID, a, r, now), w.flights - {flight})
  }

  /** The marking section of `revokeAccess`. */
  function Mark(w: World, deviceID: string): World {
    w.(relay := w.relay.(revoked := w.relay.revoked + {deviceID}, access := RevokeAll(w.relay.access, deviceID),
                         refresh := RevokeAll(w.relay.refresh, deviceID)))
  }

  /** With nothing in between, the three sections are the handler as one step. */
  lemma SectionsMakeTheHandler(h: Hash, w: World, flight: nat, token: string, a: string, r: string, now: Time)
    requires flight !in w.flights
    ensures var checked := Check(h, w, flight, token, now);
            if flight in checked.flights
            then Renew(h, Spend(h, checked, flight), flight, a, r, now) == World(Refresh(h, w.relay, token, a, r, now), w.flights)
            else checked == World(Refresh(h, w.relay, token, a, r, now), w.flights)
  {
    assert w.flights[flight := Paid(Credential("", "", "", 0, false))] - {flight} == w.flights;
  }

  // ----- runs -----

  datatype Event =
    | Issues(id: Identity, a: string, r: string, now: Time)            // the first section of `bindIdentity`
    | Enrols(id: Identity)                                             // its second
    | Checks(flight: nat, token: string, now: Time)
    | Spends(flight: nat)
    | Renews(flight: nat, a: string, r: string, now: Time)
    | Authenticates(token: string, now: Time)
    | Marks(deviceID: string)                                          // by whoever was allowed to

  /** New tokens and flight numbers are fresh. */
  ghost predicate Enabled(h: Hash, w: World, e: Event) {
    match e
    case Issues(_, a, r, _) => h(a) !in w.relay.access && h(r) !in w.relay.refresh
    case Checks(flight, _, _) => flight !in w.flights
    case Spends(flight) => flight in w.flights && w.flights[flight].Checked?
    case Renews(flight, a, r, _) =>
      flight in w.flights && w.flights[flight].Paid? && h(a) !in w.relay.access && h(r) !in w.relay.refresh
    case _ => true
  }

  ghost function After(h: Hash, w: World, e: Event): World
    requires Enabled(h, w, e)
  {
    match e
    case Issues(id, a, r, now) => w.(relay := Issue(h, w.relay, id.domainID, id.deviceID, a, r, now))
    case Enrols(id) => w.(relay := w.relay.(devices := w.relay.devices[id.deviceID := id]))
    case Checks(flight, token, now) => Check(h, w, flight, token, now)
    case Spends(flight) => Spend(h, w, flight)
    case Renews(flight, a, r, now) => Renew(h, w, flight, a, r, now)
    case Authenticates(token, now) => w.(relay := Lapse(h, w.relay, token, now))
    case Marks(deviceID) => Mark(w, deviceID)
  }

  ghost predicate StepAt(h: Hash, states: seq<World>, events: seq<Event>, i: nat)
    requires i < |events| < |states|
  {
    Enabled(h, states[i], events[i]) && states[i + 1] == After(h, states[i], events[i])
  }

  ghost predicate Run(h: Hash, states: seq<World>, events: seq<Event>) {
    && |states| == |events| + 1
    && states[0] == World(Relay(map[], map[], {}, map[]), map[])
    && forall i | 0 <= i < |events| :: StepAt(h, states, events, i)
  }

  // ----- a refresh token -----

  /** The event spends the token, for whichever request. */
  predicate SpendsToken(w: World, e: Event, token: string) {
    e.Spends? && e.flight in w.flights && w.flights[e.flight].Checked? && w.flights[e.flight].token == token
  }

  ghost predicate SpentBetween(states: seq<World>, events: seq<Event>, i: nat, j: nat, token: string)
    requires j <= |events| <= |states|
  {
    exists k | i <= k < j :: SpendsToken(states[k], events[k], token)
  }

  ghost predicate MarkedBetween(events: seq<Event>, i: nat, j: nat, deviceID: string)
    requires j <= |events|
  {
    exists k | i <= k < j :: events[k] == Marks(deviceID)
  }

  lemma TokenStep(h: Hash, w: World, e: Event, token: string)
    requires Injective(h) && Enabled(h, w, e) && h(token) in w.relay.refresh
    ensures var c := w.relay.refresh[h(token)];
            && h(token) in After(h, w, e).relay.refresh
            && After(h, w, e).relay.refresh[h(token)]
               == c.(revoked := c.revoked || SpendsToken(w, e, token) || e == Marks(c.deviceID))
  {
  }

  lemma {:induction false} TokenLater(h: Hash, states: seq<World>, events: seq<Event>, i: nat, j: nat, token: string)
    requires Injective(h) && Run(h, states, events) && i <= j <= |events| && h(token) in states[i].relay.refresh
    ensures h(token) in states[j].relay.refresh
    ensures var c := states[i].relay.refresh[h(token)];
            states[j].relay.refresh[h(token)]
            == c.(revoked := c.revoked || SpentBetween(states, events, i, j, token) || MarkedBetween(events, i, j, c.deviceID))
    decreases j
  {
    if i < j {
      TokenLater(h, states, events, i, j - 1, token);
      assert StepAt(h, states, events, j - 1);
      TokenStep(h, states[j - 1], events[j - 1], token);
    }
  }

  /** A check at step j that the token passes. */
  ghost predicate PassesAt(h: Hash, states: seq<World>, events: seq<Event>, j: nat, token: string)
    requires |events| < |states|
  {
    j < |events| && events[j].Checks? && events[j].token == token && RefreshValid(h, states[j].relay, token, events[j].now)
  }

  /** The event issues the refresh token to the device. */
  predicate IssuesTo(w: World, e: Event, token: string, deviceID: string) {
    || (e.Issues? && e.r == token && e.id.deviceID == deviceID)
    || (e.Renews? && e.r == token && e.flight in w.flights && w.flights[e.flight].credential.deviceID == deviceID)
  }

  /** In every interleaving, a refresh token issued at step i passes its check at step j exactly when it has not expired, no
      request has spent it yet, and its device has not been revoked since. */
  lemma CheckPassesIff(h: Hash, states: seq<World>, events: seq<Event>, i: nat, j: nat, token: string, deviceID: string)
    requires Injective(h) && Run(h, states, events) && i < j < |events|
    requires IssuesTo(states[i], events[i], token, deviceID)
    requires events[j].Checks? && events[j].token == token
    ensures PassesAt(h, states, events, j, token)
       <==> && events[j].now <= events[i].now + REFRESH_TTL
            && !SpentBetween(states, events, i + 1, j, token)
            && !MarkedBetween(events, i + 1, j, deviceID)
  {
    assert StepAt(h, states, events, i);
    TokenLater(h, states, events, i + 1, j, token);
  }

  /** A token that passed once passes again exactly when it is still unexpired, its device has not been revoked since, and none
      of the requests that hold it has reached its second section: checking and spending are separate holds of the lock. */
  lemma PassesAgainIff(h: Hash, states: seq<World>, events: seq<Event>, i: nat, j: nat, token: string)
    requires Injective(h) && Run(h, states, events) && i < j < |events|
    requires PassesAt(h, states, events, i, token) && events[j].Checks? && events[j].token == token
    ensures var c := states[i].relay.refresh[h(token)];
            (PassesAt(h, states, events, j, token)
             <==> && events[j].now <= c.expiresAt
                  && !SpentBetween(states, events, i, j, token)
                  && !MarkedBetween(events, i, j, c.deviceID))
  {
    TokenLater(h, states, events, i, j, token);
  }

  ghost predicate OnceOnly(h: Hash, states: seq<World>, events: seq<Event>, token: string)
    requires |events| < |states|
  {
    forall i: nat, j: nat | i < j && PassesAt(h, states, events, i, token) :: !PassesAt(h, states, events, j, token)
  }

  /** Between two checks of the token, the first of which it passes, something stops it: the second is too late, a request spends
      it, or its device is revoked. */
  ghost predicate StoppedBetween(h: Hash, states: seq<World>, events: seq<Event>, i: nat, j: nat, token: string)
    requires |events| < |states| && i < j < |events| && PassesAt(h, states, events, i, token) && events[j].Checks?
  {
    var c := states[i].relay.refresh[h(token)];
    events[j].now > c.expiresAt || SpentBetween(states, events, i, j, token) || MarkedBetween(events, i, j, c.deviceID)
  }

  /** A token is accepted at most once in a run exactly when, after a check that it passes, no request checks it before one has
      spent it, unless it has expired or been revoked by then. */
  lemma OnceOnlyIff(h: Hash, states: seq<World>, events: seq<Event>, token: string)
    requires Injective(h) && Run(h, states, events)
    ensures OnceOnly(h, states, events, token)
       <==> forall i: nat, j: nat | i < j < |events| && PassesAt(h, states, events, i, token)
                                    && events[j].Checks? && events[j].token == token ::
              StoppedBetween(h, states, events, i, j, token)
  {
    forall i: nat, j: nat | i < j < |events| && PassesAt(h, states, events, i, token)
                            && events[j].Checks? && events[j].token == token
      ensures PassesAt(h, states, events, j, token) <==> !StoppedBetween(h, states, events, i, j, token)
    {
      PassesAgainIff(h, states, events, i, j, token);
    }
  }

  // ----- revocation -----

  lemma {:induction false} AccessStaysRevoked(h: Hash, states: seq<World>, events: seq<Event>, i: nat, j: nat, k: string)
    requires Run(h, states, events) && i <= j <= |events|
    requires k in states[i].relay.access && states[i].relay.access[k].revoked
    ensures k in states[j].relay.access && states[j].relay.access[k].revoked
    decreases j
  {
    if i < j {
      AccessStaysRevoked(h, states, events, i, j - 1, k);
      assert StepAt(h, states, events, j - 1);
    }
  }

  lemma {:induction false} DeviceStaysRevoked(h: Hash, states: seq<World>, events: seq<Event>, i: nat, j: nat, deviceID: string)
    requires Run(h, states, events) && i <= j <= |events| && deviceID in states[i].relay.revoked
    ensures deviceID in states[j].relay.revoked
    decreases j
  {
    if i < j {
      DeviceStaysRevoked(h, states, events, i, j - 1, deviceID);
      assert StepAt(h, states, events, j - 1);
    }
  }

  /** In every interleaving, after the marking section for a device every token it then held is refused for ever and `connect`
      refuses the device for ever. */
  lemma MarkingIsFinal(h: Hash, states: seq<World>, events: seq<Event>, i: nat, j: nat, deviceID: string, token: string,
                       now: Time, proved: bool)
    requires Injective(h) && Run(h, states, events) && i < j <= |events| && events[i] == Marks(deviceID)
    ensures !Admits(states[j].relay, deviceID)
    ensures h(token) in states[i].relay.refresh && states[i].relay.refresh[h(token)].deviceID == deviceID ==>
              !RefreshValid(h, states[j].relay, token, now)
    ensures h(token) in states[i].relay.access && states[i].relay.access[h(token)].deviceID == deviceID ==>
              !AccessValid(h, states[j].relay, token, now, proved)
  {
    assert StepAt(h, states, events, i);
    DeviceStaysRevoked(h, states, events, i + 1, j, deviceID);
    if h(token) in states[i].relay.refresh {
      TokenLater(h, states, events, i, j, token);
    }
    if h(token) in states[i].relay.access && states[i].relay.access[h(token)].deviceID == deviceID {
      AccessStaysRevoked(h, states, events, i + 1, j, h(token));
    }
  }

  // ----- what a device can still hold after it was marked -----

  /** A refresh credential that appears is one that is issued or renewed, with its token, device and time. */
  lemma AppearsByIssue(h: Hash, w: World, e: Event, k: string)
    requires Enabled(h, w, e) && k in After(h, w, e).relay.refresh && k !in w.relay.refresh
    ensures e.Issues? || e.Renews?
    ensures var c := After(h, w, e).relay.refresh[k];
            k == h(e.r) && c.token == e.r && IssuesTo(w, e, e.r, c.deviceID) && c.expiresAt == e.now + REFRESH_TTL
  {
  }

  lemma {:induction false} IssuedSince(h: Hash, states: seq<World>, events: seq<Event>, i: nat, j: nat, k: string)
    returns (m: nat)
    requires Run(h, states, events) && i <= j <= |events|
    requires k in states[j].relay.refresh && k !in states[i].relay.refresh
    ensures i <= m < j && (events[m].Issues? || events[m].Renews?)
    ensures k == h(events[m].r) && k !in states[m].relay.refresh && k in states[m + 1].relay.refresh
    decreases j
  {
    m := j - 1;
    assert StepAt(h, states, events, m);
    if k in states[m].relay.refresh {
      m := IssuedSince(h, states, events, i, m, k);
    } else {
      AppearsByIssue(h, states[m], events[m], k);
    }
  }

  /** The device is issued no pair by a bind from step i to step j. */
  ghost predicate NotBoundBetween(events: seq<Event>, i: nat, j: nat, deviceID: string)
    requires j <= |events|
  {
    forall k | i <= k < j :: !(events[k].Issues? && events[k].id.deviceID == deviceID)
  }

  /** Event k renews for the device. */
  predicate RenewsFor(w: World, e: Event, deviceID: string) {
    e.Renews? && e.flight in w.flights && w.flights[e.flight].credential.deviceID == deviceID
  }

  /** The token of the pair that was renewed at k is good at step j: unexpired, unspent and unmarked. */
  ghost predicate GoodAt(states: seq<World>, events: seq<Event>, k: nat, j: nat, deviceID: string, now: Time)
    requires k < j <= |events| < |states| && events[k].Renews?
  {
    && now <= events[k].now + REFRESH_TTL
    && !SpentBetween(states, events, k + 1, j, events[k].r) && !MarkedBetween(events, k + 1, j, deviceID)
  }

  /** A valid token of a device that was marked at i and not bound since was renewed after i. */
  lemma ValidWasRenewed(
    h: Hash, states: seq<World>, events: seq<Event>, i: nat, j: nat, deviceID: string, token: string, now: Time)
    returns (k: nat)
    requires Injective(h) && Run(h, states, events) && i < j <= |events| && events[i] == Marks(deviceID)
    requires NotBoundBetween(events, i, j, deviceID)
    requires RefreshValid(h, states[j].relay, token, now) && states[j].relay.refresh[h(token)].deviceID == deviceID
    ensures i < k < j && RenewsFor(states[k], events[k], deviceID) && events[k].r == token
    ensures GoodAt(states, events, k, j, deviceID, now)
  {
    if h(token) in states[i].relay.refresh { TokenLater(h, states, events, i, j, token); }
    k := IssuedSince(h, states, events, i, j, h(token));
    assert StepAt(h, states, events, k);
    AppearsByIssue(h, states[k], events[k], h(token));
    TokenLater(h, states, events, k + 1, j, token);
  }

  lemma RenewedIsValid(h: Hash, states: seq<World>, events: seq<Event>, k: nat, j: nat, deviceID: string, now: Time)
    requires Injective(h) && Run(h, states, events) && k < j <= |events| && RenewsFor(states[k], events[k], deviceID)
    requires GoodAt(states, events, k, j, deviceID, now)
    ensures RefreshValid(h, states[j].relay, events[k].r, now)
    ensures states[j].relay.refresh[h(events[k].r)].deviceID == deviceID
  {
    assert StepAt(h, states, events, k);
    TokenLater(h, states, events, k + 1, j, events[k].r);
  }

  /** A request in flight passed its check at some step c, and has been in flight with what it read then ever since. */
  lemma {:induction false} FlightPassed(h: Hash, states: seq<World>, events: seq<Event>, k: nat, flight: nat) returns (c: nat)
    requires Run(h, states, events) && k <= |events| && flight in states[k].flights
    ensures c < k && events[c].Checks? && events[c].flight == flight && PassesAt(h, states, events, c, events[c].token)
    ensures forall m | c < m <= k ::
              flight in states[m].flights && states[m].flights[flight].credential == states[c].relay.refresh[h(events[c].token)]
  {
    c := k - 1;
    assert StepAt(h, states, events, c);
    if flight in states[c].flights {
      c := FlightPassed(h, states, events, c, flight);
    }
  }

  /** The renewal at k goes back to a request that was in flight for the device at i: it is that request's, or the token it was
      made for was renewed after i and that renewal does. */
  ghost predicate Descends(h: Hash, states: seq<World>, events: seq<Event>, i: nat, k: nat, deviceID: string)
    requires i < k < |events| < |states|
    decreases k
  {
    && RenewsFor(states[k], events[k], deviceID)
    && ((events[k].flight in states[i].flights && states[i].flights[events[k].flight].credential.deviceID == deviceID)
        || exists c, m | i < m < c < k ::
             events[c].Checks? && events[c].flight == events[k].flight && events[m].Renews? && events[m].r == events[c].token
             && Descends(h, states, events, i, m, deviceID))
  }

  lemma {:induction false} RenewalDescends(
    h: Hash, states: seq<World>, events: seq<Event>, i: nat, k: nat, deviceID: string)
    requires Injective(h) && Run(h, states, events) && i < k < |events| && events[i] == Marks(deviceID)
    requires NotBoundBetween(events, i, k, deviceID) && RenewsFor(states[k], events[k], deviceID)
    ensures Descends(h, states, events, i, k, deviceID)
    decreases k
  {
    var c := FlightPassed(h, states, events, k, events[k].flight);
    if c > i {
      var m := ValidWasRenewed(h, states, events, i, c, deviceID, events[c].token, events[c].now);
      RenewalDescends(h, states, events, i, m, deviceID);
    }
  }

  ghost predicate HasValidRefresh(h: Hash, w: Relay, deviceID: string, now: Time) {
    exists token :: RefreshValid(h, w, token, now) && w.refresh[h(token)].deviceID == deviceID
  }

  /** In every interleaving, a device that was marked at i and not bound since has a valid refresh token at j exactly when a
      request that was in flight for it at i, or one descended from it, has renewed, and the new token is unexpired, unspent and
      unmarked. */
  lemma ValidAfterMarkingIff(h: Hash, states: seq<World>, events: seq<Event>, i: nat, j: nat, deviceID: string, now: Time)
    requires Injective(h) && Run(h, states, events) && i < j <= |events| && events[i] == Marks(deviceID)
    requires NotBoundBetween(events, i, j, deviceID)
    ensures HasValidRefresh(h, states[j].relay, deviceID, now)
       <==> exists k | i < k < j :: Descends(h, states, events, i, k, deviceID) && GoodAt(states, events, k, j, deviceID, now)
  {
    if HasValidRefresh(h, states[j].relay, deviceID, now) {
      var token :| RefreshValid(h, states[j].relay, token, now) && states[j].relay.refresh[h(token)].deviceID == deviceID;
      var k := ValidWasRenewed(h, states, events, i, j, deviceID, token, now);
      RenewalDescends(h, states, events, i, k, deviceID);
    }
    if k :| i < k < j && Descends(h, states, events, i, k, deviceID) && GoodAt(states, events, k, j, deviceID, now) {
      RenewedIsValid(h, states, events, k, j, deviceID, now);
    }
  }

  lemma {:induction false} DescentNeedsFlight(
    h: Hash, states: seq<World>, events: seq<Event>, i: nat, k: nat, deviceID: string)
    requires i < k < |events| < |states| && Descends(h, states, events, i, k, deviceID)
    ensures exists f :: f in states[i].flights && states[i].flights[f].credential.deviceID == deviceID
    decreases k
  {
    if !(events[k].flight in states[i].flights && states[i].flights[events[k].flight].credential.deviceID == deviceID) {
      var c, m :| i < m < c < k && events[c].Checks? && events[c].flight == events[k].flight && events[m].Renews?
                  && events[m].r == events[c].token && Descends(h, states, events, i, m, deviceID);
      DescentNeedsFlight(h, states, events, i, m, deviceID);
    }
  }

  /** So a marking that meets no request in flight for the device leaves it without a valid refresh token until it is bound
      again. */
  lemma QuietMarkingEnds(h: Hash, states: seq<World>, events: seq<Event>, i: nat, j: nat, deviceID: string, now: Time)
    requires Injective(h) && Run(h, states, events) && i < j <= |events| && events[i] == Marks(deviceID)
    requires NotBoundBetween(events, i, j, deviceID)
    requires forall f | f in states[i].flights :: states[i].flights[f].credential.deviceID != deviceID
    ensures !HasValidRefresh(h, states[j].relay, deviceID, now)
  {
    ValidAfterMarkingIff(h, states, events, i, j, deviceID, now);
    if k :| i < k < j && Descends(h, states, events, i, k, deviceID) && GoodAt(states, events, k, j, deviceID, now) {
      DescentNeedsFlight(h, states, events, i, k, deviceID);
      assert false;
    }
  }

  lemma RunExtends(h: Hash, states: seq<World>, events: seq<Event>, e: Event)
    requires Run(h, states, events) && Enabled(h, states[|events|], e)
    ensures Run(h, states + [After(h, states[|events|], e)], events + [e])
  {
    var more, moreEvents := states + [After(h, states[|events|], e)], events + [e];
    forall i | 0 <= i < |moreEvents| ensures StepAt(h, more, moreEvents, i) {
      if i < |events| { assert StepAt(h, states, events, i); }
    }
  }

  lemma MarkedInFlight(h: Hash, id: Identity, a: string, r: string, now: Time) returns (states: seq<World>, events: seq<Event>)
    ensures Run(h, states, events) && events == [Issues(id, a, r, now), Checks(0, r, now), Marks(id.deviceID)]
    ensures var w, c := states[3], Credential(id.domainID, id.deviceID, r, now + REFRESH_TTL, false);
            && w.flights == map[0 := Checked(r, c)]
            && w.relay.access.Keys == {h(a)} && w.relay.refresh.Keys == {h(r)}
  {
    var w0 := World(Relay(map[], map[], {}, map[]), map[]);
    var w1 := w0.(relay := Issue(h, w0.relay, id.domainID, id.deviceID, a, r, now));
    var w2 := Check(h, w1, 0, r, now);
    events := [Issues(id, a, r, now), Checks(0, r, now), Marks(id.deviceID)];
    states := [w0, w1, w2, Mark(w2, id.deviceID)];
    assert StepAt(h, states, events, 0) && StepAt(h, states, events, 1) && StepAt(h, states, events, 2);
  }

  /** A request that passed its check before the marking renews after it: the device is marked, is not bound again, and holds a
      valid pair. */
  lemma RenewedAfterMarking(
    h: Hash, id: Identity, a: string, r: string, a2: string, r2: string, now: Time)
    returns (states: seq<World>, events: seq<Event>)
    requires h(a) != h(a2) && h(r) != h(r2) && a2 != ""
    ensures Run(h, states, events) && |events| == 5 && events[2] == Marks(id.deviceID)
    ensures NotBoundBetween(events, 2, 5, id.deviceID)
    ensures RefreshValid(h, states[5].relay, r2, now) && AccessValid(h, states[5].relay, a2, now, true)
  {
    states, events := MarkedInFlight(h, id, a, r, now);
    RunExtends(h, states, events, Spends(0));
    states, events := states + [Spend(h, states[3], 0)], events + [Spends(0)];
    RunExtends(h, states, events, Renews(0, a2, r2, now));
    states, events := states + [Renew(h, states[4], 0, a2, r2, now)], events + [Renews(0, a2, r2, now)];
  }

  // ----- how many refresh credentials a device has -----

  /** The event spends a credential of the device that was still unrevoked. */
  predicate Consumes(h: Hash, w: World, e: Event, deviceID: string) {
    && e.Spends? && e.flight in w.flights && w.flights[e.flight].Checked?
    && var k := h(w.flights[e.flight].token);
       k in w.relay.refresh && !w.relay.refresh[k].revoked && w.relay.refresh[k].deviceID == deviceID
  }

  /** What the event adds to the unrevoked refresh credentials of the device. */
  function Change(h: Hash, w: World, e: Event, deviceID: string): int {
    if e.Issues? && e.id.deviceID == deviceID then 1
    else if e.Renews? && e.flight in w.flights && w.flights[e.flight].credential.deviceID == deviceID then 1
    else if Consumes(h, w, e, deviceID) then -1
    else 0
  }

  /** Issued and renewed less consumed, since the device was last marked. */
  ghost function Balance(h: Hash, states: seq<World>, events: seq<Event>, j: nat, deviceID: string): int
    requires j <= |events| <= |states|
  {
    if j == 0 then 0
    else if events[j - 1] == Marks(deviceID) then 0
    else Balance(h, states, events, j - 1, deviceID) + Change(h, states[j - 1], events[j - 1], deviceID)
  }

  lemma StepBalances(h: Hash, w: World, e: Event, deviceID: string)
    requires Enabled(h, w, e)
    ensures |Unrevoked(After(h, w, e).relay.refresh, deviceID)|
         == if e == Marks(deviceID) then 0 else |Unrevoked(w.relay.refresh, deviceID)| + Change(h, w, e, deviceID)
  {
    var cs := w.relay.refresh;
    match e
    case Issues(id, _, r, now) =>
      IssueAddsOne(cs, h(r), Credential(id.domainID, id.deviceID, r, now + REFRESH_TTL, false), deviceID);
    case Renews(flight, _, r, now) =>
      var c := w.flights[flight].credential;
      IssueAddsOne(cs, h(r), Credential(c.domainID, c.deviceID, r, now + REFRESH_TTL, false), deviceID);
    case Spends(flight) => SpendBalances(cs, h(w.flights[flight].token), deviceID);
    case Marks(revoked) => RevokeRemovesAll(cs, revoked, deviceID);
    case _ =>
  }

  lemma SpendBalances(cs: Credentials, k: string, deviceID: string)
    ensures |Unrevoked(Spent(cs, k), deviceID)|
         == |Unrevoked(cs, deviceID)| - if k in cs && !cs[k].revoked && cs[k].deviceID == deviceID then 1 else 0
  {
    if k in cs && !cs[k].revoked {
      SpendRemovesOne(cs, k, deviceID);
    } else {
      assert Spent(cs, k) == cs;
    }
  }

  /** In every interleaving a device has exactly as many unrevoked refresh credentials as were issued and renewed for it since it
      was last marked, less those consumed: a refresh conserves them exactly when its spending finds the credential
      unrevoked. */
  lemma {:induction false} UnrevokedIsBalance(h: Hash, states: seq<World>, events: seq<Event>, j: nat, deviceID: string)
    requires Run(h, states, events) && j <= |events|
    ensures |Unrevoked(states[j].relay.refresh, deviceID)| == Balance(h, states, events, j, deviceID)
  {
    if j > 0 {
      UnrevokedIsBalance(h, states, events, j - 1, deviceID);
      assert StepAt(h, states, events, j - 1);
      StepBalances(h, states[j - 1], events[j - 1], deviceID);
    }
  }

  /** The condition of `OnceOnlyIff` is needed: two requests that both check before either spends are both accepted. */
  lemma BothChecksPass(h: Hash, id: Identity, a: string, r: string, now: Time) returns (states: seq<World>, events: seq<Event>)
    ensures Run(h, states, events) && |events| == 3
    ensures PassesAt(h, states, events, 1, r) && PassesAt(h, states, events, 2, r) && !OnceOnly(h, states, events, r)
  {
    var w0 := World(Relay(map[], map[], {}, map[]), map[]);
    var w1 := w0.(relay := Issue(h, w0.relay, id.domainID, id.deviceID, a, r, now));
    var w2 := Check(h, w1, 0, r, now);
    var w3 := Check(h, w2, 1, r, now);
    events := [Issues(id, a, r, now), Checks(0, r, now), Checks(1, r, now)];
    states := [w0, w1, w2, w3];
    assert StepAt(h, states, events, 0) && StepAt(h, states, events, 1) && StepAt(h, states, events, 2);
    assert PassesAt(h, states, events, 1, r) && PassesAt(h, states, events, 2, r);
  }
}
