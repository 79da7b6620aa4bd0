/** Two parties with an established session and a channel between them that may drop, duplicate, reorder,
    reflect or alter envelopes: whatever is handed to `Decrypt` is up to the channel. The AEAD is
    idealised by a log of everything sealed; it opens exactly what is in the log. */
module Channel {
  import opened GoStrings
  import opened JsonText
  import opened Crypto
  import opened Handshake
  import opened Envelope

  datatype Sealed = Sealed(key: string, nonce: string, plaintext: string, aad: string, ciphertext: string)

  ghost predicate Matches(x: Sealed, key: string, nonce: string, ciphertext: string, aad: string) {
    x.key == key && x.nonce == nonce && x.ciphertext == ciphertext && x.aad == aad
  }

  ghost function Opened(log: seq<Sealed>, key: string, nonce: string, ciphertext: string, aad: string): Option<string> {
    if exists i :: 0 <= i < |log| && Matches(log[i], key, nonce, ciphertext, aad) then
      var i :| 0 <= i < |log| && Matches(log[i], key, nonce, ciphertext, aad);
      Some(log[i].plaintext)
    else None
  }

  /** One `Encrypt` that succeeded, with the number of the call that made it. */
  datatype Sent = Sent(envelope: SecureEnvelope, payload: string, call: nat)

  /** One `Decrypt` that returned a payload. */
  datatype Got = Got(envelope: SecureEnvelope, payload: string)

  datatype Party = Party(session: Session, sent: seq<Sent>, got: seq<Got>, calls: nat)

  datatype World = World(a: Party, b: Party, log: seq<Sealed>)

  datatype Action =
    | Confirm                                                            // `VerifyReady` accepts
    | Encrypt(messageID: string, payloadType: string, route: Route, plaintext: string)
    | Deliver(envelope: SecureEnvelope)                                  // any envelope at all

  datatype Event = Event(atA: bool, action: Action)

  /** The party after its action and what the action sealed. */
  ghost function Act(c: Scheme, log: seq<Sealed>, q: Party, action: Action): (Party, seq<Sealed>) {
    match action
    case Confirm => (q.(session := q.session.(ready := true)), [])
    case Encrypt(messageID, payloadType, route, plaintext) =>
      var (s, env) := Encrypted(c, q.session, messageID, payloadType, route, plaintext);
      var calls := if q.session.ready then q.calls + 1 else q.calls;
      if env.None? then (q.(session := s, calls := calls), [])
      else (q.(session := s, calls := calls, sent := q.sent + [Sent(env.value, plaintext, q.calls)]),
            [SealedIn(c, q.session.sendKey, env.value, plaintext)])
    case Deliver(env) =>
      var open := (k, n, c, a) => Opened(log, k, n, c, a);
      var (s, payload) := Decrypted(c, open, q.session, env);
      if payload.None? then (q.(session := s), [])
      else (q.(session := s, got := q.got + [Got(env, payload.value)]), [])
  }

  /** The tuple a sent envelope was sealed as. */
  ghost function SealedIn(c: Scheme, key: string, env: SecureEnvelope, plaintext: string): Sealed {
    var aad := match c.aad(env) case Some(x) => x case None => "";
    var nonce := Nonce(env.sequence);
    Sealed(key, nonce, plaintext, aad, c.p.seal(key, nonce, plaintext, aad))
  }

  ghost function Step(c: Scheme, w: World, e: Event): World {
    if e.atA then
      var (a, sealed) := Act(c, w.log, w.a, e.action);
      World(a, w.b, w.log + sealed)
    else
      var (b, sealed) := Act(c, w.log, w.b, e.action);
      World(w.a, b, w.log + sealed)
  }

  ghost function Run(c: Scheme, w: World, events: seq<Event>): World
    decreases |events|
  {
    if events == [] then w else Run(c, Step(c, w, events[0]), events[1..])
  }

  /** Two sessions whose keys cross over, as key confirmation makes sure. */
  ghost predicate Mirrored(a: Session, b: Session) {
    && a.sendKey == b.receiveKey && a.receiveKey == b.sendKey && a.sendKey != b.sendKey
    && a.local == b.peer && a.peer == b.local && a.sessionID == b.sessionID && a.domainID == b.domainID
  }

  ghost predicate Fresh(s: Session) {
    !s.ready && s.sendSeq == 0 && s.seen == {}
  }

  ghost function Start(a: Session, b: Session): World {
    World(Party(a, [], [], 0), Party(b, [], [], 0), [])
  }

  // ----- what every step keeps -----

  /** A sent envelope carries its session's header, its call number as sequence number, and the sealed
      payload; the log has it. */
  ghost predicate SentWell(c: Scheme, log: seq<Sealed>, q: Party, x: Sent) {
    && x.call < q.calls
    && x.envelope.sequence == x.call % UINT64
    && x.envelope.sequence <= INT64_MAX
    && x.envelope.nonce == c.p.base64(Nonce(x.envelope.sequence))
    && x.envelope.typ == TYPE_ENVELOPE && x.envelope.sender == q.session.local && x.envelope.recipient == q.session.peer
    && x.envelope.sessionID == q.session.sessionID && x.envelope.domainID == q.session.domainID
    && x.envelope.ciphertext == c.p.base64(SealedIn(c, q.session.sendKey, x.envelope, x.payload).ciphertext)
    && SealedIn(c, q.session.sendKey, x.envelope, x.payload) in log
  }

  ghost predicate AllSentWell(c: Scheme, log: seq<Sealed>, q: Party) {
    forall i | 0 <= i < |q.sent| :: SentWell(c, log, q, q.sent[i])
  }

  /** Calls are numbered in order. */
  ghost predicate CallsIncrease(q: Party) {
    && (forall i, j | 0 <= i < j < |q.sent| :: q.sent[i].call < q.sent[j].call)
    && q.session.sendSeq == q.calls % UINT64
  }

  /** What was sealed was sealed by `Encrypt`. */
  ghost predicate FromSent(c: Scheme, q: Party, x: Sealed) {
    exists i :: 0 <= i < |q.sent| && x == SealedIn(c, q.session.sendKey, q.sent[i].envelope, q.sent[i].payload)
  }

  /** The same envelope, perhaps with its ciphertext encoded differently, and the same payload. */
  ghost predicate Delivers(x: Sent, y: Got) {
    x.payload == y.payload && x.envelope == y.envelope.(ciphertext := x.envelope.ciphertext)
  }

  ghost predicate CameFrom(sender: Party, y: Got) {
    exists i :: 0 <= i < |sender.sent| && Delivers(sender.sent[i], y)
  }

  ghost predicate AllGotWell(sender: Party, receiver: Party) {
    && (forall j | 0 <= j < |receiver.got| ::
          receiver.got[j].envelope.sequence in receiver.session.seen && CameFrom(sender, receiver.got[j]))
    && (forall j, k | 0 <= j < k < |receiver.got| ::
          receiver.got[j].envelope.sequence != receiver.got[k].envelope.sequence)
  }

  ghost predicate Idle(q: Party) {
    !q.session.ready ==> q.sent == [] && q.got == [] && q.calls == 0
  }

  ghost predicate PairInv(c: Scheme, log: seq<Sealed>, q: Party, r: Party) {
    && Mirrored(q.session, r.session)
    && AllSentWell(c, log, q) && AllSentWell(c, log, r)
    && CallsIncrease(q) && CallsIncrease(r)
    && AllFromSent(c, log, q, r)
    && AllGotWell(q, r) && AllGotWell(r, q)
    && Idle(q) && Idle(r)
  }

  ghost predicate Inv(c: Scheme, w: World) {
    PairInv(c, w.log, w.a, w.b)
  }

  lemma StartInv(c: Scheme, a: Session, b: Session)
    requires Mirrored(a, b) && Fresh(a) && Fresh(b)
    ensures Inv(c, Start(a, b))
  {
  }

  lemma EncryptedFacts(c: Scheme, s: Session, messageID: string, payloadType: string, route: Route, plaintext: string)
    requires BindsHeaders(c) && Encrypted(c, s, messageID, payloadType, route, plaintext).1.Some?
    ensures var (t, env) := Encrypted(c, s, messageID, payloadType, route, plaintext);
            && s.ready && t == AfterSend(s)
            && env.value == Header(c.p, s, messageID, payloadType, route).(ciphertext := env.value.ciphertext)
            && env.value.sequence <= INT64_MAX
            && env.value.ciphertext == c.p.base64(SealedIn(c, s.sendKey, env.value, plaintext).ciphertext)
  {
    var header := Header(c.p, s, messageID, payloadType, route);
    var env := Encrypted(c, s, messageID, payloadType, route, plaintext).1.value;
    assert header.(ciphertext := "") == env.(ciphertext := "");
  }

  lemma CounterStep(calls: nat, sendSeq: uint64)
    requires sendSeq == calls % UINT64
    ensures (sendSeq + 1) % UINT64 == (calls + 1) % UINT64
  {
  }

  lemma AllSentWellGrows(c: Scheme, log: seq<Sealed>, more: seq<Sealed>, q: Party, q': Party)
    requires AllSentWell(c, log, q)
    requires q'.sent == q.sent && q'.calls >= q.calls && SameNames(q.session, q'.session)
    ensures AllSentWell(c, log + more, q')
  {
    forall i | 0 <= i < |q'.sent| ensures SentWell(c, log + more, q', q'.sent[i]) {
      assert SentWell(c, log, q, q.sent[i]);
    }
  }

  /** The fields `Establish` fixes for good. */
  ghost predicate SameNames(s: Session, t: Session) {
    && s.sendKey == t.sendKey && s.receiveKey == t.receiveKey && s.local == t.local && s.peer == t.peer
    && s.sessionID == t.sessionID && s.domainID == t.domainID
  }

  ghost predicate AllFromSent(c: Scheme, log: seq<Sealed>, q: Party, r: Party) {
    forall i | 0 <= i < |log| :: FromSent(c, q, log[i]) || FromSent(c, r, log[i])
  }

  lemma FromSentGrows(c: Scheme, q: Party, q': Party, x: Sealed)
    requires FromSent(c, q, x) && q.sent <= q'.sent && q.session.sendKey == q'.session.sendKey
    ensures FromSent(c, q', x)
  {
    var i :| 0 <= i < |q.sent| && x == SealedIn(c, q.session.sendKey, q.sent[i].envelope, q.sent[i].payload);
    assert q'.sent[i] == q.sent[i];
  }

  lemma AllFromSentGrows(c: Scheme, log: seq<Sealed>, q: Party, q': Party, r: Party)
    requires AllFromSent(c, log, q, r) && q.sent <= q'.sent && q.session.sendKey == q'.session.sendKey
    ensures AllFromSent(c, log, q', r)
  {
    forall i | 0 <= i < |log| ensures FromSent(c, q', log[i]) || FromSent(c, r, log[i]) {
      if FromSent(c, q, log[i]) { FromSentGrows(c, q, q', log[i]); }
    }
  }

  lemma AllGotWellGrows(sender: Party, sender': Party, receiver: Party)
    requires AllGotWell(sender, receiver) && sender.sent <= sender'.sent
    ensures AllGotWell(sender', receiver)
  {
    forall j | 0 <= j < |receiver.got| ensures CameFrom(sender', receiver.got[j]) {
      var i :| 0 <= i < |sender.sent| && Delivers(sender.sent[i], receiver.got[j]);
      assert Delivers(sender'.sent[i], receiver.got[j]);
    }
  }

  /** A party that sent nothing new and whose counter and names moved consistently. */
  lemma NothingSent(c: Scheme, log: seq<Sealed>, q: Party, q': Party, r: Party)
    requires PairInv(c, log, q, r)
    requires q'.sent == q.sent && q'.calls >= q.calls && SameNames(q.session, q'.session)
    requires q'.session.sendSeq == q'.calls % UINT64
    requires AllGotWell(r, q') && Idle(q')
    ensures PairInv(c, log, q', r)
  {
    AllSentWellGrows(c, log, [], q, q');
    assert log + [] == log;
    AllFromSentGrows(c, log, q, q', r);
    AllGotWellGrows(q, q', r);
  }

  lemma SentOne(c: Scheme, log: seq<Sealed>, q: Party, q': Party, r: Party, x: Sent, sealed: Sealed)
    requires PairInv(c, log, q, r) && q.session.ready
    requires q' == q.(session := AfterSend(q.session), calls := q.calls + 1, sent := q.sent + [x])
    requires sealed == SealedIn(c, q.session.sendKey, x.envelope, x.payload)
    requires x.call == q.calls && SentWell(c, log + [sealed], q', x)
    ensures PairInv(c, log + [sealed], q', r)
  {
    CounterStep(q.calls, q.session.sendSeq);
    AllSentWellGrows(c, log, [sealed], q, q'.(sent := q.sent));
    SentOneSentWell(c, log + [sealed], q', q.sent, x);
    AllSentWellGrows(c, log, [sealed], r, r);
    AllFromSentGrows(c, log, q, q', r);
    assert q'.sent[|q.sent|] == x;
    assert FromSent(c, q', sealed);
    AllFromSentOne(c, log, sealed, q', r);
    AllGotWellGrows(q, q', r);
    SentOneCalls(c, log + [sealed], q, q', x);
  }

  lemma SentOneSentWell(c: Scheme, log: seq<Sealed>, q': Party, sent: seq<Sent>, x: Sent)
    requires AllSentWell(c, log, q'.(sent := sent)) && q'.sent == sent + [x] && SentWell(c, log, q', x)
    ensures AllSentWell(c, log, q')
  {
    forall i | 0 <= i < |q'.sent| ensures SentWell(c, log, q', q'.sent[i]) {
      if i < |sent| { assert SentWell(c, log, q'.(sent := sent), sent[i]); }
    }
  }

  lemma SentOneCalls(c: Scheme, log: seq<Sealed>, q: Party, q': Party, x: Sent)
    requires CallsIncrease(q) && AllSentWell(c, log, q')
    requires q'.sent == q.sent + [x] && x.call == q.calls && q'.session.sendSeq == q'.calls % UINT64
    requires forall i | 0 <= i < |q.sent| :: q.sent[i].call < q.calls
    ensures CallsIncrease(q')
  {
  }

  lemma AllFromSentOne(c: Scheme, log: seq<Sealed>, sealed: Sealed, q: Party, r: Party)
    requires AllFromSent(c, log, q, r) && FromSent(c, q, sealed)
    ensures AllFromSent(c, log + [sealed], q, r)
  {
  }

  lemma EncryptKeeps(c: Scheme, log: seq<Sealed>, q: Party, r: Party, action: Action)
    requires BindsHeaders(c) && PairInv(c, log, q, r) && action.Encrypt?
    ensures var (q', sealed) := Act(c, log, q, action); PairInv(c, log + sealed, q', r)
  {
    var (q', sealed) := Act(c, log, q, action);
    var (s, env) := Encrypted(c, q.session, action.messageID, action.payloadType, action.route, action.plaintext);
    if env.Some? {
      EncryptedFacts(c, q.session, action.messageID, action.payloadType, action.route, action.plaintext);
      var x := Sent(env.value, action.plaintext, q.calls);
      SentOne(c, log, q, q', r, x, SealedIn(c, q.session.sendKey, env.value, action.plaintext));
    } else {
      assert log + sealed == log;
      CounterStep(q.calls, q.session.sendSeq);
      NothingSent(c, log, q, q', r);
    }
  }

  /** What the idealised AEAD opens under the receiving key, the peer sealed. */
  lemma OpenedFacts(c: Scheme, log: seq<Sealed>, q: Party, r: Party, e: SecureEnvelope, nonce: string, ciphertext: string)
    requires BindsHeaders(c) && AllFromSent(c, log, q, r) && AllSentWell(c, log, r) && Mirrored(q.session, r.session)
    requires c.aad(e).Some?
    requires Opened(log, q.session.receiveKey, nonce, ciphertext, c.aad(e).value).Some?
    ensures CameFrom(r, Got(e, Opened(log, q.session.receiveKey, nonce, ciphertext, c.aad(e).value).value))
  {
    var aad := c.aad(e).value;
    var payload := Opened(log, q.session.receiveKey, nonce, ciphertext, aad).value;
    var k :| 0 <= k < |log| && Matches(log[k], q.session.receiveKey, nonce, ciphertext, aad) && log[k].plaintext == payload;
    assert FromSent(c, r, log[k]);
    var i :| 0 <= i < |r.sent| && log[k] == SealedIn(c, r.session.sendKey, r.sent[i].envelope, r.sent[i].payload);
    assert SentWell(c, log, r, r.sent[i]);
    assert c.aad(r.sent[i].envelope) == Some(aad);
    assert Delivers(r.sent[i], Got(e, payload));
  }

  lemma DeliverKeeps(c: Scheme, log: seq<Sealed>, q: Party, r: Party, action: Action)
    requires BindsHeaders(c) && PairInv(c, log, q, r) && action.Deliver?
    ensures var (q', sealed) := Act(c, log, q, action); sealed == [] && PairInv(c, log, q', r)
  {
    var e := action.envelope;
    var open := (k, n, x, a) => Opened(log, k, n, x, a);
    var (s, payload) := Decrypted(c, open, q.session, e);
    var q' := Act(c, log, q, action).0;
    if payload.Some? {
      OpenedFacts(c, log, q, r, e, c.p.unbase64(e.nonce).value, c.p.unbase64(e.ciphertext).value);
      GotOne(r, q, q', Got(e, payload.value));
    }
    NothingSent(c, log, q, q', r);
  }

  lemma GotOne(r: Party, q: Party, q': Party, y: Got)
    requires AllGotWell(r, q) && CameFrom(r, y) && y.envelope.sequence !in q.session.seen
    requires q'.got == q.got + [y] && q'.session.seen == q.session.seen + {y.envelope.sequence}
    ensures AllGotWell(r, q')
  {
  }

  lemma ActKeeps(c: Scheme, log: seq<Sealed>, q: Party, r: Party, action: Action)
    requires BindsHeaders(c) && PairInv(c, log, q, r)
    ensures var (q', sealed) := Act(c, log, q, action); PairInv(c, log + sealed, q', r)
  {
    var (q', sealed) := Act(c, log, q, action);
    match action
    case Confirm =>
      assert log + sealed == log;
      NothingSent(c, log, q, q', r);
    case Encrypt(_, _, _, _) => EncryptKeeps(c, log, q, r, action);
    case Deliver(_) =>
      DeliverKeeps(c, log, q, r, action);
      assert log + sealed == log;
  }

  lemma PairInvSymmetric(c: Scheme, log: seq<Sealed>, q: Party, r: Party)
    requires PairInv(c, log, q, r)
    ensures PairInv(c, log, r, q)
  {
  }

  lemma StepKeeps(c: Scheme, w: World, e: Event)
    requires BindsHeaders(c) && Inv(c, w)
    ensures Inv(c, Step(c, w, e))
  {
    if e.atA {
      ActKeeps(c, w.log, w.a, w.b, e.action);
    } else {
      PairInvSymmetric(c, w.log, w.a, w.b);
      ActKeeps(c, w.log, w.b, w.a, e.action);
      var (b, sealed) := Act(c, w.log, w.b, e.action);
      PairInvSymmetric(c, w.log + sealed, b, w.a);
    }
  }

  lemma {:induction false} RunKeeps(c: Scheme, w: World, events: seq<Event>)
    requires BindsHeaders(c) && Inv(c, w)
    ensures Inv(c, Run(c, w, events))
    decreases |events|
  {
    if events != [] {
      StepKeeps(c, w, events[0]);
      RunKeeps(c, Step(c, w, events[0]), events[1..]);
    }
  }

  // ----- the guarantees -----

  /** A run of the code over two sessions that key confirmation made. */
  ghost function RunFrom(p: Provider, a: Session, b: Session, events: seq<Event>): World {
    Run(Real(p), Start(a, b), events)
  }

  lemma RunInv(p: Provider, a: Session, b: Session, events: seq<Event>)
    requires Mirrored(a, b) && Fresh(a) && Fresh(b)
    ensures Inv(Real(p), RunFrom(p, a, b, events))
  {
    RealBindsHeaders(p);
    StartInv(Real(p), a, b);
    RunKeeps(Real(p), Start(a, b), events);
  }

  /** Each payload returned is a payload the peer sent under the same header, and no two are the same
      message: `origin` gives for each the peer's `Encrypt` it came from. */
  ghost predicate OneToOne(sender: Party, receiver: Party, origin: seq<nat>) {
    && |origin| == |receiver.got|
    && (forall j | 0 <= j < |origin| :: origin[j] < |sender.sent| && Delivers(sender.sent[origin[j]], receiver.got[j]))
    && (forall j, k | 0 <= j < k < |origin| :: origin[j] != origin[k])
  }

  lemma {:induction false} OriginsFor(sender: Party, receiver: Party, upTo: nat) returns (origin: seq<nat>)
    requires AllGotWell(sender, receiver) && upTo <= |receiver.got|
    ensures |origin| == upTo
    ensures forall j | 0 <= j < upTo :: origin[j] < |sender.sent| && Delivers(sender.sent[origin[j]], receiver.got[j])
  {
    if upTo == 0 {
      origin := [];
    } else {
      origin := OriginsFor(sender, receiver, upTo - 1);
      assert CameFrom(sender, receiver.got[upTo - 1]);
      var i :| 0 <= i < |sender.sent| && Delivers(sender.sent[i], receiver.got[upTo - 1]);
      origin := origin + [i];
    }
  }

  lemma GotOneToOne(sender: Party, receiver: Party)
    requires AllGotWell(sender, receiver)
    ensures exists origin :: OneToOne(sender, receiver, origin)
  {
    var origin := OriginsFor(sender, receiver, |receiver.got|);
    assert OneToOne(sender, receiver, origin);
  }

  /** In every run, whatever the channel does, the payloads each side is given map one-to-one into the
      peer's `Encrypt` calls with the same header fields, and nothing is sent or delivered by a side that
      has not accepted the peer's ready message. */
  lemma DeliveredAtMostOnceAndOnlyIfSent(p: Provider, a: Session, b: Session, events: seq<Event>)
    requires Mirrored(a, b) && Fresh(a) && Fresh(b)
    ensures var w := RunFrom(p, a, b, events);
            && (exists origin :: OneToOne(w.a, w.b, origin))
            && (exists origin :: OneToOne(w.b, w.a, origin))
            && (!w.a.session.ready ==> w.a.sent == [] && w.a.got == [])
            && (!w.b.session.ready ==> w.b.sent == [] && w.b.got == [])
  {
    RunInv(p, a, b, events);
    var w := RunFrom(p, a, b, events);
    GotOneToOne(w.a, w.b);
    GotOneToOne(w.b, w.a);
  }

  /** Key confirmation gives sessions that mirror each other, so the guarantees hold for every run that
      follows a handshake between devices with different IDs. */
  lemma ConfirmedSessionsMirror(p: Provider, sideA: Side, a: Session, sideB: Side, b: Session, devB: Device)
    requires CollisionFree(p) && Correct(p)
    requires Holds(p, sideA, a) && Holds(p, sideB, b)
    requires Confirmed(p, a, b, sideA.remoteID, devB)
    requires a.local != a.peer
    ensures Mirrored(a, b) && Fresh(a) && Fresh(b)
  {
    ReadyAgreement(p, sideA, a, sideB, b, devB);
  }

  /** Two sealings under one key use the same nonce exactly when their calls are a multiple of 2^64 apart;
      the two directions never share a key; and no sealed sequence number reaches 2^63. */
  lemma NonceReuseIff(p: Provider, a: Session, b: Session, events: seq<Event>)
    requires Mirrored(a, b) && Fresh(a) && Fresh(b)
    ensures var w := RunFrom(p, a, b, events);
            && w.a.session.sendKey != w.b.session.sendKey
            && NoncesByCall(w.a) && NoncesByCall(w.b)
  {
    RunInv(p, a, b, events);
    var w := RunFrom(p, a, b, events);
    NoncesFollowCalls(Real(p), w.log, w.a);
    NoncesFollowCalls(Real(p), w.log, w.b);
  }

  ghost predicate NoncesByCall(q: Party) {
    && (forall i, j | 0 <= i < j < |q.sent| :: q.sent[i].call < q.sent[j].call < q.calls)
    && (forall i, j | 0 <= i < j < |q.sent| ::
          Nonce(q.sent[i].envelope.sequence) == Nonce(q.sent[j].envelope.sequence)
          <==> q.sent[i].call % UINT64 == q.sent[j].call % UINT64)
    && (forall i | 0 <= i < |q.sent| :: q.sent[i].envelope.sequence < 0x8000_0000_0000_0000)
  }

  lemma NoncesFollowCalls(c: Scheme, log: seq<Sealed>, q: Party)
    requires AllSentWell(c, log, q) && CallsIncrease(q)
    ensures NoncesByCall(q)
  {
    forall i | 0 <= i < |q.sent| ensures q.sent[i].call < q.calls && q.sent[i].envelope.sequence <= INT64_MAX
                                      && q.sent[i].envelope.sequence == q.sent[i].call % UINT64 {
      assert SentWell(c, log, q, q.sent[i]);
    }
    forall i, j | 0 <= i < j < |q.sent|
      ensures Nonce(q.sent[i].envelope.sequence) == Nonce(q.sent[j].envelope.sequence)
              <==> q.sent[i].call % UINT64 == q.sent[j].call % UINT64
    {
      if Nonce(q.sent[i].envelope.sequence) == Nonce(q.sent[j].envelope.sequence) {
        NonceInjective(q.sent[i].envelope.sequence, q.sent[j].envelope.sequence);
      }
    }
  }

  ghost predicate NoncesDiffer(q: Party) {
    forall i, j | 0 <= i < j < |q.sent| :: Nonce(q.sent[i].envelope.sequence) != Nonce(q.sent[j].envelope.sequence)
  }

  /** In every run with up to 2^64 calls of `NextSend` on a side, that side never uses a nonce twice under its key. */
  lemma NoncesUnique(p: Provider, a: Session, b: Session, events: seq<Event>)
    requires Mirrored(a, b) && Fresh(a) && Fresh(b)
    ensures var w := RunFrom(p, a, b, events);
            && (w.a.calls <= UINT64 ==> NoncesDiffer(w.a))
            && (w.b.calls <= UINT64 ==> NoncesDiffer(w.b))
  {
    NonceReuseIff(p, a, b, events);
    var w := RunFrom(p, a, b, events);
    if w.a.calls <= UINT64 { CallsTellApart(w.a); }
    if w.b.calls <= UINT64 { CallsTellApart(w.b); }
  }

  lemma CallsTellApart(q: Party)
    requires NoncesByCall(q) && q.calls <= UINT64
    ensures NoncesDiffer(q)
  {
    forall i, j | 0 <= i < j < |q.sent| ensures q.sent[i].call % UINT64 != q.sent[j].call % UINT64 {
      assert q.sent[i].call < q.sent[j].call < UINT64;
    }
  }

  // ----- which genuine envelopes are accepted -----

  function SideOf(w: World, atA: bool): Party {
    if atA then w.a else w.b
  }

  /** The side has accepted the peer's ready message before event k. */
  ghost predicate ReadyBy(events: seq<Event>, atA: bool, k: nat) {
    exists i :: 0 <= i < k && i < |events| && events[i] == Event(atA, Confirm)
  }

  /** Event k hands the side, when it is ready, an envelope whose header fits its session and has this number. Nothing is
      said about the ciphertext. */
  ghost predicate Spends(s: Session, events: seq<Event>, atA: bool, k: nat, number: uint64) {
    && k < |events| && events[k].atA == atA && events[k].action.Deliver?
    && Addressed(s, events[k].action.envelope) && events[k].action.envelope.sequence == number
    && ReadyBy(events, atA, k)
  }

  ghost predicate Spent(s: Session, events: seq<Event>, atA: bool, number: uint64) {
    exists k :: Spends(s, events, atA, k, number)
  }

  lemma {:induction false} RunSnoc(c: Scheme, w: World, events: seq<Event>, e: Event)
    ensures Run(c, w, events + [e]) == Step(c, Run(c, w, events), e)
    decreases |events|
  {
    if events == [] {
      assert ([] + [e])[1..] == [];
    } else {
      assert (events + [e])[1..] == events[1..] + [e] && (events + [e])[0] == events[0];
      RunSnoc(c, Step(c, w, events[0]), events[1..], e);
    }
  }

  /** What a session keeps through every action. */
  ghost predicate SameBinding(s: Session, t: Session) {
    s.sessionID == t.sessionID && s.domainID == t.domainID && s.local == t.local && s.peer == t.peer
  }

  /** What one action does to a side's ready flag and to the numbers it has seen. */
  lemma ActMarks(c: Scheme, log: seq<Sealed>, q: Party, action: Action)
    ensures var s, t := q.session, Act(c, log, q, action).0.session;
            && SameBinding(s, t)
            && t.ready == (s.ready || action.Confirm?)
            && t.seen == s.seen + (if action.Deliver? && s.ready && Addressed(s, action.envelope)
                                   then {action.envelope.sequence} else {})
  {
  }

  lemma ReadySnoc(events: seq<Event>, e: Event, atA: bool, k: nat)
    requires k <= |events|
    ensures ReadyBy(events + [e], atA, k) <==> ReadyBy(events, atA, k)
    ensures ReadyBy(events + [e], atA, |events| + 1) <==> ReadyBy(events, atA, |events|) || e == Event(atA, Confirm)
  {
    var all, n := events + [e], |events|;
    assert all[n] == e && forall i | 0 <= i < n :: all[i] == events[i];
    if ReadyBy(events, atA, k) {
      var i :| 0 <= i < k && i < n && events[i] == Event(atA, Confirm);
      assert all[i] == Event(atA, Confirm);
    }
    if ReadyBy(events, atA, n) {
      var i :| 0 <= i < n && events[i] == Event(atA, Confirm);
      assert all[i] == Event(atA, Confirm);
    }
  }

  /** The event hands the side an envelope with a fitting header and this number. */
  predicate Hands(s: Session, e: Event, atA: bool, number: uint64) {
    e.atA == atA && e.action.Deliver? && Addressed(s, e.action.envelope) && e.action.envelope.sequence == number
  }

  lemma SpentSnoc(s: Session, events: seq<Event>, e: Event, atA: bool, number: uint64)
    ensures Spent(s, events + [e], atA, number)
       <==> Spent(s, events, atA, number) || (Hands(s, e, atA, number) && ReadyBy(events, atA, |events|))
  {
    var all, n := events + [e], |events|;
    assert all[n] == e && forall i | 0 <= i < n :: all[i] == events[i];
    if Spent(s, events, atA, number) {
      var k: nat :| Spends(s, events, atA, k, number);
      ReadySnoc(events, e, atA, k);
      assert Spends(s, all, atA, k, number);
    }
    if Spent(s, all, atA, number) {
      var k: nat :| Spends(s, all, atA, k, number);
      ReadySnoc(events, e, atA, k);
      if k < n { assert Spends(s, events, atA, k, number); }
    }
    if Hands(s, e, atA, number) && ReadyBy(events, atA, n) {
      ReadySnoc(events, e, atA, n);
      assert Spends(s, all, atA, n, number);
    }
  }

  /** The numbers a side has seen are exactly those that were handed to it, in a fitting header, while it was ready. */
  lemma {:induction false} SeenAreSpent(
    p: Provider, a: Session, b: Session, events: seq<Event>, atA: bool, number: uint64)
    requires Fresh(a) && Fresh(b)
    ensures var s, t := if atA then a else b, SideOf(RunFrom(p, a, b, events), atA).session;
            && SameBinding(s, t)
            && (t.ready <==> ReadyBy(events, atA, |events|))
            && (number in t.seen <==> Spent(s, events, atA, number))
    decreases |events|
  {
    if events != [] {
      var n := |events| - 1;
      var before, e, s := events[..n], events[n], if atA then a else b;
      assert events == before + [e];
      SeenAreSpent(p, a, b, before, atA, number);
      RunSnoc(Real(p), Start(a, b), before, e);
      ReadySnoc(before, e, atA, n);
      SpentSnoc(s, before, e, atA, number);
      var w := RunFrom(p, a, b, before);
      if e.atA == atA { ActMarks(Real(p), w.log, SideOf(w, atA), e.action); }
    }
  }

  /** What a side has been given once the envelope is delivered to it at the end of the run. */
  ghost function GotAfter(p: Provider, w: World, atA: bool, envelope: SecureEnvelope): seq<Got> {
    SideOf(Step(Real(p), w, Event(atA, Deliver(envelope))), atA).got
  }

  /** A genuine envelope, one that the peer sent, unaltered, is accepted with the payload that was sent exactly when the side
      is ready and no envelope with its number has been handed to it in a fitting header since it became ready; otherwise
      nothing is delivered. This holds in both directions of every run. */
  lemma GenuineAcceptedIff(p: Provider, a: Session, b: Session, events: seq<Event>, atA: bool, i: nat)
    requires Mirrored(a, b) && Fresh(a) && Fresh(b) && Correct(p) && Recoverable(p)
    requires i < |SideOf(RunFrom(p, a, b, events), !atA).sent|
    ensures var w := RunFrom(p, a, b, events);
            var x, got := SideOf(w, !atA).sent[i], SideOf(w, atA).got;
            GotAfter(p, w, atA, x.envelope)
            == if ReadyBy(events, atA, |events|) && !Spent(if atA then a else b, events, atA, x.envelope.sequence)
               then got + [Got(x.envelope, x.payload)] else got
  {
    var w := RunFrom(p, a, b, events);
    var q, r := SideOf(w, !atA), SideOf(w, atA);
    RunInv(p, a, b, events);
    RealBindsHeaders(p);
    if atA { PairInvSymmetric(Real(p), w.log, w.a, w.b); }
    SeenAreSpent(p, a, b, events, atA, q.sent[i].envelope.sequence);
    if r.session.ready && q.sent[i].envelope.sequence !in r.session.seen {
      GenuineAccepted(Real(p), w.log, q, r, i);
    }
  }

  lemma GenuineAccepted(c: Scheme, log: seq<Sealed>, q: Party, r: Party, i: nat)
    requires BindsHeaders(c) && Correct(c.p) && Recoverable(c.p) && PairInv(c, log, q, r) && i < |q.sent|
    requires r.session.ready && q.sent[i].envelope.sequence !in r.session.seen
    ensures var x := q.sent[i]; Act(c, log, r, Deliver(x.envelope)).0.got == r.got + [Got(x.envelope, x.payload)]
  {
    var x := q.sent[i];
    assert SentWell(c, log, q, x);
    var y := SealedIn(c, q.session.sendKey, x.envelope, x.payload);
    assert Some(y.aad) == c.aad(x.envelope);
    assert c.p.unbase64(x.envelope.nonce) == Some(y.nonce);
    assert c.p.unbase64(x.envelope.ciphertext) == Some(y.ciphertext);
    GenuineOpens(c, log, q, r, i);
  }

  lemma GenuineOpens(c: Scheme, log: seq<Sealed>, q: Party, r: Party, i: nat)
    requires PairInv(c, log, q, r) && Recoverable(c.p) && i < |q.sent|
    ensures var y := SealedIn(c, q.session.sendKey, q.sent[i].envelope, q.sent[i].payload);
            Opened(log, r.session.receiveKey, y.nonce, y.ciphertext, y.aad) == Some(q.sent[i].payload)
  {
    var x := q.sent[i];
    assert SentWell(c, log, q, x);
    var y := SealedIn(c, q.session.sendKey, x.envelope, x.payload);
    var k :| 0 <= k < |log| && log[k] == y;
    assert Matches(log[k], r.session.receiveKey, y.nonce, y.ciphertext, y.aad);
    forall m | 0 <= m < |log| && Matches(log[m], r.session.receiveKey, y.nonce, y.ciphertext, y.aad)
      ensures log[m].plaintext == x.payload
    {
      assert FromSent(c, q, log[m]);
      var j :| 0 <= j < |q.sent| && log[m] == SealedIn(c, q.session.sendKey, q.sent[j].envelope, q.sent[j].payload);
    }
  }

  /** A text longer than every ciphertext of the log, so none of them. */
  ghost function Unsealed(log: seq<Sealed>): (t: string)
    ensures forall y | y in log :: |y.ciphertext| < |t|
  {
    if log == [] then ""
    else
      var last := log[|log| - 1];
      assert log == log[..|log| - 1] + [last];
      Unsealed(log[..|log| - 1]) + last.ciphertext + "."
  }

  /** The envelope with a ciphertext that nobody sealed. */
  ghost function Forged(p: Provider, log: seq<Sealed>, e: SecureEnvelope): SecureEnvelope {
    e.(ciphertext := p.base64(Unsealed(log)))
  }

  lemma ForgeryOpensNothing(c: Scheme, log: seq<Sealed>, q: Party, e: SecureEnvelope)
    requires Correct(c.p)
    ensures Act(c, log, q, Deliver(Forged(c.p, log, e))).0.got == q.got
  {
    var forged := Forged(c.p, log, e);
    assert c.p.unbase64(forged.ciphertext) == Some(Unsealed(log));
    forall i, key, nonce, aad | 0 <= i < |log| ensures !Matches(log[i], key, nonce, Unsealed(log), aad) {
      assert log[i] in log;
    }
  }

  /** The number is marked before the ciphertext is authenticated, so a forgery can cost a message: whenever a genuine
      envelope would be accepted, there is one with the same header that delivers nothing and after which the genuine one
      delivers nothing either. */
  lemma ForgeryCostsTheMessage(p: Provider, a: Session, b: Session, events: seq<Event>, atA: bool, i: nat)
    requires Mirrored(a, b) && Fresh(a) && Fresh(b) && Correct(p) && Recoverable(p)
    requires i < |SideOf(RunFrom(p, a, b, events), !atA).sent| && ReadyBy(events, atA, |events|)
    ensures var w := RunFrom(p, a, b, events);
            var x := SideOf(w, !atA).sent[i].envelope;
            var forged := Event(atA, Deliver(Forged(p, w.log, x)));
            var after := RunFrom(p, a, b, events + [forged]);
            SideOf(after, atA).got == SideOf(w, atA).got && GotAfter(p, after, atA, x) == SideOf(w, atA).got
  {
    var w := RunFrom(p, a, b, events);
    var x, s := SideOf(w, !atA).sent[i].envelope, if atA then a else b;
    var forged := Event(atA, Deliver(Forged(p, w.log, x)));
    RunSnoc(Real(p), Start(a, b), events, forged);
    ForgeryOpensNothing(Real(p), w.log, SideOf(w, atA), x);
    RunInv(p, a, b, events);
    SeenAreSpent(p, a, b, events, atA, x.sequence);
    assert SentWell(Real(p), w.log, SideOf(w, !atA), SideOf(w, !atA).sent[i]);
    assert Hands(s, forged, atA, x.sequence);
    SpentSnoc(s, events, forged, atA, x.sequence);
    GenuineAcceptedIff(p, a, b, events + [forged], atA, i);
  }
}
