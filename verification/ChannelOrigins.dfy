/** Which calls the envelopes of a run come from: every envelope that is sent, and every payload that is delivered, is traced to
    the `Encrypt` call of the run that asked for it, with that call's message ID, payload type, route and payload. */
module ChannelOrigins {
  import opened GoStrings
  import opened Json
  import opened JsonFields
  import opened Canonical
  import opened Crypto
  import opened Handshake
  import opened Envelope
  import opened Channel

  // ----- from calls to envelopes -----

  /** Event k calls `Encrypt` at the side after it accepted the peer's ready message. */
  ghost predicate EncryptsAt(events: seq<Event>, atA: bool, k: nat) {
    k < |events| && events[k].atA == atA && events[k].action.Encrypt? && ReadyBy(events, atA, k)
  }

  /** How many such calls there are before event k. */
  ghost function CallsBefore(events: seq<Event>, atA: bool, k: nat): nat {
    if k == 0 then 0 else CallsBefore(events, atA, k - 1) + if EncryptsAt(events, atA, k - 1) then 1 else 0
  }

  lemma {:induction false} CallsBeforeSnoc(events: seq<Event>, e: Event, atA: bool, k: nat)
    requires k <= |events|
    ensures CallsBefore(events + [e], atA, k) == CallsBefore(events, atA, k)
  {
    if k > 0 {
      CallsBeforeSnoc(events, e, atA, k - 1);
      EncryptsSnoc(events, e, atA, k - 1);
    }
  }

  lemma EncryptsSnoc(events: seq<Event>, e: Event, atA: bool, k: nat)
    requires k < |events|
    ensures EncryptsAt(events + [e], atA, k) <==> EncryptsAt(events, atA, k)
  {
    ReadySnoc(events, e, atA, k);
  }

  /** The call's number modulo 2^64 fits a signed 64-bit integer, as the associated data needs. */
  predicate Numbered(call: nat) {
    call % 0x1_0000_0000_0000_0000 < 0x8000_0000_0000_0000
  }

  /** The envelope carries what the call asked for, under the names of the session and the call's number. */
  ghost predicate Answers(p: Provider, s: Session, action: Action, call: nat, x: Sent) {
    && action == Encrypt(x.envelope.messageID, x.envelope.payloadType, x.envelope.route, x.payload)
    && x.call == call && x.envelope.sequence == call % 0x1_0000_0000_0000_0000
    && x.envelope.nonce == p.base64(Nonce(x.envelope.sequence))
    && x.envelope.typ == "iscp.secure_envelope.v2"
    && x.envelope.sessionID == s.sessionID && x.envelope.domainID == s.domainID
    && x.envelope.sender == s.local && x.envelope.recipient == s.peer
  }

  /** One action sends at most one envelope: a call of `Encrypt` while ready sends one, unless its number is 2^63 or more. */
  lemma ActSends(p: Provider, log: seq<Sealed>, q: Party, action: Action)
    requires q.session.sendSeq == q.calls % UINT64
    ensures var q', called := Act(Real(p), log, q, action).0, action.Encrypt? && q.session.ready;
            && q'.calls == q.calls + (if called then 1 else 0)
            && q'.session.sendSeq == q'.calls % UINT64
            && if called && Numbered(q.calls)
               then exists x :: q'.sent == q.sent + [x] && Answers(p, q.session, action, q.calls, x)
               else q'.sent == q.sent
  {
    if action.Encrypt? && q.session.ready {
      CounterStep(q.calls, q.session.sendSeq);
      AadExists(Header(p, q.session, action.messageID, action.payloadType, action.route));
      var env := Encrypted(Real(p), q.session, action.messageID, action.payloadType, action.route, action.plaintext).1;
      if env.Some? {
        assert Answers(p, q.session, action, q.calls, Sent(env.value, action.plaintext, q.calls));
      }
    }
  }

  /** `at[i]` is the event that the i-th envelope answers; the events come in order, and every call that can be numbered is one
      of them. */
  ghost predicate SentAt(p: Provider, s: Session, events: seq<Event>, atA: bool, q: Party, at: seq<nat>) {
    && |at| == |q.sent|
    && (forall i, j | 0 <= i < j < |at| :: at[i] < at[j])
    && (forall i | 0 <= i < |at| ::
          EncryptsAt(events, atA, at[i]) && Answers(p, s, events[at[i]].action, CallsBefore(events, atA, at[i]), q.sent[i]))
    && (forall k: nat | EncryptsAt(events, atA, k) && Numbered(CallsBefore(events, atA, k)) :: k in at)
  }

  lemma SentAtSnoc(p: Provider, s: Session, events: seq<Event>, e: Event, atA: bool, q: Party, q': Party, at: seq<nat>)
    requires SentAt(p, s, events, atA, q, at) && q'.sent == q.sent
    requires EncryptsAt(events + [e], atA, |events|) ==> !Numbered(CallsBefore(events, atA, |events|))
    ensures SentAt(p, s, events + [e], atA, q', at)
  {
    forall i | 0 <= i < |at|
      ensures EncryptsAt(events + [e], atA, at[i])
           && Answers(p, s, (events + [e])[at[i]].action, CallsBefore(events + [e], atA, at[i]), q'.sent[i])
    {
      EncryptsSnoc(events, e, atA, at[i]);
      CallsBeforeSnoc(events, e, atA, at[i]);
    }
    forall k: nat | EncryptsAt(events + [e], atA, k) && Numbered(CallsBefore(events + [e], atA, k))
      ensures k in at
    {
      CallsBeforeSnoc(events, e, atA, k);
      if k < |events| { EncryptsSnoc(events, e, atA, k); }
    }
  }

  lemma SentAtMore(
    p: Provider, s: Session, events: seq<Event>, e: Event, atA: bool, q: Party, q': Party, x: Sent, at: seq<nat>)
    requires SentAt(p, s, events, atA, q, at) && q'.sent == q.sent + [x]
    requires EncryptsAt(events + [e], atA, |events|) && Answers(p, s, e.action, CallsBefore(events, atA, |events|), x)
    ensures SentAt(p, s, events + [e], atA, q', at + [|events|])
  {
    var more := at + [|events|];
    CallsBeforeSnoc(events, e, atA, |events|);
    forall i | 0 <= i < |more|
      ensures EncryptsAt(events + [e], atA, more[i])
           && Answers(p, s, (events + [e])[more[i]].action, CallsBefore(events + [e], atA, more[i]), q'.sent[i])
    {
      if i < |at| {
        assert EncryptsAt(events, atA, at[i]);
        EncryptsSnoc(events, e, atA, at[i]);
        CallsBeforeSnoc(events, e, atA, at[i]);
      }
    }
    forall k: nat | EncryptsAt(events + [e], atA, k) && Numbered(CallsBefore(events + [e], atA, k))
      ensures k in more
    {
      if k == |events| {
        assert more[|at|] == k;
      } else {
        EncryptsSnoc(events, e, atA, k);
        CallsBeforeSnoc(events, e, atA, k);
        var i :| 0 <= i < |at| && at[i] == k;
        assert more[i] == k;
      }
    }
  }

  lemma AnswersSameNames(p: Provider, s: Session, t: Session, action: Action, call: nat, x: Sent)
    requires Answers(p, t, action, call, x) && SameBinding(s, t)
    ensures Answers(p, s, action, call, x)
  {
  }

  /** A side's counters say how many calls there were. */
  ghost predicate Counted(s: Session, events: seq<Event>, atA: bool, q: Party) {
    && q.calls == CallsBefore(events, atA, |events|) && q.session.sendSeq == q.calls % UINT64
    && SameBinding(s, q.session) && (q.session.ready <==> ReadyBy(events, atA, |events|))
  }

  lemma SentStep(p: Provider, s: Session, events: seq<Event>, e: Event, atA: bool, w: World, at: seq<nat>) returns (more: seq<nat>)
    requires SentAt(p, s, events, atA, SideOf(w, atA), at) && Counted(s, events, atA, SideOf(w, atA))
    ensures SentAt(p, s, events + [e], atA, SideOf(Step(Real(p), w, e), atA), more)
    ensures SideOf(Step(Real(p), w, e), atA).calls == CallsBefore(events + [e], atA, |events| + 1)
    ensures SideOf(Step(Real(p), w, e), atA).session.sendSeq == SideOf(Step(Real(p), w, e), atA).calls % UINT64
  {
    var q, q' := SideOf(w, atA), SideOf(Step(Real(p), w, e), atA);
    CallsBeforeSnoc(events, e, atA, |events|);
    ReadySnoc(events, e, atA, |events|);
    if e.atA == atA { ActSends(p, w.log, q, e.action); }
    if q'.sent == q.sent {
      SentAtSnoc(p, s, events, e, atA, q, q', at);
      more := at;
    } else {
      var x :| q'.sent == q.sent + [x] && Answers(p, q.session, e.action, q.calls, x);
      AnswersSameNames(p, s, q.session, e.action, q.calls, x);
      SentAtMore(p, s, events, e, atA, q, q', x, at);
      more := at + [|events|];
    }
  }

  /** Every envelope of a run answers one call of `Encrypt`, in order, and the n-th call gets the number n modulo 2^64, or no
      envelope when that is 2^63 or more. */
  lemma {:induction false} SentAnswersCalls(p: Provider, a: Session, b: Session, events: seq<Event>, atA: bool) returns (at: seq<nat>)
    requires Fresh(a) && Fresh(b)
    ensures SentAt(p, if atA then a else b, events, atA, SideOf(RunFrom(p, a, b, events), atA), at)
    ensures Counted(if atA then a else b, events, atA, SideOf(RunFrom(p, a, b, events), atA))
    decreases |events|
  {
    SeenAreSpent(p, a, b, events, atA, 0);
    if events == [] {
      at := [];
    } else {
      var n, s := |events| - 1, if atA then a else b;
      var before, e := events[..n], events[n];
      assert events == before + [e];
      at := SentAnswersCalls(p, a, b, before, atA);
      RunSnoc(Real(p), Start(a, b), before, e);
      at := SentStep(p, s, before, e, atA, RunFrom(p, a, b, before), at);
    }
  }

  // ----- from calls to deliveries -----

  /** `from[j]` is the peer's call of `Encrypt` whose payload the j-th delivery is: with the message ID, payload type and route of
      the envelope that was handed over, for this session and this recipient. No call is delivered twice. */
  ghost predicate DeliversCalls(s: Session, events: seq<Event>, atA: bool, got: seq<Got>, from: seq<nat>) {
    && |from| == |got|
    && (forall j, k | 0 <= j < k < |from| :: from[j] != from[k])
    && (forall j | 0 <= j < |from| :: DeliversCall(s, events, atA, got[j], from[j]))
  }

  ghost predicate DeliversCall(s: Session, events: seq<Event>, atA: bool, y: Got, k: nat) {
    && EncryptsAt(events, !atA, k)
    && events[k].action == Encrypt(y.envelope.messageID, y.envelope.payloadType, y.envelope.route, y.payload)
    && y.envelope.sequence == CallsBefore(events, !atA, k) % 0x1_0000_0000_0000_0000
    && y.envelope.typ == "iscp.secure_envelope.v2" && y.envelope.sessionID == s.sessionID && y.envelope.domainID == s.domainID
    && y.envelope.sender == s.peer && y.envelope.recipient == s.local
  }

  /** In every run, whatever the channel does, each payload a side is given is the payload of one `Encrypt` call of its peer, made
      after the peer was ready, under the header that this call asked for, and no call is delivered twice. */
  lemma DeliveriesAreCalls(p: Provider, a: Session, b: Session, events: seq<Event>, atA: bool)
    requires Mirrored(a, b) && Fresh(a) && Fresh(b)
    ensures var s, got := if atA then a else b, SideOf(RunFrom(p, a, b, events), atA).got;
            exists from :: DeliversCalls(s, events, atA, got, from)
  {
    var w := RunFrom(p, a, b, events);
    var s, q, r := if atA then a else b, SideOf(w, !atA), SideOf(w, atA);
    DeliveredAtMostOnceAndOnlyIfSent(p, a, b, events);
    var origin :| OneToOne(q, r, origin);
    var at := SentAnswersCalls(p, a, b, events, !atA);
    var from := seq(|origin|, j requires 0 <= j < |origin| => at[origin[j]]);
    forall j | 0 <= j < |from| ensures DeliversCall(s, events, atA, r.got[j], from[j]) {
      assert Delivers(q.sent[origin[j]], r.got[j]);
      assert EncryptsAt(events, !atA, at[origin[j]]);
    }
    ComposeInjective(origin, at, from);
    assert DeliversCalls(s, events, atA, r.got, from);
  }

  lemma ComposeInjective(origin: seq<nat>, at: seq<nat>, from: seq<nat>)
    requires |from| == |origin| && forall j | 0 <= j < |origin| :: origin[j] < |at| && from[j] == at[origin[j]]
    requires forall j, k | 0 <= j < k < |origin| :: origin[j] != origin[k]
    requires forall i, j | 0 <= i < j < |at| :: at[i] < at[j]
    ensures forall j, k | 0 <= j < k < |from| :: from[j] != from[k]
  {
    forall j, k | 0 <= j < k < |from| ensures from[j] != from[k] {
      assert origin[j] != origin[k];
    }
  }

  /** An envelope of another type, session or domain, from anyone but the peer, or to anyone but this side, changes nothing. */
  lemma MisaddressedIgnored(c: Scheme, log: seq<Sealed>, q: Party, e: SecureEnvelope)
    requires || e.typ != "iscp.secure_envelope.v2" || e.sessionID != q.session.sessionID || e.domainID != q.session.domainID
             || e.sender != q.session.peer || e.recipient != q.session.local
    ensures Act(c, log, q, Deliver(e)) == (q, [])
  {
  }

  // ----- nonces and associated data, written out -----

  /** The number that bytes stand for, the most significant first. */
  ghost function Number(bytes: string): nat {
    if bytes == "" then 0 else Number(bytes[..|bytes| - 1]) * 256 + bytes[|bytes| - 1] as int
  }

  lemma {:induction false} BigEndianNumber(n: nat, width: nat)
    requires n < Power256(width)
    ensures Number(BigEndian(n, width)) == n
  {
    if width > 0 {
      BigEndianNumber(n / 256, width - 1);
      assert BigEndian(n, width)[..width - 1] == BigEndian(n / 256, width - 1);
    }
  }

  /** A nonce is twelve bytes: four zeros, then the sequence number in eight bytes, the most significant first. */
  lemma NonceBytes(n: uint64)
    ensures |Nonce(n)| == 12 && Nonce(n)[..4] == "\0\0\0\0" && Number(Nonce(n)[4..]) == n
  {
    assert Power256(8) == UINT64;
    BigEndianNumber(n, 8);
    assert Nonce(n)[4..] == BigEndian(n, 8);
  }

  /** The JSON members of an envelope's associated data. */
  ghost predicate EnvelopeMembers(e: SecureEnvelope, m: map<string, Value>) {
    && m.Keys == {"type", "domain_id", "message_id", "session_id", "sender_device_id", "recipient_device_id", "sequence", "nonce",
                  "payload_type", "route", "ciphertext"}
    && m["type"] == Str(e.typ) && m["domain_id"] == Str(e.domainID) && m["message_id"] == Str(e.messageID)
    && m["session_id"] == Str(e.sessionID) && m["sender_device_id"] == Str(e.sender)
    && m["recipient_device_id"] == Str(e.recipient) && m["sequence"] == Int(e.sequence) && m["nonce"] == Str(e.nonce)
    && m["payload_type"] == Str(e.payloadType) && m["ciphertext"] == Str("")
    && m["route"].Obj? && RouteMembers(e.route, m["route"].members)
  }

  ghost predicate RouteMembers(r: Route, m: map<string, Value>) {
    && m.Keys == {"relay_id", "ttl_seconds", "priority"}
    && m["relay_id"] == Str(r.relayID) && m["ttl_seconds"] == Int(r.ttlSeconds) && m["priority"] == Int(r.priority)
  }

  lemma RouteWritten(r: Route)
    ensures Denote(RObj(RouteFields(r))).Some? && RouteMembers(r, Denote(RObj(RouteFields(r))).value.members)
  {
    var f := RouteFields(r);
    RouteDenotes(r);
    FieldsDenote(f);
    assert f[0].0 == "relay_id" && f[1].0 == "ttl_seconds" && f[2].0 == "priority";
  }

  lemma EnvelopeKeys(e: SecureEnvelope)
    requires Denote(RObj(EnvelopeFields(e))).Some?
    ensures Denote(RObj(EnvelopeFields(e))).value.members.Keys
         == {"type", "domain_id", "message_id", "session_id", "sender_device_id", "recipient_device_id", "sequence", "nonce",
             "payload_type", "route", "ciphertext"}
  {
    var f := EnvelopeFields(e);
    assert f[0].0 == "type" && f[1].0 == "domain_id" && f[2].0 == "message_id" && f[3].0 == "session_id";
    assert f[4].0 == "sender_device_id" && f[5].0 == "recipient_device_id" && f[6].0 == "sequence" && f[7].0 == "nonce";
    assert f[8].0 == "payload_type" && f[9].0 == "route" && f[10].0 == "ciphertext";
    NamesAre(f, {"type", "domain_id", "message_id", "session_id", "sender_device_id", "recipient_device_id", "sequence", "nonce",
                 "payload_type", "route", "ciphertext"});
  }

  lemma EnvelopeNames(e: SecureEnvelope, m: map<string, Value>)
    requires Denote(RObj(EnvelopeFields(e))) == Some(Obj(m))
    ensures "type" in m && m["type"] == Str(e.typ) && "domain_id" in m && m["domain_id"] == Str(e.domainID)
    ensures "message_id" in m && m["message_id"] == Str(e.messageID) && "session_id" in m && m["session_id"] == Str(e.sessionID)
    ensures "sender_device_id" in m && m["sender_device_id"] == Str(e.sender)
    ensures "recipient_device_id" in m && m["recipient_device_id"] == Str(e.recipient)
  {
    var f := EnvelopeFields(e);
    FieldsDenote(f);
    assert f[0].0 in m && f[1].0 in m && f[2].0 in m && f[3].0 in m && f[4].0 in m && f[5].0 in m;
  }

  lemma EnvelopeContents(e: SecureEnvelope, m: map<string, Value>)
    requires Denote(RObj(EnvelopeFields(e))) == Some(Obj(m))
    ensures "sequence" in m && m["sequence"] == Int(e.sequence) && "nonce" in m && m["nonce"] == Str(e.nonce)
    ensures "payload_type" in m && m["payload_type"] == Str(e.payloadType)
    ensures "ciphertext" in m && m["ciphertext"] == Str(e.ciphertext)
    ensures "route" in m && Some(m["route"]) == Denote(RObj(RouteFields(e.route)))
  {
    var f := EnvelopeFields(e);
    FieldsDenote(f);
    assert f[6].0 in m && f[7].0 in m && f[8].0 in m && f[9].0 in m && f[10].0 in m;
  }

  /** The associated data of an envelope is the canonical JSON of all its members, with an empty ciphertext. */
  lemma AadWritten(e: SecureEnvelope)
    requires e.sequence < 0x8000_0000_0000_0000
    ensures exists m :: EnvelopeMembers(e, m) && Aad(e) == Some(Print(Obj(m)))
  {
    var plain := e.(ciphertext := "");
    EnvelopeDenotes(plain);
    MarshalEncoded(RObj(EnvelopeFields(plain)));
    var m := Denote(RObj(EnvelopeFields(plain))).value.members;
    EnvelopeKeys(plain);
    EnvelopeNames(plain, m);
    EnvelopeContents(plain, m);
    RouteWritten(e.route);
    assert EnvelopeMembers(e, m);
  }
}
