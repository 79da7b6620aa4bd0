/** Secure envelopes (`pkg/iscp/envelope`): sequence-numbered AEAD messages over an established session,
    as steps on the contents of a session state. */
module Envelope {
  import opened GoStrings
  import opened JsonText
  import opened Json
  import opened JsonFields
  import opened Canonical
  import opened Crypto
  import opened Handshake

  const TYPE_ENVELOPE := "iscp.secure_envelope.v2"

  type int64 = x: int | INT64_MIN <= x <= INT64_MAX

  datatype Route = Route(relayID: string, ttlSeconds: int64, priority: int64)

  datatype SecureEnvelope = SecureEnvelope(
    typ: string, domainID: string, messageID: string, sessionID: string, sender: string, recipient: string,
    sequence: uint64, nonce: string, payloadType: string, route: Route, ciphertext: string)

  // ----- nonces -----

  /** `binary.BigEndian.PutUint64` into the last `width` bytes. */
  function BigEndian(n: nat, width: nat): (s: string)
    ensures |s| == width
  {
    if width == 0 then "" else BigEndian(n / 256, width - 1) + [(n % 256) as char]
  }

  /** Twelve bytes: four zeros and the sequence number. */
  function Nonce(seq_: uint64): string {
    "\0\0\0\0" + BigEndian(seq_, 8)
  }

  lemma {:induction false} BigEndianInjective(m: nat, n: nat, width: nat)
    requires BigEndian(m, width) == BigEndian(n, width)
    requires m < Power256(width) && n < Power256(width)
    ensures m == n
  {
    if width > 0 {
      var s, t := BigEndian(m, width), BigEndian(n, width);
      assert s[..width - 1] == BigEndian(m / 256, width - 1) && t[..width - 1] == BigEndian(n / 256, width - 1);
      assert s[width - 1] == (m % 256) as char && t[width - 1] == (n % 256) as char;
      BigEndianInjective(m / 256, n / 256, width - 1);
    }
  }

  function Power256(width: nat): nat {
    if width == 0 then 1 else 256 * Power256(width - 1)
  }

  lemma NonceInjective(m: uint64, n: uint64)
    requires Nonce(m) == Nonce(n)
    ensures m == n
  {
    assert Nonce(m)[4..] == BigEndian(m, 8) && Nonce(n)[4..] == BigEndian(n, 8);
    assert Power256(8) == UINT64;
    BigEndianInjective(m, n, 8);
  }

  // ----- associated data -----

  function RouteFields(r: Route): Fields {
    [("relay_id", RStr(r.relayID)), ("ttl_seconds", RInt(r.ttlSeconds)), ("priority", RInt(r.priority))]
  }

  /** `json.Marshal` of an envelope. */
  function EnvelopeFields(e: SecureEnvelope): Fields {
    [("type", RStr(e.typ)), ("domain_id", RStr(e.domainID)), ("message_id", RStr(e.messageID)),
     ("session_id", RStr(e.sessionID)), ("sender_device_id", RStr(e.sender)),
     ("recipient_device_id", RStr(e.recipient)), ("sequence", RInt(e.sequence)), ("nonce", RStr(e.nonce)),
     ("payload_type", RStr(e.payloadType)), ("route", RObj(RouteFields(e.route))), ("ciphertext", RStr(e.ciphertext))]
  }

  /** `aad`: the canonical text of the envelope without its ciphertext. */
  ghost function Aad(e: SecureEnvelope): Option<string> {
    Marshal(Encode(RObj(EnvelopeFields(e.(ciphertext := "")))))
  }

  lemma RouteDenotes(r: Route)
    ensures Denote(RObj(RouteFields(r))).Some?
  {
    ObjectDenotes(RouteFields(r));
  }

  lemma EnvelopeDenotes(e: SecureEnvelope)
    ensures Denote(RObj(EnvelopeFields(e))).Some? <==> e.sequence <= INT64_MAX
  {
    assert DistinctNames(EnvelopeFields(e));
    EnvelopeFieldsDenote(e);
    ObjectDenotes(EnvelopeFields(e));
  }

  lemma EnvelopeFieldsDenote(e: SecureEnvelope)
    ensures AllDenote(EnvelopeFields(e)) <==> e.sequence <= INT64_MAX
  {
    RouteDenotes(e.route);
    var f := EnvelopeFields(e);
    assert Denote(f[6].1).Some? <==> e.sequence <= INT64_MAX;
  }

  /** Sequence numbers from 2^63 up have no associated data: the strict parser only takes 64-bit signed
      integers. All others do. */
  lemma AadExists(e: SecureEnvelope)
    ensures Aad(e).Some? <==> e.sequence < 0x8000_0000_0000_0000
  {
    EnvelopeDenotes(e.(ciphertext := ""));
    MarshalEncoded(RObj(EnvelopeFields(e.(ciphertext := ""))));
  }

  lemma RouteFieldsInjective(a: Route, b: Route)
    requires Denote(RObj(RouteFields(a))) == Denote(RObj(RouteFields(b)))
    ensures a == b
  {
    RouteDenotes(a);
    SameObjectSameFields(RouteFields(a), RouteFields(b), 0);
    SameObjectSameFields(RouteFields(a), RouteFields(b), 1);
    SameObjectSameFields(RouteFields(a), RouteFields(b), 2);
  }

  lemma EnvelopeFieldsInjective(a: SecureEnvelope, b: SecureEnvelope)
    requires Denote(RObj(EnvelopeFields(a))).Some?
    requires Denote(RObj(EnvelopeFields(a))) == Denote(RObj(EnvelopeFields(b)))
    ensures a == b
  {
    var f, g := EnvelopeFields(a), EnvelopeFields(b);
    forall i | 0 <= i < 11 ensures Denote(f[i].1) == Denote(g[i].1) { SameObjectSameFields(f, g, i); }
    EnvelopeDenotes(a);
    EnvelopeDenotes(b);
    EnvelopeScalarFields(a, b);
    assert Denote(f[9].1) == Denote(g[9].1);
    RouteFieldsInjective(a.route, b.route);
  }

  lemma EnvelopeScalarFields(a: SecureEnvelope, b: SecureEnvelope)
    requires forall i | 0 <= i < 11 :: Denote(EnvelopeFields(a)[i].1) == Denote(EnvelopeFields(b)[i].1)
    requires a.sequence <= INT64_MAX && b.sequence <= INT64_MAX
    ensures a == b.(route := a.route)
  {
    var f, g := EnvelopeFields(a), EnvelopeFields(b);
    assert Denote(f[0].1) == Denote(g[0].1) && Denote(f[1].1) == Denote(g[1].1) && Denote(f[2].1) == Denote(g[2].1);
    assert Denote(f[3].1) == Denote(g[3].1) && Denote(f[4].1) == Denote(g[4].1) && Denote(f[5].1) == Denote(g[5].1);
    assert Denote(f[6].1) == Denote(g[6].1) && Denote(f[7].1) == Denote(g[7].1) && Denote(f[8].1) == Denote(g[8].1);
    assert Denote(f[10].1) == Denote(g[10].1);
  }

  /** The associated data binds every header field. */
  lemma AadBinds(a: SecureEnvelope, b: SecureEnvelope)
    requires Aad(a).Some? && Aad(a) == Aad(b)
    ensures a == b.(ciphertext := a.ciphertext)
  {
    var x, y := a.(ciphertext := ""), b.(ciphertext := "");
    MarshalEncoded(RObj(EnvelopeFields(x)));
    MarshalEncoded(RObj(EnvelopeFields(y)));
    CanonicalDocumentsEqual(RObj(EnvelopeFields(x)), RObj(EnvelopeFields(y)));
    EnvelopeFieldsInjective(x, y);
  }

  // ----- sealing and opening -----

  function Header(p: Provider, s: Session, messageID: string, payloadType: string, route: Route): SecureEnvelope {
    SecureEnvelope(TYPE_ENVELOPE, s.domainID, messageID, s.sessionID, s.local, s.peer, s.sendSeq,
                   p.base64(Nonce(s.sendSeq)), payloadType, route, "")
  }

  /** `NextSend`: the counter wraps around at 2^64. */
  function AfterSend(s: Session): Session {
    s.(sendSeq := (s.sendSeq + 1) % UINT64)
  }

  /** The primitives and how associated data is formed; `Real` forms it as the code does. */
  datatype Scheme = Scheme(p: Provider, aad: SecureEnvelope -> Option<string>)

  ghost function Real(p: Provider): Scheme {
    Scheme(p, Aad)
  }

  /** All that the channel relies on: which envelopes have associated data, and that it covers everything
      but the ciphertext. */
  ghost predicate BindsHeaders(c: Scheme) {
    && (forall e :: c.aad(e).Some? <==> e.sequence <= INT64_MAX)
    && (forall e, f :: c.aad(e).Some? && c.aad(e) == c.aad(f) ==> e == f.(ciphertext := e.ciphertext))
    && (forall e: SecureEnvelope, f: SecureEnvelope :: e == f.(ciphertext := e.ciphertext) ==> c.aad(e) == c.aad(f))
  }

  lemma RealBindsHeaders(p: Provider)
    ensures BindsHeaders(Real(p))
  {
    var c := Real(p);
    forall e ensures c.aad(e).Some? <==> e.sequence <= INT64_MAX { AadExists(e); }
    forall e, f | c.aad(e).Some? && c.aad(e) == c.aad(f) ensures e == f.(ciphertext := e.ciphertext) { AadBinds(e, f); }
    forall e: SecureEnvelope, f: SecureEnvelope | e == f.(ciphertext := e.ciphertext) ensures c.aad(e) == c.aad(f) {
      assert e.(ciphertext := "") == f.(ciphertext := "");
    }
  }

  /** `Encrypt`: the session afterwards, and the envelope unless it was refused. A sequence number is
      used up even when the associated data cannot be formed. */
  ghost function Encrypted(
    c: Scheme, s: Session, messageID: string, payloadType: string, route: Route, plaintext: string)
    : (Session, Option<SecureEnvelope>)
  {
    if !s.ready then (s, None)
    else
      var header := Header(c.p, s, messageID, payloadType, route);
      match c.aad(header)
      case None => (AfterSend(s), None)
      case Some(aad) =>
        (AfterSend(s), Some(header.(ciphertext := c.p.base64(c.p.seal(s.sendKey, Nonce(s.sendSeq), plaintext, aad)))))
  }

  predicate Addressed(s: Session, e: SecureEnvelope) {
    && e.typ == TYPE_ENVELOPE && e.sessionID == s.sessionID && e.domainID == s.domainID
    && e.sender == s.peer && e.recipient == s.local
  }

  /** The AEAD's `Open`: key, nonce, ciphertext, associated data. */
  type Opener = (string, string, string, string) -> Option<string>

  /** `Decrypt`: the session afterwards, and the payload unless it was refused. The sequence number is
      marked as received before the ciphertext is authenticated. */
  ghost function Decrypted(c: Scheme, open: Opener, s: Session, e: SecureEnvelope): (Session, Option<string>) {
    if !s.ready || !Addressed(s, e) || e.sequence in s.seen then (s, None)
    else
      var marked := s.(seen := s.seen + {e.sequence});
      var nonce, ciphertext, aad := c.p.unbase64(e.nonce), c.p.unbase64(e.ciphertext), c.aad(e);
      if nonce.None? || ciphertext.None? || aad.None? then (marked, None)
      else (marked, open(s.receiveKey, nonce.value, ciphertext.value, aad.value))
  }
}
