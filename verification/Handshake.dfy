/** The session handshake (`pkg/iscp/session`): two signed hellos, an X25519 agreement bound to a
    transcript hash, three derived keys, and a ready message that confirms them. */
module Handshake {
  import opened GoStrings
  import opened Json
  import opened JsonFields
  import opened Canonical
  import opened Crypto

  const TYPE_HELLO := "iscp.session.hello.v2"
  const TYPE_READY := "iscp.session.ready.v2"
  const CIPHERSUITE := "ISCP_V2_X25519_HKDF_SHA256_CHACHA20POLY1305"
  const UINT64: int := 0x1_0000_0000_0000_0000

  type uint64 = x: int | 0 <= x < UINT64

  datatype Signature = Signature(alg: string, kid: string, value: string)

  datatype PublicKey = PublicKey(kty: string, use: string, kid: string, public: string)

  datatype Identity = Identity(domainID: string, deviceID: string, publicKey: PublicKey)

  datatype Device = Device(identity: Identity, private: string)

  /** `issuedAt` is the RFC 3339 text of the time. */
  datatype Hello = Hello(
    typ: string, sessionID: string, domainID: string, deviceID: string, peerDeviceID: string,
    ciphersuite: string, ephemeral: string, grantID: string, issuedAt: string, signature: Signature)

  datatype LocalHello = LocalHello(hello: Hello, privateKey: string)

  datatype Ready = Ready(
    typ: string, sessionID: string, deviceID: string, transcriptHash: string, mac: string, signature: Signature)

  /** The contents of a `State`. */
  datatype Session = Session(
    sessionID: string, domainID: string, local: string, peer: string, transcript: string,
    sendKey: string, receiveKey: string, readyKey: string,
    ready: bool, sendSeq: uint64, seen: set<uint64>)

  // ----- what is signed and what is hashed -----

  function SignatureFields(s: Signature): Raw {
    RObj([("alg", RStr(s.alg)), ("kid", RStr(s.kid)), ("value", RStr(s.value))])
  }

  /** `json.Marshal` of a hello: its fields in declaration order. */
  function HelloFields(h: Hello): Fields {
    [("type", RStr(h.typ)), ("session_id", RStr(h.sessionID)), ("domain_id", RStr(h.domainID)),
     ("device_id", RStr(h.deviceID)), ("peer_device_id", RStr(h.peerDeviceID)),
     ("ciphersuite", RStr(h.ciphersuite)), ("ephemeral_public_key", RStr(h.ephemeral)),
     ("grant_id", RStr(h.grantID)), ("issued_at", RStr(h.issuedAt)), ("signature", SignatureFields(h.signature))]
  }

  function ReadyFields(r: Ready): Fields {
    [("type", RStr(r.typ)), ("session_id", RStr(r.sessionID)), ("device_id", RStr(r.deviceID)),
     ("transcript_hash", RStr(r.transcriptHash)), ("ready_mac", RStr(r.mac)),
     ("signature", SignatureFields(r.signature))]
  }

  ghost function HelloInput(h: Hello): Option<string> {
    SignatureInput(TYPE_HELLO, Encode(RObj(HelloFields(h))))
  }

  ghost function ReadyInput(r: Ready): Option<string> {
    SignatureInput(TYPE_READY, Encode(RObj(ReadyFields(r))))
  }

  /** `crypto.Thumbprint` of an identity's key, empty when the key does not decode. */
  function Thumbprint(p: Provider, id: Identity): string {
    match p.unbase64(id.publicKey.public)
    case None => ""
    case Some(key) => p.base64(p.sha256("iscp/v2/thumbprint/" + id.publicKey.kty + ['\0'] + key))
  }

  function SortedHellos(a: Hello, b: Hello): (Hello, Hello) {
    if Before(b.deviceID, a.deviceID) then (b, a) else (a, b)
  }

  function SortedIdentities(a: Identity, b: Identity): (Identity, Identity) {
    if Before(b.deviceID, a.deviceID) then (b, a) else (a, b)
  }

  function TranscriptFields(p: Provider, a: Hello, b: Hello, aID: Identity, bID: Identity): Fields {
    var (h0, h1) := SortedHellos(a, b);
    var (i0, i1) := SortedIdentities(aID, bID);
    [("protocol", RStr("iscp.session.transcript.v2")), ("session_id", RStr(a.sessionID)),
     ("domain_id", RStr(a.domainID)), ("ciphersuite", RStr(CIPHERSUITE)),
     ("hello_a", RObj(HelloFields(h0))), ("hello_b", RObj(HelloFields(h1))),
     ("identity_a", RStr(i0.deviceID)), ("identity_b", RStr(i1.deviceID)),
     ("identity_thumbprint_a", RStr(Thumbprint(p, i0))), ("identity_thumbprint_b", RStr(Thumbprint(p, i1)))]
  }

  lemma HelloDenotes(h: Hello)
    ensures Denote(RObj(HelloFields(h))).Some?
  {
    HelloNamesDistinct(h);
    SignatureDenotes(h.signature);
    ObjectDenotes(HelloFields(h));
  }

  /** Names of the same length have different second characters. */
  lemma HelloNamesDistinct(h: Hello)
    ensures DistinctNames(HelloFields(h))
  {
    var f := HelloFields(h);
    assert |f[0].0| == 4 && |f[1].0| == 10 && |f[4].0| == 14 && |f[5].0| == 11 && |f[6].0| == 20 && |f[7].0| == 8;
    assert |f[2].0| == |f[3].0| == |f[8].0| == |f[9].0| == 9;
    assert f[2].0[1] == 'o' && f[3].0[1] == 'e' && f[8].0[1] == 's' && f[9].0[1] == 'i';
  }

  lemma SignatureDenotes(s: Signature)
    ensures Denote(SignatureFields(s)).Some?
  {
    ObjectDenotes(SignatureFields(s).members);
  }

  lemma ReadyDenotes(r: Ready)
    ensures Denote(RObj(ReadyFields(r))).Some?
  {
    SignatureDenotes(r.signature);
    ObjectDenotes(ReadyFields(r));
  }

  lemma TranscriptDenotes(p: Provider, a: Hello, b: Hello, aID: Identity, bID: Identity)
    ensures Denote(RObj(TranscriptFields(p, a, b, aID, bID))).Some?
  {
    TranscriptNamesDistinct(p, a, b, aID, bID);
    TranscriptFieldsDenote(p, a, b, aID, bID);
    ObjectDenotes(TranscriptFields(p, a, b, aID, bID));
  }

  /** Names of the same length end differently. */
  lemma TranscriptNamesDistinct(p: Provider, a: Hello, b: Hello, aID: Identity, bID: Identity)
    ensures DistinctNames(TranscriptFields(p, a, b, aID, bID))
  {
    var f := TranscriptFields(p, a, b, aID, bID);
    assert |f[0].0| == 8 && |f[1].0| == 10 && |f[2].0| == 9 && |f[3].0| == 11 && |f[4].0| == |f[5].0| == 7;
    assert |f[6].0| == |f[7].0| == 10 && |f[8].0| == |f[9].0| == 21;
    assert f[4].0[6] == 'a' && f[5].0[6] == 'b' && f[8].0[20] == 'a' && f[9].0[20] == 'b';
    assert f[1].0[9] == 'd' && f[6].0[9] == 'a' && f[7].0[9] == 'b';
  }

  lemma TranscriptFieldsDenote(p: Provider, a: Hello, b: Hello, aID: Identity, bID: Identity)
    ensures AllDenote(TranscriptFields(p, a, b, aID, bID))
  {
    HelloDenotes(SortedHellos(a, b).0);
    HelloDenotes(SortedHellos(a, b).1);
  }

  ghost function TranscriptText(p: Provider, a: Hello, b: Hello, aID: Identity, bID: Identity): string {
    TranscriptDenotes(p, a, b, aID, bID);
    Print(Denote(RObj(TranscriptFields(p, a, b, aID, bID))).value)
  }

  /** `TranscriptHash`. */
  ghost function TranscriptHash(p: Provider, a: Hello, b: Hello, aID: Identity, bID: Identity): string {
    p.sha256(TranscriptText(p, a, b, aID, bID))
  }

  // ----- the handshake -----

  const LOW_TO_HIGH := "low-to-high"
  const HIGH_TO_LOW := "high-to-low"

  /** `directionLabels`: the labels of what is sent and what is received. */
  function DirectionLabels(local: string, remote: string): (string, string) {
    if Before(local, remote) then (LOW_TO_HIGH, HIGH_TO_LOW) else (HIGH_TO_LOW, LOW_TO_HIGH)
  }

  const NO_SIGNATURE := Signature("", "", "")

  ghost function CreatedHello(
    p: Provider, dev: Device, ephemeral: string, sessionID: string, peer: string, grantID: string, issuedAt: string)
    : Option<LocalHello>
  {
    var unsigned := Hello(TYPE_HELLO, sessionID, dev.identity.domainID, dev.identity.deviceID, peer, CIPHERSUITE,
                          p.base64(p.xPublic(ephemeral)), grantID, issuedAt, NO_SIGNATURE);
    match HelloInput(unsigned)
    case None => None
    case Some(input) =>
      var sig := Signature("Ed25519", dev.identity.publicKey.kid, p.base64(p.sign(dev.private, input)));
      Some(LocalHello(unsigned.(signature := sig), ephemeral))
  }

  /** A base64url Ed25519 key and signature check out over an input. */
  ghost predicate SignatureHolds(p: Provider, key: string, input: Option<string>, signature: string) {
    && p.unbase64(key).Some? && |p.unbase64(key).value| == KEY_SIZE
    && p.unbase64(signature).Some?
    && input.Some?
    && p.verify(p.unbase64(key).value, input.value, p.unbase64(signature).value)
  }

  /** `VerifyHello`. */
  ghost predicate HelloAccepted(p: Provider, hello: Hello, id: Identity) {
    && hello.typ == TYPE_HELLO
    && hello.deviceID == id.deviceID && hello.domainID == id.domainID
    && hello.ciphersuite == CIPHERSUITE
    && SignatureHolds(p, id.publicKey.public, HelloInput(hello.(signature := NO_SIGNATURE)), hello.signature.value)
  }

  function SharedSecret(p: Provider, private: string, ephemeral: string): Option<string> {
    match p.unbase64(ephemeral)
    case None => None
    case Some(key) => if |key| == KEY_SIZE then p.shared(private, key) else None
  }

  function Derive(p: Provider, secret: string, transcript: string, purpose: string): string {
    p.hkdf(secret, transcript, "iscp/v2/session/" + purpose)
  }

  /** `Establish`. */
  ghost function Established(p: Provider, local: LocalHello, remote: Hello, localID: Identity, remoteID: Identity)
    : Option<Session>
  {
    var secret := SharedSecret(p, local.privateKey, remote.ephemeral);
    if local.hello.sessionID != remote.sessionID || local.hello.domainID != remote.domainID
       || local.hello.peerDeviceID != remote.deviceID || remote.peerDeviceID != local.hello.deviceID
       || !HelloAccepted(p, remote, remoteID) || secret.None?
    then None
    else
      var th := TranscriptHash(p, local.hello, remote, localID, remoteID);
      var (send, receive) := DirectionLabels(local.hello.deviceID, remote.deviceID);
      Some(Session(
        local.hello.sessionID, local.hello.domainID, local.hello.deviceID, remote.deviceID, th,
        Derive(p, secret.value, th, send), Derive(p, secret.value, th, receive), Derive(p, secret.value, th, "ready"),
        false, 0, {}))
  }

  function UnsignedReady(p: Provider, s: Session): Ready {
    Ready(TYPE_READY, s.sessionID, s.local, p.base64(s.transcript), p.base64(ReadyMac(p, s.readyKey, s.local)), NO_SIGNATURE)
  }

  function ReadyMac(p: Provider, readyKey: string, deviceID: string): string {
    p.hmac(readyKey, "ready:" + deviceID)
  }

  /** `CreateReady`. */
  ghost function CreatedReady(p: Provider, s: Session, dev: Device): Option<Ready> {
    match ReadyInput(UnsignedReady(p, s))
    case None => None
    case Some(input) =>
      Some(UnsignedReady(p, s).(
        signature := Signature("Ed25519", dev.identity.publicKey.kid, p.base64(p.sign(dev.private, input)))))
  }

  ghost predicate ReadyBound(p: Provider, s: Session, ready: Ready) {
    && ready.typ == TYPE_READY && ready.sessionID == s.sessionID && ready.deviceID == s.peer
    && p.unbase64(ready.transcriptHash) == Some(s.transcript)
    && p.unbase64(ready.mac) == Some(ReadyMac(p, s.readyKey, ready.deviceID))
  }

  /** `VerifyReady`. */
  ghost predicate ReadyAccepted(p: Provider, s: Session, ready: Ready, remoteID: Identity) {
    && ReadyBound(p, s, ready)
    && SignatureHolds(p, remoteID.publicKey.public, ReadyInput(ready.(signature := NO_SIGNATURE)), ready.signature.value)
  }

  // ----- equal transcripts mean equal views -----

  lemma HelloFieldsInjective(a: Hello, b: Hello)
    requires Denote(RObj(HelloFields(a))) == Denote(RObj(HelloFields(b)))
    ensures a == b
  {
    HelloDenotes(a);
    forall i | 0 <= i < 10 ensures Denote(HelloFields(a)[i].1) == Denote(HelloFields(b)[i].1) {
      SameObjectSameFields(HelloFields(a), HelloFields(b), i);
    }
    HelloTextFieldsInjective(a, b);
    assert Denote(HelloFields(a)[9].1) == Denote(HelloFields(b)[9].1);
    SignatureFieldsInjective(a.signature, b.signature);
  }

  lemma HelloTextFieldsInjective(a: Hello, b: Hello)
    requires forall i | 0 <= i < 9 :: Denote(HelloFields(a)[i].1) == Denote(HelloFields(b)[i].1)
    ensures a == b.(signature := a.signature)
  {
    var fa, fb := HelloFields(a), HelloFields(b);
    assert Denote(fa[0].1) == Denote(fb[0].1) && Denote(fa[1].1) == Denote(fb[1].1) && Denote(fa[2].1) == Denote(fb[2].1);
    assert Denote(fa[3].1) == Denote(fb[3].1) && Denote(fa[4].1) == Denote(fb[4].1) && Denote(fa[5].1) == Denote(fb[5].1);
    assert Denote(fa[6].1) == Denote(fb[6].1) && Denote(fa[7].1) == Denote(fb[7].1) && Denote(fa[8].1) == Denote(fb[8].1);
  }

  lemma SignatureFieldsInjective(a: Signature, b: Signature)
    requires Denote(SignatureFields(a)) == Denote(SignatureFields(b))
    ensures a == b
  {
    SignatureDenotes(a);
    var fa, fb := SignatureFields(a).members, SignatureFields(b).members;
    SameObjectSameFields(fa, fb, 0);
    SameObjectSameFields(fa, fb, 1);
    SameObjectSameFields(fa, fb, 2);
  }

  /** The transcript hash pins down the session, the domain, both hellos and both identities. */
  lemma TranscriptBinds(
    p: Provider, a: Hello, b: Hello, aID: Identity, bID: Identity, c: Hello, d: Hello, cID: Identity, dID: Identity)
    requires CollisionFree(p)
    requires TranscriptHash(p, a, b, aID, bID) == TranscriptHash(p, c, d, cID, dID)
    ensures a.sessionID == c.sessionID && a.domainID == c.domainID
    ensures SortedHellos(a, b) == SortedHellos(c, d)
    ensures var (i0, i1) := SortedIdentities(aID, bID);
            var (j0, j1) := SortedIdentities(cID, dID);
            && i0.deviceID == j0.deviceID && i1.deviceID == j1.deviceID
            && Thumbprint(p, i0) == Thumbprint(p, j0) && Thumbprint(p, i1) == Thumbprint(p, j1)
  {
    assert TranscriptText(p, a, b, aID, bID) == TranscriptText(p, c, d, cID, dID);
    TranscriptFieldsEqual(p, a, b, aID, bID, c, d, cID, dID);
    TranscriptTextFields(p, a, b, aID, bID, c, d, cID, dID);
    TranscriptHellos(p, a, b, aID, bID, c, d, cID, dID);
  }

  lemma CanonicalDocumentsEqual(f: Raw, g: Raw)
    requires Denote(f).Some? && Denote(g).Some?
    requires Print(Denote(f).value) == Print(Denote(g).value)
    ensures Denote(f) == Denote(g)
  {
    MarshalEncoded(f);
    MarshalEncoded(g);
    StrictInt64(Encode(f));
    StrictInt64(Encode(g));
    PrintInjective(Denote(f).value, Denote(g).value);
  }

  lemma TranscriptFieldsEqual(
    p: Provider, a: Hello, b: Hello, aID: Identity, bID: Identity, c: Hello, d: Hello, cID: Identity, dID: Identity)
    requires TranscriptText(p, a, b, aID, bID) == TranscriptText(p, c, d, cID, dID)
    ensures var f, g := TranscriptFields(p, a, b, aID, bID), TranscriptFields(p, c, d, cID, dID);
            forall i | 0 <= i < 10 :: Denote(f[i].1) == Denote(g[i].1)
  {
    var f, g := TranscriptFields(p, a, b, aID, bID), TranscriptFields(p, c, d, cID, dID);
    TranscriptDenotes(p, a, b, aID, bID);
    TranscriptDenotes(p, c, d, cID, dID);
    CanonicalDocumentsEqual(RObj(f), RObj(g));
    forall i | 0 <= i < 10 ensures Denote(f[i].1) == Denote(g[i].1) { SameObjectSameFields(f, g, i); }
  }

  lemma TranscriptHellos(
    p: Provider, a: Hello, b: Hello, aID: Identity, bID: Identity, c: Hello, d: Hello, cID: Identity, dID: Identity)
    requires var f, g := TranscriptFields(p, a, b, aID, bID), TranscriptFields(p, c, d, cID, dID);
             forall i | 0 <= i < 10 :: Denote(f[i].1) == Denote(g[i].1)
    ensures SortedHellos(a, b) == SortedHellos(c, d)
  {
    var f, g := TranscriptFields(p, a, b, aID, bID), TranscriptFields(p, c, d, cID, dID);
    assert Denote(f[4].1) == Denote(g[4].1) && Denote(f[5].1) == Denote(g[5].1);
    HelloFieldsInjective(SortedHellos(a, b).0, SortedHellos(c, d).0);
    HelloFieldsInjective(SortedHellos(a, b).1, SortedHellos(c, d).1);
  }

  lemma TranscriptTextFields(
    p: Provider, a: Hello, b: Hello, aID: Identity, bID: Identity, c: Hello, d: Hello, cID: Identity, dID: Identity)
    requires var f, g := TranscriptFields(p, a, b, aID, bID), TranscriptFields(p, c, d, cID, dID);
             forall i | 0 <= i < 10 :: Denote(f[i].1) == Denote(g[i].1)
    ensures a.sessionID == c.sessionID && a.domainID == c.domainID
    ensures var (i0, i1) := SortedIdentities(aID, bID);
            var (j0, j1) := SortedIdentities(cID, dID);
            && i0.deviceID == j0.deviceID && i1.deviceID == j1.deviceID
            && Thumbprint(p, i0) == Thumbprint(p, j0) && Thumbprint(p, i1) == Thumbprint(p, j1)
  {
    var f, g := TranscriptFields(p, a, b, aID, bID), TranscriptFields(p, c, d, cID, dID);
    assert Denote(f[1].1) == Denote(g[1].1) && Denote(f[2].1) == Denote(g[2].1);
    assert Denote(f[6].1) == Denote(g[6].1) && Denote(f[7].1) == Denote(g[7].1);
    assert Denote(f[8].1) == Denote(g[8].1) && Denote(f[9].1) == Denote(g[9].1);
  }

  // ----- key confirmation -----

  /** One side of a handshake: what it said, what it heard and whom it takes the two for. */
  datatype Side = Side(local: LocalHello, remote: Hello, localID: Identity, remoteID: Identity)

  /** The side established `s` and its hello carries its own identity, as `CreateHello` makes it. */
  ghost predicate Holds(p: Provider, side: Side, s: Session) {
    && Established(p, side.local, side.remote, side.localID, side.remoteID) == Some(s)
    && side.local.hello.deviceID == side.localID.deviceID
  }

  /** `a` accepted the ready message that `b` made. */
  ghost predicate Confirmed(p: Provider, a: Session, b: Session, peerID: Identity, dev: Device) {
    && CreatedReady(p, b, dev).Some?
    && ReadyAccepted(p, a, CreatedReady(p, b, dev).value, peerID)
  }

  lemma BoundFacts(p: Provider, a: Session, b: Session, ready: Ready)
    requires CollisionFree(p) && Correct(p)
    requires ReadyBound(p, a, ready) && ready == UnsignedReady(p, b).(signature := ready.signature)
    ensures a.sessionID == b.sessionID && a.peer == b.local
    ensures a.transcript == b.transcript && a.readyKey == b.readyKey
  {
    assert p.unbase64(ready.transcriptHash) == Some(b.transcript);
    assert p.unbase64(ready.mac) == Some(ReadyMac(p, b.readyKey, b.local));
  }

  lemma ConfirmedFacts(p: Provider, a: Session, b: Session, peerID: Identity, dev: Device)
    requires CollisionFree(p) && Correct(p) && Confirmed(p, a, b, peerID, dev)
    ensures a.sessionID == b.sessionID && a.peer == b.local
    ensures a.transcript == b.transcript && a.readyKey == b.readyKey
  {
    BoundFacts(p, a, b, CreatedReady(p, b, dev).value);
  }

  /** When A accepts a ready message that B made, and the two have different device IDs, they saw the same
      two hellos, agree on session, domain, transcript and both identity keys, and the key each sends
      under is the key the other receives under. */
  lemma ReadyAgreement(
    p: Provider, sideA: Side, a: Session, sideB: Side, b: Session, devB: Device)
    requires CollisionFree(p) && Correct(p)
    requires Holds(p, sideA, a) && Holds(p, sideB, b)
    requires Confirmed(p, a, b, sideA.remoteID, devB)
    requires a.local != a.peer
    ensures a.sessionID == b.sessionID && a.domainID == b.domainID && a.transcript == b.transcript
    ensures a.local == b.peer && a.peer == b.local
    ensures sideA.local.hello == sideB.remote && sideA.remote == sideB.local.hello
    ensures Thumbprint(p, sideA.localID) == Thumbprint(p, sideB.remoteID)
    ensures Thumbprint(p, sideA.remoteID) == Thumbprint(p, sideB.localID)
    ensures a.sendKey == b.receiveKey && a.receiveKey == b.sendKey && a.sendKey != a.receiveKey
  {
    ConfirmedFacts(p, a, b, sideA.remoteID, devB);
    TranscriptBinds(p, sideA.local.hello, sideA.remote, sideA.localID, sideA.remoteID,
                    sideB.local.hello, sideB.remote, sideB.localID, sideB.remoteID);
    BeforeTrichotomy(a.local, a.peer);
    assert a.local == b.peer && a.peer == b.local;
    KeysMirror(p, sideA, a, sideB, b);
    OwnKeysDiffer(p, sideA, a);
  }

  lemma DeriveInjective(p: Provider, s: string, t: string, l: string, u: string, v: string, m: string)
    requires CollisionFree(p)
    requires Derive(p, s, t, l) == Derive(p, u, v, m)
    ensures s == u && t == v && l == m
  {
    var prefix := "iscp/v2/session/";
    assert prefix + l == prefix + m;
    assert l == (prefix + l)[16..] && m == (prefix + m)[16..];
  }

  ghost function Secret(p: Provider, side: Side): string {
    match SharedSecret(p, side.local.privateKey, side.remote.ephemeral)
    case None => ""
    case Some(secret) => secret
  }

  /** Every key of a session is derived from one secret and the transcript. */
  lemma SessionKeys(p: Provider, side: Side, s: Session)
    requires Holds(p, side, s)
    ensures s.sendKey == Derive(p, Secret(p, side), s.transcript, DirectionLabels(s.local, s.peer).0)
    ensures s.receiveKey == Derive(p, Secret(p, side), s.transcript, DirectionLabels(s.local, s.peer).1)
    ensures s.readyKey == Derive(p, Secret(p, side), s.transcript, "ready")
  {
  }

  lemma OwnKeysDiffer(p: Provider, side: Side, s: Session)
    requires CollisionFree(p) && Holds(p, side, s)
    ensures s.sendKey != s.receiveKey
  {
    SessionKeys(p, side, s);
    var (send, receive) := DirectionLabels(s.local, s.peer);
    assert LOW_TO_HIGH[0] != HIGH_TO_LOW[0];
    if s.sendKey == s.receiveKey {
      DeriveInjective(p, Secret(p, side), s.transcript, send, Secret(p, side), s.transcript, receive);
    }
  }

  lemma KeysMirror(p: Provider, sideA: Side, a: Session, sideB: Side, b: Session)
    requires CollisionFree(p)
    requires Holds(p, sideA, a) && Holds(p, sideB, b)
    requires a.readyKey == b.readyKey && a.local == b.peer && a.peer == b.local
    ensures a.local != a.peer ==> a.sendKey == b.receiveKey && a.receiveKey == b.sendKey
    ensures a.local == a.peer ==> a.sendKey == b.sendKey && a.receiveKey == b.receiveKey
  {
    SessionKeys(p, sideA, a);
    SessionKeys(p, sideB, b);
    DeriveInjective(p, Secret(p, sideA), a.transcript, "ready", Secret(p, sideB), b.transcript, "ready");
    BeforeTrichotomy(a.local, a.peer);
  }

  /** The two transcripts of a confirmed handshake name the sides in the same places. */
  lemma ConfirmedHellos(p: Provider, sideA: Side, a: Session, sideB: Side, b: Session, devB: Device)
    requires CollisionFree(p) && Correct(p)
    requires Holds(p, sideA, a) && Holds(p, sideB, b)
    requires Confirmed(p, a, b, sideA.remoteID, devB)
    ensures a.domainID == b.domainID && a.local == b.peer
    ensures SortedHellos(sideA.local.hello, sideA.remote) == SortedHellos(sideB.local.hello, sideB.remote)
  {
    ConfirmedFacts(p, a, b, sideA.remoteID, devB);
    TranscriptBinds(p, sideA.local.hello, sideA.remote, sideA.localID, sideA.remoteID,
                    sideB.local.hello, sideB.remote, sideB.localID, sideB.remoteID);
    BeforeTrichotomy(a.local, a.peer);
  }

  /** After confirmation A sends under the key that B receives under exactly when the two device IDs differ. When they are
      equal, the ready message that A accepted is A's own: hellos with the same ID stay in the order each side names them,
      so only a side with the same local and remote hello, in the same state, can have made it. */
  lemma KeysMirrorIffDistinct(
    p: Provider, sideA: Side, a: Session, sideB: Side, b: Session, devB: Device)
    requires CollisionFree(p) && Correct(p)
    requires Holds(p, sideA, a) && Holds(p, sideB, b)
    requires Confirmed(p, a, b, sideA.remoteID, devB)
    ensures a.sendKey == b.receiveKey <==> a.local != a.peer
    ensures a.local == a.peer ==> a == b && sideA.local.hello == sideB.local.hello && sideA.remote == sideB.remote
  {
    ConfirmedFacts(p, a, b, sideA.remoteID, devB);
    ConfirmedHellos(p, sideA, a, sideB, b, devB);
    KeysMirror(p, sideA, a, sideB, b);
    OwnKeysDiffer(p, sideB, b);
  }

  /** Two ends of one exchange with equal device IDs and different hellos never confirm each other. */
  lemma EqualIDsNeverConfirm(
    p: Provider, sideA: Side, a: Session, sideB: Side, b: Session, devB: Device)
    requires CollisionFree(p) && Correct(p)
    requires Holds(p, sideA, a) && Holds(p, sideB, b)
    requires sideA.local.hello == sideB.remote && sideA.remote == sideB.local.hello
    requires a.local == a.peer && sideA.local.hello != sideA.remote
    ensures !Confirmed(p, a, b, sideA.remoteID, devB)
  {
    if Confirmed(p, a, b, sideA.remoteID, devB) {
      KeysMirrorIffDistinct(p, sideA, a, sideB, b, devB);
      assert false;
    }
  }

  // ----- an undisturbed handshake completes -----

  ghost predicate OwnKey(p: Provider, dev: Device) {
    dev.identity.publicKey.public == p.base64(p.edPublic(dev.private))
  }

  lemma OwnSignatureHolds(p: Provider, dev: Device, input: string)
    requires Correct(p) && OwnKey(p, dev)
    ensures SignatureHolds(p, dev.identity.publicKey.public, Some(input), p.base64(p.sign(dev.private, input)))
  {
    assert p.unbase64(p.base64(p.edPublic(dev.private))) == Some(p.edPublic(dev.private));
    assert p.unbase64(p.base64(p.sign(dev.private, input))) == Some(p.sign(dev.private, input));
  }

  lemma HelloSignable(h: Hello)
    ensures HelloInput(h).Some?
  {
    HelloDenotes(h);
    MarshalEncoded(RObj(HelloFields(h)));
  }

  lemma ReadySignable(r: Ready)
    ensures ReadyInput(r).Some?
  {
    ReadyDenotes(r);
    MarshalEncoded(RObj(ReadyFields(r)));
  }

  lemma HonestHello(
    p: Provider, dev: Device, ephemeral: string, sessionID: string, peer: string, grantID: string, issuedAt: string)
    requires Correct(p) && OwnKey(p, dev)
    ensures var h := CreatedHello(p, dev, ephemeral, sessionID, peer, grantID, issuedAt);
            && h.Some? && HelloAccepted(p, h.value.hello, dev.identity)
            && h.value.hello.sessionID == sessionID && h.value.hello.domainID == dev.identity.domainID
            && h.value.hello.deviceID == dev.identity.deviceID && h.value.hello.peerDeviceID == peer
            && h.value.hello.ephemeral == p.base64(p.xPublic(ephemeral)) && h.value.privateKey == ephemeral
  {
    var unsigned := Hello(TYPE_HELLO, sessionID, dev.identity.domainID, dev.identity.deviceID, peer, CIPHERSUITE,
                          p.base64(p.xPublic(ephemeral)), grantID, issuedAt, NO_SIGNATURE);
    HelloSignable(unsigned);
    var h := CreatedHello(p, dev, ephemeral, sessionID, peer, grantID, issuedAt).value.hello;
    assert h.(signature := NO_SIGNATURE) == unsigned;
    OwnSignatureHolds(p, dev, HelloInput(unsigned).value);
  }

  lemma HonestReady(p: Provider, a: Session, b: Session, devB: Device)
    requires Correct(p) && OwnKey(p, devB)
    requires a.sessionID == b.sessionID && a.peer == b.local && a.transcript == b.transcript && a.readyKey == b.readyKey
    ensures Confirmed(p, a, b, devB.identity, devB)
  {
    ReadySignable(UnsignedReady(p, b));
    var ready := CreatedReady(p, b, devB).value;
    assert ready.(signature := NO_SIGNATURE) == UnsignedReady(p, b);
    OwnSignatureHolds(p, devB, ReadyInput(UnsignedReady(p, b)).value);
    HonestReadyBound(p, a, b, ready);
  }

  lemma HonestReadyBound(p: Provider, a: Session, b: Session, ready: Ready)
    requires Correct(p)
    requires a.sessionID == b.sessionID && a.peer == b.local && a.transcript == b.transcript && a.readyKey == b.readyKey
    requires ready == UnsignedReady(p, b).(signature := ready.signature)
    ensures ReadyBound(p, a, ready)
  {
  }

  lemma TranscriptSymmetric(p: Provider, a: Hello, b: Hello, aID: Identity, bID: Identity)
    requires a.deviceID != b.deviceID && aID.deviceID != bID.deviceID
    requires a.sessionID == b.sessionID && a.domainID == b.domainID
    ensures TranscriptFields(p, a, b, aID, bID) == TranscriptFields(p, b, a, bID, aID)
  {
    BeforeTrichotomy(a.deviceID, b.deviceID);
    BeforeTrichotomy(aID.deviceID, bID.deviceID);
  }

  lemma SecretsMeet(p: Provider, ephA: string, ephB: string)
    requires Correct(p)
    ensures SharedSecret(p, ephA, p.base64(p.xPublic(ephB))).Some?
    ensures SharedSecret(p, ephA, p.base64(p.xPublic(ephB))) == SharedSecret(p, ephB, p.base64(p.xPublic(ephA)))
  {
    assert p.unbase64(p.base64(p.xPublic(ephA))) == Some(p.xPublic(ephA));
    assert p.unbase64(p.base64(p.xPublic(ephB))) == Some(p.xPublic(ephB));
  }

  /** Two devices of one domain that exchange their hellos and ready messages undisturbed both establish
      the session and both accept the other's ready message. */
  lemma HonestHandshake(
    p: Provider, devA: Device, devB: Device, ephA: string, ephB: string, sessionID: string,
    grantA: string, grantB: string, atA: string, atB: string)
    requires Correct(p) && OwnKey(p, devA) && OwnKey(p, devB)
    requires devA.identity.domainID == devB.identity.domainID
    requires devA.identity.deviceID != devB.identity.deviceID
    ensures var ha := CreatedHello(p, devA, ephA, sessionID, devB.identity.deviceID, grantA, atA);
            var hb := CreatedHello(p, devB, ephB, sessionID, devA.identity.deviceID, grantB, atB);
            && ha.Some? && hb.Some?
            && var a := Established(p, ha.value, hb.value.hello, devA.identity, devB.identity);
               var b := Established(p, hb.value, ha.value.hello, devB.identity, devA.identity);
               && a.Some? && b.Some?
               && Confirmed(p, a.value, b.value, devB.identity, devB)
               && Confirmed(p, b.value, a.value, devA.identity, devA)
  {
    HonestHello(p, devA, ephA, sessionID, devB.identity.deviceID, grantA, atA);
    HonestHello(p, devB, ephB, sessionID, devA.identity.deviceID, grantB, atB);
    var ha := CreatedHello(p, devA, ephA, sessionID, devB.identity.deviceID, grantA, atA).value;
    var hb := CreatedHello(p, devB, ephB, sessionID, devA.identity.deviceID, grantB, atB).value;
    HonestSessions(p, ha, hb, devA, devB);
    var a := Established(p, ha, hb.hello, devA.identity, devB.identity).value;
    var b := Established(p, hb, ha.hello, devB.identity, devA.identity).value;
    HonestReady(p, a, b, devB);
    HonestReady(p, b, a, devA);
  }

  lemma HonestSessions(p: Provider, ha: LocalHello, hb: LocalHello, devA: Device, devB: Device)
    requires Correct(p)
    requires HelloAccepted(p, ha.hello, devA.identity) && HelloAccepted(p, hb.hello, devB.identity)
    requires devA.identity.deviceID != devB.identity.deviceID
    requires ha.hello.sessionID == hb.hello.sessionID && ha.hello.domainID == hb.hello.domainID
    requires ha.hello.peerDeviceID == hb.hello.deviceID && hb.hello.peerDeviceID == ha.hello.deviceID
    requires ha.hello.ephemeral == p.base64(p.xPublic(ha.privateKey))
    requires hb.hello.ephemeral == p.base64(p.xPublic(hb.privateKey))
    ensures var a := Established(p, ha, hb.hello, devA.identity, devB.identity);
            var b := Established(p, hb, ha.hello, devB.identity, devA.identity);
            && a.Some? && b.Some?
            && a.value.sessionID == b.value.sessionID && a.value.peer == b.value.local && a.value.local == b.value.peer
            && a.value.transcript == b.value.transcript && a.value.readyKey == b.value.readyKey
  {
    SecretsMeet(p, ha.privateKey, hb.privateKey);
    TranscriptSymmetric(p, ha.hello, hb.hello, devA.identity, devB.identity);
  }

  // ----- a device that talks to its own ID -----

  /** A side accepts its own ready message, reflected to it, exactly when its two device IDs are equal (and it takes the
      peer's key for its own). */
  lemma OwnReadyAcceptedIff(p: Provider, s: Session, dev: Device)
    requires Correct(p) && OwnKey(p, dev)
    ensures Confirmed(p, s, s, dev.identity, dev) <==> s.local == s.peer
  {
    if s.local == s.peer { HonestReady(p, s, s, dev); }
  }

  /** Such a session exists: a device answers its own ID with any two hellos of its own, and the one end that holds the
      session becomes ready by its own message. */
  lemma ReflectedReadyAccepted(
    p: Provider, dev: Device, ephA: string, ephB: string, sessionID: string,
    grantA: string, grantB: string, atA: string, atB: string)
    requires Correct(p) && OwnKey(p, dev)
    ensures var id := dev.identity.deviceID;
            var ha := CreatedHello(p, dev, ephA, sessionID, id, grantA, atA);
            var hb := CreatedHello(p, dev, ephB, sessionID, id, grantB, atB);
            && ha.Some? && hb.Some?
            && var a := Established(p, ha.value, hb.value.hello, dev.identity, dev.identity);
               a.Some? && a.value.local == a.value.peer && Confirmed(p, a.value, a.value, dev.identity, dev)
  {
    var id := dev.identity.deviceID;
    HonestHello(p, dev, ephA, sessionID, id, grantA, atA);
    HonestHello(p, dev, ephB, sessionID, id, grantB, atB);
    SecretsMeet(p, ephA, ephB);
    var ha := CreatedHello(p, dev, ephA, sessionID, id, grantA, atA).value;
    var hb := CreatedHello(p, dev, ephB, sessionID, id, grantB, atB).value;
    OwnReadyAcceptedIff(p, Established(p, ha, hb.hello, dev.identity, dev.identity).value, dev);
  }

  /** Two devices of one domain that exchange their hellos and ready messages undisturbed always establish the session, and
      either accepts the other's ready message exactly when their IDs differ or there is nothing to tell the two apart: the
      same hello and the same key thumbprint. */
  lemma HonestHandshakeIff(
    p: Provider, devA: Device, devB: Device, ephA: string, ephB: string, sessionID: string,
    grantA: string, grantB: string, atA: string, atB: string)
    requires CollisionFree(p) && Correct(p) && OwnKey(p, devA) && OwnKey(p, devB)
    requires devA.identity.domainID == devB.identity.domainID
    ensures var ha := CreatedHello(p, devA, ephA, sessionID, devB.identity.deviceID, grantA, atA);
            var hb := CreatedHello(p, devB, ephB, sessionID, devA.identity.deviceID, grantB, atB);
            && ha.Some? && hb.Some?
            && var a := Established(p, ha.value, hb.value.hello, devA.identity, devB.identity);
               var b := Established(p, hb.value, ha.value.hello, devB.identity, devA.identity);
               && a.Some? && b.Some?
               && (Confirmed(p, a.value, b.value, devB.identity, devB)
                   <==> SidesMeet(p, devA, devB, ha.value.hello, hb.value.hello))
               && (Confirmed(p, b.value, a.value, devA.identity, devA)
                   <==> SidesMeet(p, devA, devB, ha.value.hello, hb.value.hello))
  {
    HonestHello(p, devA, ephA, sessionID, devB.identity.deviceID, grantA, atA);
    HonestHello(p, devB, ephB, sessionID, devA.identity.deviceID, grantB, atB);
    var ha := CreatedHello(p, devA, ephA, sessionID, devB.identity.deviceID, grantA, atA).value;
    var hb := CreatedHello(p, devB, ephB, sessionID, devA.identity.deviceID, grantB, atB).value;
    SecretsMeet(p, ephA, ephB);
    var a := Established(p, ha, hb.hello, devA.identity, devB.identity).value;
    var b := Established(p, hb, ha.hello, devB.identity, devA.identity).value;
    TranscriptsMeetIff(p, ha.hello, hb.hello, devA, devB);
    MeetingConfirms(p, a, b, devB);
    MeetingConfirms(p, b, a, devA);
  }

  /** What it takes for the transcript not to depend on which side computes it. */
  ghost predicate SidesMeet(p: Provider, devA: Device, devB: Device, ha: Hello, hb: Hello) {
    || devA.identity.deviceID != devB.identity.deviceID
    || (ha == hb && Thumbprint(p, devA.identity) == Thumbprint(p, devB.identity))
  }

  lemma TranscriptsMeetIff(p: Provider, ha: Hello, hb: Hello, devA: Device, devB: Device)
    requires CollisionFree(p)
    requires ha.deviceID == devA.identity.deviceID && hb.deviceID == devB.identity.deviceID
    requires ha.sessionID == hb.sessionID && ha.domainID == hb.domainID
    ensures TranscriptHash(p, ha, hb, devA.identity, devB.identity) == TranscriptHash(p, hb, ha, devB.identity, devA.identity)
       <==> SidesMeet(p, devA, devB, ha, hb)
  {
    if ha.deviceID != hb.deviceID {
      TranscriptSymmetric(p, ha, hb, devA.identity, devB.identity);
    } else {
      BeforeTrichotomy(ha.deviceID, hb.deviceID);
      if ha == hb && Thumbprint(p, devA.identity) == Thumbprint(p, devB.identity) {
        assert TranscriptFields(p, ha, hb, devA.identity, devB.identity)
            == TranscriptFields(p, hb, ha, devB.identity, devA.identity);
      } else if TranscriptHash(p, ha, hb, devA.identity, devB.identity)
             == TranscriptHash(p, hb, ha, devB.identity, devA.identity) {
        TranscriptBinds(p, ha, hb, devA.identity, devB.identity, hb, ha, devB.identity, devA.identity);
      }
    }
  }

  /** Sessions of the two ends with one secret confirm exactly when their transcripts are the same. */
  lemma MeetingConfirms(p: Provider, a: Session, b: Session, devB: Device)
    requires CollisionFree(p) && Correct(p) && OwnKey(p, devB)
    requires a.sessionID == b.sessionID && a.peer == b.local && (a.transcript == b.transcript ==> a.readyKey == b.readyKey)
    ensures Confirmed(p, a, b, devB.identity, devB) <==> a.transcript == b.transcript
  {
    if a.transcript == b.transcript {
      HonestReady(p, a, b, devB);
    } else if Confirmed(p, a, b, devB.identity, devB) {
      ConfirmedFacts(p, a, b, devB.identity, devB);
    }
  }
}
