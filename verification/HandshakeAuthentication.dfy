/** Who made the hellos and ready messages that `pkg/iscp/session` accepts: what is signed, written out by its JSON names, and
    that an accepted message is, but for its signature, one that the peer's device made. */
module HandshakeAuthentication {
  import opened GoStrings
  import opened Json
  import opened JsonFields
  import opened Canonical
  import opened Crypto
  import opened Handshake

  // ----- what is signed, by name -----

  /** The JSON members of a hello without its signature. */
  ghost predicate HelloMembers(h: Hello, m: map<string, Value>) {
    && m.Keys == {"type", "session_id", "domain_id", "device_id", "peer_device_id", "ciphersuite", "ephemeral_public_key",
                  "grant_id", "issued_at"}
    && m["type"] == Str(h.typ) && m["session_id"] == Str(h.sessionID) && m["domain_id"] == Str(h.domainID)
    && m["device_id"] == Str(h.deviceID) && m["peer_device_id"] == Str(h.peerDeviceID)
    && m["ciphersuite"] == Str(h.ciphersuite) && m["ephemeral_public_key"] == Str(h.ephemeral)
    && m["grant_id"] == Str(h.grantID) && m["issued_at"] == Str(h.issuedAt)
  }

  /** The JSON members of a ready message without its signature. */
  ghost predicate ReadyMembers(r: Ready, m: map<string, Value>) {
    && m.Keys == {"type", "session_id", "device_id", "transcript_hash", "ready_mac"}
    && m["type"] == Str(r.typ) && m["session_id"] == Str(r.sessionID) && m["device_id"] == Str(r.deviceID)
    && m["transcript_hash"] == Str(r.transcriptHash) && m["ready_mac"] == Str(r.mac)
  }

  /** The JSON members of a signature. */
  ghost predicate SignatureMembers(sig: Signature, m: map<string, Value>) {
    && m.Keys == {"alg", "kid", "value"}
    && m["alg"] == Str(sig.alg) && m["kid"] == Str(sig.kid) && m["value"] == Str(sig.value)
  }

  lemma SignatureWritten(sig: Signature)
    ensures Denote(SignatureFields(sig)).Some? && Denote(SignatureFields(sig)).value.Obj?
    ensures SignatureMembers(sig, Denote(SignatureFields(sig)).value.members)
  {
    var f := SignatureFields(sig).members;
    SignatureDenotes(sig);
    FieldsDenote(f);
    assert f[0].0 == "alg" && f[1].0 == "kid" && f[2].0 == "value";
    NamesAre(f, {"alg", "kid", "value"});
  }

  /** A hello in a transcript: its members and its signature. */
  ghost predicate SignedHelloMembers(h: Hello, m: map<string, Value>) {
    && HelloMembers(h, m - {"signature"})
    && "signature" in m && m["signature"].Obj? && SignatureMembers(h.signature, m["signature"].members)
  }

  lemma SignedHelloWritten(h: Hello)
    ensures Denote(RObj(HelloFields(h))).Some? && SignedHelloMembers(h, Denote(RObj(HelloFields(h))).value.members)
  {
    var f := HelloFields(h);
    HelloWritten(h);
    SignatureWritten(h.signature);
    FieldsDenote(f);
    assert f[9].0 == "signature" && f[9].1 == SignatureFields(h.signature);
  }

  lemma HelloKeys(h: Hello)
    ensures Denote(RObj(HelloFields(h))).Some?
    ensures Denote(RObj(HelloFields(h))).value.members.Keys
         == {"type", "session_id", "domain_id", "device_id", "peer_device_id", "ciphersuite", "ephemeral_public_key",
             "grant_id", "issued_at", "signature"}
  {
    var f := HelloFields(h);
    HelloDenotes(h);
    assert f[0].0 == "type" && f[1].0 == "session_id" && f[2].0 == "domain_id" && f[3].0 == "device_id";
    assert f[4].0 == "peer_device_id" && f[5].0 == "ciphersuite" && f[6].0 == "ephemeral_public_key";
    assert f[7].0 == "grant_id" && f[8].0 == "issued_at" && f[9].0 == "signature";
    NamesAre(f, {"type", "session_id", "domain_id", "device_id", "peer_device_id", "ciphersuite", "ephemeral_public_key",
                 "grant_id", "issued_at", "signature"});
  }

  /** The value under a name that is not `signature`. */
  lemma UnsignedField(fields: Fields, i: nat)
    requires i < |fields| && Denote(RObj(fields)).Some? && fields[i].0 != "signature" && fields[i].1.RStr?
    ensures var m := Denote(RObj(fields)).value.members - {"signature"};
            fields[i].0 in m && m[fields[i].0] == Str(fields[i].1.s)
  {
    FieldsDenote(fields);
  }

  lemma HelloWritten(h: Hello)
    ensures Denote(RObj(HelloFields(h))).Some? && HelloMembers(h, Denote(RObj(HelloFields(h))).value.members - {"signature"})
  {
    var f := HelloFields(h);
    HelloKeys(h);
    HelloNamesDistinct(h);
    assert f[9].0 == "signature";
    forall i | 0 <= i < 9 ensures f[i].0 != "signature" && f[i].1.RStr? { assert f[i].0 != f[9].0; }
    UnsignedField(f, 0);
    UnsignedField(f, 1);
    UnsignedField(f, 2);
    UnsignedField(f, 3);
    UnsignedField(f, 4);
    UnsignedField(f, 5);
    UnsignedField(f, 6);
    UnsignedField(f, 7);
    UnsignedField(f, 8);
  }

  lemma ReadyNamesDistinct(r: Ready)
    ensures DistinctNames(ReadyFields(r))
  {
    var f := ReadyFields(r);
    assert |f[0].0| == 4 && |f[1].0| == 10 && |f[2].0| == |f[4].0| == |f[5].0| == 9 && |f[3].0| == 15;
    assert f[2].0[0] == 'd' && f[4].0[0] == 'r' && f[5].0[0] == 's';
  }

  lemma ReadyWritten(r: Ready)
    ensures Denote(RObj(ReadyFields(r))).Some? && ReadyMembers(r, Denote(RObj(ReadyFields(r))).value.members - {"signature"})
  {
    var f := ReadyFields(r);
    ReadyDenotes(r);
    FieldsDenote(f);
    ReadyNamesDistinct(r);
    assert f[0].0 == "type" && f[1].0 == "session_id" && f[2].0 == "device_id";
    assert f[3].0 == "transcript_hash" && f[4].0 == "ready_mac" && f[5].0 == "signature";
    NamesAre(f, {"type", "session_id", "device_id", "transcript_hash", "ready_mac", "signature"});
  }

  /** A hello is signed as its nine members in canonical JSON, after the prefix and its type. */
  lemma HelloSignedAs(h: Hello)
    ensures exists m ::
              HelloMembers(h, m) && HelloInput(h) == Some("ISCP-V2-SIGNATURE\0" + "iscp.session.hello.v2" + ['\0'] + Print(Obj(m)))
  {
    HelloWritten(h);
    MarshalEncoded(RObj(HelloFields(h)));
  }

  /** A ready message is signed as its five members. */
  lemma ReadySignedAs(r: Ready)
    ensures exists m ::
              ReadyMembers(r, m) && ReadyInput(r) == Some("ISCP-V2-SIGNATURE\0" + "iscp.session.ready.v2" + ['\0'] + Print(Obj(m)))
  {
    ReadyWritten(r);
    MarshalEncoded(RObj(ReadyFields(r)));
  }

  /** What is signed determines every field but the signature. */
  lemma HelloInputBinds(a: Hello, b: Hello)
    requires HelloInput(a) == HelloInput(b)
    ensures a == b.(signature := a.signature)
  {
    HelloWritten(a);
    HelloWritten(b);
    MarshalEncoded(RObj(HelloFields(a)));
    MarshalEncoded(RObj(HelloFields(b)));
    SignatureInputSeparates(TYPE_HELLO, Encode(RObj(HelloFields(a))), TYPE_HELLO, Encode(RObj(HelloFields(b))));
  }

  lemma ReadyInputBinds(a: Ready, b: Ready)
    requires ReadyInput(a) == ReadyInput(b)
    ensures a == b.(signature := a.signature)
  {
    ReadyWritten(a);
    ReadyWritten(b);
    MarshalEncoded(RObj(ReadyFields(a)));
    MarshalEncoded(RObj(ReadyFields(b)));
    SignatureInputSeparates(TYPE_READY, Encode(RObj(ReadyFields(a))), TYPE_READY, Encode(RObj(ReadyFields(b))));
  }

  /** Nothing is signed both as a hello and as a ready message. */
  lemma HelloIsNoReady(h: Hello, r: Ready)
    ensures HelloInput(h) != ReadyInput(r)
  {
    HelloSignable(h);
    assert TYPE_HELLO[13] == 'h' && TYPE_READY[13] == 'r';
    if HelloInput(h) == ReadyInput(r) {
      SignatureInputSeparates(TYPE_HELLO, Encode(RObj(HelloFields(h))), TYPE_READY, Encode(RObj(ReadyFields(r))));
      assert false;
    }
  }

  // ----- an accepted message was made by the peer's device -----

  /** One use of a device's private key by this package. */
  datatype Signing =
    | SignsHello(ephemeral: string, sessionID: string, peer: string, grantID: string, issuedAt: string)
    | SignsReady(session: Session)

  ghost function MadeHello(p: Provider, dev: Device, use: Signing): Option<Hello>
    requires use.SignsHello?
  {
    match CreatedHello(p, dev, use.ephemeral, use.sessionID, use.peer, use.grantID, use.issuedAt)
    case None => None
    case Some(local) => Some(local.hello)
  }

  /** What the device put its signature to in that use. */
  ghost function SignedInput(p: Provider, dev: Device, use: Signing): Option<string> {
    match use
    case SignsHello(_, _, _, _, _) =>
      (match MadeHello(p, dev, use) case None => None case Some(h) => HelloInput(h))
    case SignsReady(s) =>
      (match CreatedReady(p, s, dev) case None => None case Some(r) => ReadyInput(r))
  }

  ghost predicate WasSigned(p: Provider, dev: Device, log: seq<Signing>, input: string, i: nat) {
    i < |log| && SignedInput(p, dev, log[i]) == Some(input)
  }

  /** The signature that is presented verifies under the device's key only over what the device signed. */
  ghost predicate Unforged(p: Provider, dev: Device, log: seq<Signing>, signature: string) {
    p.unbase64(signature).Some? ==>
      forall input: string | p.verify(p.edPublic(dev.private), input, p.unbase64(signature).value) ::
        exists i: nat :: WasSigned(p, dev, log, input, i)
  }

  /** Every field of the hello is what the device put into that one of its hellos, its own identity included. */
  ghost predicate MadeAs(p: Provider, dev: Device, use: Signing, hello: Hello) {
    && use.SignsHello?
    && hello.typ == "iscp.session.hello.v2"
    && hello.ciphersuite == "ISCP_V2_X25519_HKDF_SHA256_CHACHA20POLY1305"
    && hello.deviceID == dev.identity.deviceID && hello.domainID == dev.identity.domainID
    && hello.sessionID == use.sessionID && hello.peerDeviceID == use.peer
    && hello.ephemeral == p.base64(p.xPublic(use.ephemeral))
    && hello.grantID == use.grantID && hello.issuedAt == use.issuedAt
  }

  /** Every field of the ready message is what `CreateReady` puts there for the session. */
  ghost predicate ReadyMadeFrom(p: Provider, s: Session, ready: Ready) {
    && ready.typ == "iscp.session.ready.v2" && ready.sessionID == s.sessionID && ready.deviceID == s.local
    && ready.transcriptHash == p.base64(s.transcript)
    && ready.mac == p.base64(p.hmac(s.readyKey, "ready:" + s.local))
  }

  lemma SignatureUse(p: Provider, dev: Device, log: seq<Signing>, input: Option<string>, signature: string) returns (i: nat)
    requires Correct(p) && OwnKey(p, dev) && Unforged(p, dev, log, signature)
    requires SignatureHolds(p, dev.identity.publicKey.public, input, signature)
    ensures input.Some? && WasSigned(p, dev, log, input.value, i)
  {
    assert p.unbase64(p.base64(p.edPublic(dev.private))) == Some(p.edPublic(dev.private));
    assert p.verify(p.edPublic(dev.private), input.value, p.unbase64(signature).value);
    i :| WasSigned(p, dev, log, input.value, i);
  }

  /** Every hello that `VerifyHello` accepts for a device has, field by field, what the device put into a hello it made. */
  lemma AcceptedHelloWasMade(p: Provider, dev: Device, log: seq<Signing>, hello: Hello)
    requires Correct(p) && OwnKey(p, dev) && Unforged(p, dev, log, hello.signature.value)
    requires HelloAccepted(p, hello, dev.identity)
    ensures exists i: nat :: i < |log| && MadeAs(p, dev, log[i], hello)
  {
    var plain := hello.(signature := NO_SIGNATURE);
    var i := SignatureUse(p, dev, log, HelloInput(plain), hello.signature.value);
    match log[i]
    case SignsHello(_, _, _, _, _) =>
      HelloInputBinds(plain, MadeHello(p, dev, log[i]).value);
      assert MadeAs(p, dev, log[i], hello);
    case SignsReady(s) =>
      HelloIsNoReady(plain, CreatedReady(p, s, dev).value);
      assert false;
  }

  /** Whichever device the identity is of and whatever it signed, the hello is one that it made. */
  ghost predicate Traced(p: Provider, hello: Hello, id: Identity) {
    Correct(p) ==>
      forall dev: Device, log: seq<Signing> |
        dev.identity == id && OwnKey(p, dev) && Unforged(p, dev, log, hello.signature.value) ::
        exists i: nat :: i < |log| && MadeAs(p, dev, log[i], hello)
  }

  lemma AcceptedHelloTraced(p: Provider, hello: Hello, id: Identity)
    requires HelloAccepted(p, hello, id)
    ensures Traced(p, hello, id)
  {
    if Correct(p) {
      forall dev: Device, log: seq<Signing> | dev.identity == id && OwnKey(p, dev) && Unforged(p, dev, log, hello.signature.value)
        ensures exists i: nat :: i < |log| && MadeAs(p, dev, log[i], hello)
      {
        AcceptedHelloWasMade(p, dev, log, hello);
      }
    }
  }

  /** A hello that differs in any field but the signature from the one its signature was made for is refused. */
  lemma AlteredHelloRefused(p: Provider, dev: Device, use: Signing, hello: Hello)
    requires Correct(p) && OwnKey(p, dev) && Unforged(p, dev, [use], hello.signature.value)
    requires use.SignsHello? && !MadeAs(p, dev, use, hello)
    ensures !HelloAccepted(p, hello, dev.identity)
  {
    if HelloAccepted(p, hello, dev.identity) {
      AcceptedHelloWasMade(p, dev, [use], hello);
      assert false;
    }
  }

  /** A hello that the device made is accepted for its identity, and for no identity with another device ID or domain. */
  lemma MadeHelloAcceptedIff(p: Provider, dev: Device, use: Signing, id: Identity)
    requires Correct(p) && OwnKey(p, dev) && use.SignsHello? && id.publicKey == dev.identity.publicKey
    ensures var h := MadeHello(p, dev, use);
            && h.Some? && MadeAs(p, dev, use, h.value)
            && h.value.signature.alg == "Ed25519" && h.value.signature.kid == dev.identity.publicKey.kid
            && (HelloAccepted(p, h.value, id) <==> id.deviceID == dev.identity.deviceID && id.domainID == dev.identity.domainID)
  {
    HonestHello(p, dev, use.ephemeral, use.sessionID, use.peer, use.grantID, use.issuedAt);
  }

  /** A session is established only with a hello that the peer's device made for it: for this session and domain, naming this
      device as its peer. The session records both ends. */
  lemma EstablishedWithMadeHello(
    p: Provider, local: LocalHello, remote: Hello, localID: Identity, dev: Device, log: seq<Signing>)
    requires Correct(p) && OwnKey(p, dev) && Unforged(p, dev, log, remote.signature.value)
    requires Established(p, local, remote, localID, dev.identity).Some?
    ensures exists i: nat ::
              && i < |log| && MadeAs(p, dev, log[i], remote)
              && log[i].sessionID == local.hello.sessionID && log[i].peer == local.hello.deviceID
    ensures dev.identity.domainID == local.hello.domainID && dev.identity.deviceID == local.hello.peerDeviceID
    ensures var s := Established(p, local, remote, localID, dev.identity).value;
            && s.sessionID == local.hello.sessionID && s.domainID == local.hello.domainID
            && s.local == local.hello.deviceID && s.peer == local.hello.peerDeviceID
            && !s.ready && s.sendSeq == 0 && s.seen == {}
  {
    AcceptedHelloWasMade(p, dev, log, remote);
  }

  /** With a hello that the peer's device made, a session is established exactly when the two hellos name the same session and
      domain and each names the other's device. */
  lemma EstablishedIff(p: Provider, local: LocalHello, dev: Device, use: Signing, localID: Identity)
    requires Correct(p) && OwnKey(p, dev) && use.SignsHello? && MadeHello(p, dev, use).Some?
    ensures Established(p, local, MadeHello(p, dev, use).value, localID, dev.identity).Some?
       <==> && use.sessionID == local.hello.sessionID && dev.identity.domainID == local.hello.domainID
            && use.peer == local.hello.deviceID && dev.identity.deviceID == local.hello.peerDeviceID
  {
    MadeHelloAcceptedIff(p, dev, use, dev.identity);
    SecretsMeet(p, local.privateKey, use.ephemeral);
  }

  /** Every ready message that `VerifyReady` accepts for a device was made by that device, from a session with the same ID,
      transcript and ready key, whose own end is the peer of this one. */
  lemma AcceptedReadyWasMade(p: Provider, dev: Device, log: seq<Signing>, a: Session, ready: Ready) returns (i: nat)
    requires CollisionFree(p) && Correct(p) && OwnKey(p, dev) && Unforged(p, dev, log, ready.signature.value)
    requires ReadyAccepted(p, a, ready, dev.identity)
    ensures i < |log| && log[i].SignsReady?
    ensures ReadyMadeFrom(p, log[i].session, ready)
    ensures var b := log[i].session;
            a.sessionID == b.sessionID && a.peer == b.local && a.transcript == b.transcript && a.readyKey == b.readyKey
  {
    var plain := ready.(signature := NO_SIGNATURE);
    i := SignatureUse(p, dev, log, ReadyInput(plain), ready.signature.value);
    match log[i]
    case SignsHello(_, _, _, _, _) =>
      HelloIsNoReady(MadeHello(p, dev, log[i]).value, plain);
      assert false;
    case SignsReady(s) =>
      ReadyInputBinds(plain, CreatedReady(p, s, dev).value);
      BoundFacts(p, a, s, ready);
  }

  /** A ready message that a device made is accepted by the other end of the session it was made for, under the device's key. */
  lemma MadeReadyAccepted(p: Provider, a: Session, b: Session, dev: Device)
    requires Correct(p) && OwnKey(p, dev)
    requires a.sessionID == b.sessionID && a.peer == b.local && a.transcript == b.transcript && a.readyKey == b.readyKey
    ensures var ready := CreatedReady(p, b, dev);
            && ready.Some? && ReadyMadeFrom(p, b, ready.value) && ReadyAccepted(p, a, ready.value, dev.identity)
            && ready.value.signature.alg == "Ed25519" && ready.value.signature.kid == dev.identity.publicKey.kid
  {
    HonestReady(p, a, b, dev);
  }

  /** Under a key that does not decode to 32 bytes nothing is accepted. */
  lemma BadKeyAcceptsNothing(p: Provider, s: Session, hello: Hello, ready: Ready, id: Identity)
    requires p.unbase64(id.publicKey.public).None? || |p.unbase64(id.publicKey.public).value| != 32
    ensures !HelloAccepted(p, hello, id) && !ReadyAccepted(p, s, ready, id)
  {
  }

  /** The device only signs ready messages of sessions that it holds. */
  ghost predicate SignsOwnSessions(p: Provider, log: seq<Signing>, sides: seq<Side>) {
    |sides| == |log| && forall i | 0 <= i < |log| :: log[i].SignsReady? ==> Holds(p, sides[i], log[i].session)
  }

  /** Key confirmation against every message: when A, whose device ID is not its peer's, accepts any ready message under the
      key of B's device, the device holds a session that mirrors A's: the same two hellos, session, domain, transcript and
      identity keys, sending under A's receive key and receiving under A's send key. */
  lemma AcceptedReadyAgreement(
    p: Provider, sideA: Side, a: Session, devB: Device, log: seq<Signing>, sides: seq<Side>, ready: Ready) returns (i: nat)
    requires CollisionFree(p) && Correct(p) && OwnKey(p, devB) && Unforged(p, devB, log, ready.signature.value)
    requires SignsOwnSessions(p, log, sides)
    requires Holds(p, sideA, a) && sideA.remoteID == devB.identity && a.local != a.peer
    requires ReadyAccepted(p, a, ready, devB.identity)
    ensures i < |log| && log[i].SignsReady? && ReadyMadeFrom(p, log[i].session, ready)
    ensures var b := log[i].session;
            && a.sessionID == b.sessionID && a.domainID == b.domainID && a.transcript == b.transcript
            && a.local == b.peer && a.peer == b.local
            && a.sendKey == b.receiveKey && a.receiveKey == b.sendKey && a.sendKey != a.receiveKey
    ensures sideA.local.hello == sides[i].remote && sideA.remote == sides[i].local.hello
    ensures Thumbprint(p, sideA.localID) == Thumbprint(p, sides[i].remoteID)
    ensures Thumbprint(p, sideA.remoteID) == Thumbprint(p, sides[i].localID)
  {
    i := AcceptedReadyWasMade(p, devB, log, a, ready);
    var b := log[i].session;
    assert Holds(p, sides[i], b);
    HonestReady(p, a, b, devB);
    ReadyAgreement(p, sideA, a, sides[i], b, devB);
  }

  // ----- keys and transcript, written out -----

  /** The end with the smaller device ID sends under the key derived for "low-to-high", the other end under the one for
      "high-to-low"; both keys and the ready key come from the X25519 secret, salted with the transcript hash. */
  lemma KeysDerivedAs(p: Provider, side: Side, s: Session)
    requires Holds(p, side, s) && side.local.hello.deviceID != side.remote.deviceID
    ensures var low := SmallerAtFirstDifference(side.local.hello.deviceID, side.remote.deviceID);
            var key := p.unbase64(side.remote.ephemeral);
            && key.Some? && |key.value| == 32
            && var secret := p.shared(side.local.privateKey, key.value);
               && secret.Some?
               && s.sendKey == p.hkdf(secret.value, s.transcript, "iscp/v2/session/" + if low then "low-to-high" else "high-to-low")
               && s.receiveKey == p.hkdf(secret.value, s.transcript, "iscp/v2/session/" + if low then "high-to-low" else "low-to-high")
               && s.readyKey == p.hkdf(secret.value, s.transcript, "iscp/v2/session/" + "ready")
  {
    BeforeIff(side.local.hello.deviceID, side.remote.deviceID);
  }

  /** What is hashed: the members of the transcript, with the hello and the identity of the smaller device ID as the first. */
  ghost predicate TranscriptMembers(p: Provider, h0: Hello, h1: Hello, i0: Identity, i1: Identity, m: map<string, Value>) {
    && m.Keys == {"protocol", "session_id", "domain_id", "ciphersuite", "hello_a", "hello_b", "identity_a", "identity_b",
                  "identity_thumbprint_a", "identity_thumbprint_b"}
    && m["protocol"] == Str("iscp.session.transcript.v2") && m["session_id"] == Str(h0.sessionID)
    && m["domain_id"] == Str(h0.domainID) && m["ciphersuite"] == Str("ISCP_V2_X25519_HKDF_SHA256_CHACHA20POLY1305")
    && m["hello_a"].Obj? && SignedHelloMembers(h0, m["hello_a"].members)
    && m["hello_b"].Obj? && SignedHelloMembers(h1, m["hello_b"].members)
    && m["identity_a"] == Str(i0.deviceID) && m["identity_b"] == Str(i1.deviceID)
    && m["identity_thumbprint_a"] == Str(Thumbprint(p, i0)) && m["identity_thumbprint_b"] == Str(Thumbprint(p, i1))
  }

  lemma TranscriptKeys(p: Provider, a: Hello, b: Hello, aID: Identity, bID: Identity)
    ensures Denote(RObj(TranscriptFields(p, a, b, aID, bID))).Some?
    ensures Denote(RObj(TranscriptFields(p, a, b, aID, bID))).value.members.Keys
         == {"protocol", "session_id", "domain_id", "ciphersuite", "hello_a", "hello_b", "identity_a", "identity_b",
             "identity_thumbprint_a", "identity_thumbprint_b"}
  {
    var f := TranscriptFields(p, a, b, aID, bID);
    TranscriptDenotes(p, a, b, aID, bID);
    assert f[0].0 == "protocol" && f[1].0 == "session_id" && f[2].0 == "domain_id" && f[3].0 == "ciphersuite";
    assert f[4].0 == "hello_a" && f[5].0 == "hello_b" && f[6].0 == "identity_a" && f[7].0 == "identity_b";
    assert f[8].0 == "identity_thumbprint_a" && f[9].0 == "identity_thumbprint_b";
    NamesAre(f, {"protocol", "session_id", "domain_id", "ciphersuite", "hello_a", "hello_b", "identity_a", "identity_b",
                 "identity_thumbprint_a", "identity_thumbprint_b"});
  }

  /** Given in the order of device IDs, hellos and identities of one session are hashed as those members. */
  lemma TranscriptWritten(p: Provider, a: Hello, b: Hello, aID: Identity, bID: Identity)
    requires SmallerAtFirstDifference(a.deviceID, b.deviceID) && SmallerAtFirstDifference(aID.deviceID, bID.deviceID)
    ensures exists m :: TranscriptMembers(p, a, b, aID, bID, m) && TranscriptHash(p, a, b, aID, bID) == p.sha256(Print(Obj(m)))
  {
    BeforeIff(a.deviceID, b.deviceID);
    BeforeIff(aID.deviceID, bID.deviceID);
    BeforeTrichotomy(a.deviceID, b.deviceID);
    BeforeTrichotomy(aID.deviceID, bID.deviceID);
    var f := TranscriptFields(p, a, b, aID, bID);
    TranscriptKeys(p, a, b, aID, bID);
    FieldsDenote(f);
    SignedHelloWritten(a);
    SignedHelloWritten(b);
    var m := Denote(RObj(f)).value.members;
    TranscriptTexts(f, m, a, b, aID, bID, p);
    assert TranscriptMembers(p, a, b, aID, bID, m);
  }

  lemma TranscriptTexts(f: Fields, m: map<string, Value>, a: Hello, b: Hello, aID: Identity, bID: Identity, p: Provider)
    requires f == TranscriptFields(p, a, b, aID, bID) && SortedHellos(a, b) == (a, b) && SortedIdentities(aID, bID) == (aID, bID)
    requires forall i | 0 <= i < |f| :: f[i].0 in m && Denote(f[i].1) == Some(m[f[i].0])
    ensures "protocol" in m && m["protocol"] == Str("iscp.session.transcript.v2")
    ensures "session_id" in m && m["session_id"] == Str(a.sessionID) && "domain_id" in m && m["domain_id"] == Str(a.domainID)
    ensures "ciphersuite" in m && m["ciphersuite"] == Str("ISCP_V2_X25519_HKDF_SHA256_CHACHA20POLY1305")
    ensures "hello_a" in m && Some(m["hello_a"]) == Denote(RObj(HelloFields(a)))
    ensures "hello_b" in m && Some(m["hello_b"]) == Denote(RObj(HelloFields(b)))
    ensures "identity_a" in m && m["identity_a"] == Str(aID.deviceID) && "identity_b" in m && m["identity_b"] == Str(bID.deviceID)
    ensures "identity_thumbprint_a" in m && m["identity_thumbprint_a"] == Str(Thumbprint(p, aID))
    ensures "identity_thumbprint_b" in m && m["identity_thumbprint_b"] == Str(Thumbprint(p, bID))
  {
    assert f[0].0 in m && f[1].0 in m && f[2].0 in m && f[3].0 in m && f[4].0 in m;
    assert f[5].0 in m && f[6].0 in m && f[7].0 in m && f[8].0 in m && f[9].0 in m;
  }

  /** Equal thumbprints mean the same kind of key and the same key, for keys of the proper size. */
  lemma ThumbprintBinds(p: Provider, a: Identity, b: Identity, keyA: string, keyB: string)
    requires CollisionFree(p) && Correct(p)
    requires p.unbase64(a.publicKey.public) == Some(keyA) && |keyA| == KEY_SIZE
    requires p.unbase64(b.publicKey.public) == Some(keyB) && |keyB| == KEY_SIZE
    requires Thumbprint(p, a) == Thumbprint(p, b)
    ensures a.publicKey.kty == b.publicKey.kty && keyA == keyB
  {
    var prefix := "iscp/v2/thumbprint/";
    var textA, textB := prefix + a.publicKey.kty + ['\0'] + keyA, prefix + b.publicKey.kty + ['\0'] + keyB;
    assert p.unbase64(p.base64(p.sha256(textA))) == Some(p.sha256(textA));
    assert p.unbase64(p.base64(p.sha256(textB))) == Some(p.sha256(textB));
    assert textA == textB;
    assert keyA == textA[|textA| - KEY_SIZE..] && keyB == textB[|textB| - KEY_SIZE..];
    assert a.publicKey.kty == textA[|prefix|..|textA| - KEY_SIZE - 1];
    assert b.publicKey.kty == textB[|prefix|..|textB| - KEY_SIZE - 1];
  }
}
