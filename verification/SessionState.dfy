/** The session and envelope code as it runs: a `State` object that the handshake creates and that
    `VerifyReady`, `Encrypt` and `Decrypt` update, each proved to do what `Handshake` and `Envelope` say. */
module SessionState {
  import opened GoStrings
  import opened Json
  import opened CanonicalDecoder
  import opened Crypto
  import opened Handshake
  import opened HandshakeAuthentication
  import opened Envelope

  class State {
    const sessionID: string
    const domainID: string
    const localDeviceID: string
    const peerDeviceID: string
    const transcriptHash: string
    const sendKey: string
    const receiveKey: string
    const readyKey: string
    var ready: bool
    var sendSeq: uint64
    var seenSeq: set<uint64>

    function Contents(): Session
      reads this
    {
      Session(sessionID, domainID, localDeviceID, peerDeviceID, transcriptHash, sendKey, receiveKey, readyKey,
                      ready, sendSeq, seenSeq)
    }

    constructor (sessionID: string, domainID: string, localDeviceID: string, peerDeviceID: string,
                 transcriptHash: string, sendKey: string, receiveKey: string, readyKey: string)
      ensures Contents() == Session(sessionID, domainID, localDeviceID, peerDeviceID, transcriptHash,
                                            sendKey, receiveKey, readyKey, false, 0, {})
    {
      this.sessionID, this.domainID := sessionID, domainID;
      this.localDeviceID, this.peerDeviceID := localDeviceID, peerDeviceID;
      this.transcriptHash := transcriptHash;
      this.sendKey, this.receiveKey, this.readyKey := sendKey, receiveKey, readyKey;
      ready, sendSeq, seenSeq := false, 0, {};
    }

    method CreateReady(p: Provider, dev: Device) returns (r: Option<Ready>)
      ensures r == CreatedReady(p, Contents(), dev)
    {
      var unsigned := UnsignedReady(p, Contents());
      var input := SignatureBytes(TYPE_READY, Encode(RObj(ReadyFields(unsigned))));
      if input == None { return None; }
      var sig := Signature("Ed25519", dev.identity.publicKey.kid, p.base64(p.sign(dev.private, input.value)));
      return Some(unsigned.(signature := sig));
    }

    method VerifyReady(p: Provider, r: Ready, remoteID: Identity) returns (ok: bool)
      modifies this`ready
      ensures ok <==> ReadyAccepted(p, old(Contents()), r, remoteID)
      ensures ok ==> r.typ == "iscp.session.ready.v2" && r.sessionID == sessionID && r.deviceID == peerDeviceID
      ensures Contents() == old(Contents()).(ready := old(ready) || ok)
    {
      if r.typ != TYPE_READY || r.sessionID != sessionID || r.deviceID != peerDeviceID { return false; }
      if p.unbase64(r.transcriptHash) != Some(transcriptHash) { return false; }
      if p.unbase64(r.mac) != Some(ReadyMac(p, readyKey, r.deviceID)) { return false; }
      var input := SignatureBytes(TYPE_READY, Encode(RObj(ReadyFields(r.(signature := NO_SIGNATURE)))));
      ok := CheckSignature(p, remoteID.publicKey.public, input, r.signature.value);
      if ok { ready := true; }
    }

    method NextSend() returns (sequence: uint64, nonce: string)
      modifies this`sendSeq
      ensures sequence == old(sendSeq) && nonce == Nonce(sequence)
      ensures Contents() == AfterSend(old(Contents()))
    {
      sequence := sendSeq;
      sendSeq := (sendSeq + 1) % UINT64;
      nonce := Nonce(sequence);
    }

    method MarkReceived(sequence: uint64) returns (ok: bool)
      modifies this`seenSeq
      ensures ok <==> sequence !in old(seenSeq)
      ensures Contents() == old(Contents()).(seen := old(seenSeq) + {sequence})
    {
      if sequence in seenSeq {
        assert seenSeq + {sequence} == seenSeq;
        return false;
      }
      seenSeq := seenSeq + {sequence};
      return true;
    }
  }

  method CheckSignature(p: Provider, key: string, input: Option<string>, signature: string) returns (ok: bool)
    ensures ok <==> SignatureHolds(p, key, input, signature)
  {
    var pub, sig := p.unbase64(key), p.unbase64(signature);
    if pub == None || |pub.value| != KEY_SIZE || sig == None || input == None { return false; }
    ok := p.verify(pub.value, input.value, sig.value);
  }

  method VerifyHello(p: Provider, hello: Hello, id: Identity) returns (ok: bool)
    ensures ok <==> HelloAccepted(p, hello, id)
    ensures ok ==> Traced(p, hello, id)
    ensures ok ==>
              && hello.typ == "iscp.session.hello.v2" && hello.ciphersuite == "ISCP_V2_X25519_HKDF_SHA256_CHACHA20POLY1305"
              && hello.deviceID == id.deviceID && hello.domainID == id.domainID
  {
    if hello.typ != TYPE_HELLO || hello.deviceID != id.deviceID || hello.domainID != id.domainID
       || hello.ciphersuite != CIPHERSUITE { return false; }
    var input := SignatureBytes(TYPE_HELLO, Encode(RObj(HelloFields(hello.(signature := NO_SIGNATURE)))));
    ok := CheckSignature(p, id.publicKey.public, input, hello.signature.value);
    if ok { AcceptedHelloTraced(p, hello, id); }
  }

  method ComputeTranscriptHash(p: Provider, a: Hello, b: Hello, aID: Identity, bID: Identity) returns (th: string)
    ensures th == TranscriptHash(p, a, b, aID, bID)
  {
    TranscriptDenotes(p, a, b, aID, bID);
    var out := new Buffer();
    WriteCanonical(out, Denote(RObj(TranscriptFields(p, a, b, aID, bID))).value);
    assert out.text == TranscriptText(p, a, b, aID, bID);
    th := p.sha256(out.text);
  }

  /** `Establish`: no state, or a new one with nothing sent, nothing received and not ready. */
  method Establish(p: Provider, local: LocalHello, remote: Hello, localID: Identity, remoteID: Identity)
    returns (st: State?)
    ensures var spec := Established(p, local, remote, localID, remoteID);
            && (st == null <==> spec == None)
            && (st != null ==> fresh(st) && spec == Some(st.Contents()))
    ensures st != null ==>
              && Traced(p, remote, remoteID)
              && remote.sessionID == local.hello.sessionID && remote.domainID == local.hello.domainID
              && remote.deviceID == remoteID.deviceID == local.hello.peerDeviceID && remote.peerDeviceID == local.hello.deviceID
  {
    if local.hello.sessionID != remote.sessionID || local.hello.domainID != remote.domainID
       || local.hello.peerDeviceID != remote.deviceID || remote.peerDeviceID != local.hello.deviceID { return null; }
    var ok := VerifyHello(p, remote, remoteID);
    var secret := SharedSecret(p, local.privateKey, remote.ephemeral);
    if !ok || secret == None { return null; }
    var th := ComputeTranscriptHash(p, local.hello, remote, localID, remoteID);
    var (send, receive) := DirectionLabels(local.hello.deviceID, remote.deviceID);
    st := new State(local.hello.sessionID, local.hello.domainID, local.hello.deviceID, remote.deviceID, th,
                    Derive(p, secret.value, th, send), Derive(p, secret.value, th, receive),
                    Derive(p, secret.value, th, "ready"));
  }

  method Encrypt(p: Provider, st: State, messageID: string, payloadType: string, route: Route, plaintext: string)
    returns (r: Option<SecureEnvelope>)
    modifies st`sendSeq
    ensures (st.Contents(), r) == Encrypted(Real(p), old(st.Contents()), messageID, payloadType, route, plaintext)
    ensures r.Some? ==>
              && r.value.messageID == messageID && r.value.payloadType == payloadType && r.value.route == route
              && r.value.typ == "iscp.secure_envelope.v2" && r.value.sessionID == st.sessionID && r.value.domainID == st.domainID
              && r.value.sender == st.localDeviceID && r.value.recipient == st.peerDeviceID && r.value.sequence == old(st.sendSeq)
  {
    if !st.ready { return None; }
    var header := Header(p, st.Contents(), messageID, payloadType, route);
    var sequence, nonce := st.NextSend();
    var aad := MarshalDocument(Encode(RObj(EnvelopeFields(header.(ciphertext := "")))));
    if aad == None { return None; }
    r := Some(header.(ciphertext := p.base64(p.seal(st.sendKey, nonce, plaintext, aad.value))));
  }

  method Decrypt(p: Provider, open: Opener, st: State, e: SecureEnvelope) returns (r: Option<string>)
    modifies st`seenSeq
    ensures (st.Contents(), r) == Decrypted(Real(p), open, old(st.Contents()), e)
  {
    if !st.ready { return None; }
    if e.typ != TYPE_ENVELOPE || e.sessionID != st.sessionID || e.domainID != st.domainID { return None; }
    if e.sender != st.peerDeviceID || e.recipient != st.localDeviceID { return None; }
    ghost var before := st.seenSeq;
    var ok := st.MarkReceived(e.sequence);
    if !ok {
      assert before + {e.sequence} == before;
      return None;
    }
    var nonce, ciphertext := p.unbase64(e.nonce), p.unbase64(e.ciphertext);
    if nonce == None || ciphertext == None { return None; }
    var aad := MarshalDocument(Encode(RObj(EnvelopeFields(e.(ciphertext := "")))));
    if aad == None { return None; }
    r := open(st.receiveKey, nonce.value, ciphertext.value, aad.value);
  }
}
