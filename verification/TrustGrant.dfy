/** Trust grants (`pkg/iscp/trust`): what is signed, and the conditions under which a signed grant is accepted. */
module TrustGrant {
  import opened GoStrings
  import opened GoTime
  import opened JsonText
  import opened Json
  import opened JsonFields
  import opened Canonical
  import opened Crypto
  import opened Handshake
  import CanonicalDecoder
  import SessionState

  const TYPE_GRANT := "iscp.trust_grant.v2"

  /** Times are written as RFC 3339 text and compared as instants. */
  datatype Clock = Clock(text: Time -> string, instant: string -> Time)

  ghost predicate Faithful(c: Clock) {
    forall t :: c.instant(c.text(t)) == t
  }

  /** `notBefore` and `expiresAt` are the texts of the times. */
  datatype Grant = Grant(
    typ: string, grantID: string, issuer: string, subject: string, audience: string, thumbprint: string,
    permissions: seq<string>, relays: seq<string>, notBefore: string, expiresAt: string, epoch: nat, signature: Signature)

  datatype Options = Options(
    audience: string, subject: string, thumbprint: string, permission: string, relayID: string, epoch: nat, now: Time)

  // ----- what is signed -----

  function Strings(ss: seq<string>): seq<Raw> {
    seq(|ss|, i requires 0 <= i < |ss| => RStr(ss[i]))
  }

  /** `json.Marshal` of a grant; an empty list of relay constraints is omitted. */
  function GrantFields(g: Grant): Fields {
    [("type", RStr(g.typ)), ("grant_id", RStr(g.grantID)), ("issuer", RStr(g.issuer)),
     ("subject_device_id", RStr(g.subject)), ("audience", RStr(g.audience)),
     ("confirmation_thumbprint", RStr(g.thumbprint)), ("permissions", RArr(Strings(g.permissions)))]
    + (if g.relays == [] then [] else [("relay_constraints", RArr(Strings(g.relays)))])
    + [("not_before", RStr(g.notBefore)), ("expires_at", RStr(g.expiresAt)), ("revocation_epoch", RInt(g.epoch)),
       ("signature", SignatureFields(g.signature))]
  }

  function Unsigned(g: Grant): Grant {
    g.(signature := NO_SIGNATURE)
  }

  ghost function GrantInput(g: Grant): Option<string> {
    SignatureInput(TYPE_GRANT, Encode(RObj(GrantFields(Unsigned(g)))))
  }

  lemma {:induction false} StringsDenote(ss: seq<string>)
    ensures DenoteItems(Strings(ss)).Some? && |DenoteItems(Strings(ss)).value| == |ss|
    ensures forall i | 0 <= i < |ss| :: DenoteItems(Strings(ss)).value[i] == Str(ss[i])
  {
    if ss != [] {
      assert Strings(ss)[1..] == Strings(ss[1..]);
      StringsDenote(ss[1..]);
      assert Denote(Strings(ss)[0]) == Some(Str(ss[0]));
      var vs := DenoteItems(Strings(ss)).value;
      forall i | 0 <= i < |ss| ensures vs[i] == Str(ss[i]) {
        if i > 0 { assert ss[1..][i - 1] == ss[i]; }
      }
    }
  }

  lemma StringsInjective(a: seq<string>, b: seq<string>)
    requires Denote(RArr(Strings(a))) == Denote(RArr(Strings(b)))
    ensures a == b
  {
    StringsDenote(a);
    StringsDenote(b);
    assert forall i | 0 <= i < |a| :: Str(a[i]) == Str(b[i]);
  }

  lemma GrantNamesDistinct(g: Grant)
    ensures DistinctNames(GrantFields(g))
  {
  }

  lemma GrantFieldsDenote(g: Grant)
    ensures AllDenote(GrantFields(g)) <==> g.epoch <= INT64_MAX
  {
    SignatureDenotes(g.signature);
    StringsDenote(g.permissions);
    StringsDenote(g.relays);
    var f := GrantFields(g);
    assert f[|f| - 2] == ("revocation_epoch", RInt(g.epoch));
  }

  lemma GrantDenotes(g: Grant)
    ensures Denote(RObj(GrantFields(g))).Some? <==> g.epoch <= INT64_MAX
  {
    GrantNamesDistinct(g);
    GrantFieldsDenote(g);
    ObjectDenotes(GrantFields(g));
  }

  /** A grant can be signed exactly when its epoch is a 64-bit signed integer. */
  lemma GrantInputExists(g: Grant)
    ensures GrantInput(g).Some? <==> g.epoch < 0x8000_0000_0000_0000
  {
    GrantDenotes(Unsigned(g));
    MarshalEncoded(RObj(GrantFields(Unsigned(g))));
  }

  /** A field other than the signature is determined by what is signed. */
  lemma SignedField(a: Fields, b: Fields, i: nat, j: nat)
    requires Denote(RObj(a)).Some? && Denote(RObj(b)).Some?
    requires Denote(RObj(a)).value.members - {"signature"} == Denote(RObj(b)).value.members - {"signature"}
    requires i < |a| && j < |b| && a[i].0 == b[j].0 != "signature"
    ensures Denote(a[i].1) == Denote(b[j].1)
  {
    FieldsDenote(a);
    FieldsDenote(b);
    var ma, mb := Denote(RObj(a)).value.members, Denote(RObj(b)).value.members;
    var name := a[i].0;
    assert ma[name] == (ma - {"signature"})[name] && mb[name] == (mb - {"signature"})[name];
  }

  lemma SignedNames(a: Fields, b: Fields, i: nat) returns (j: nat)
    requires Denote(RObj(a)).Some? && Denote(RObj(b)).Some?
    requires Denote(RObj(a)).value.members - {"signature"} == Denote(RObj(b)).value.members - {"signature"}
    requires i < |a| && a[i].0 != "signature"
    ensures j < |b| && b[j].0 == a[i].0
  {
    FieldsDenote(a);
    FieldsDenote(b);
    assert a[i].0 in Denote(RObj(a)).value.members - {"signature"};
    j :| 0 <= j < |b| && b[j].0 == a[i].0;
  }

  /** What is signed determines the whole grant but its signature. */
  lemma GrantInputBinds(g: Grant, h: Grant)
    requires GrantInput(g).Some? && GrantInput(g) == GrantInput(h)
    ensures Unsigned(g) == Unsigned(h)
  {
    var a, b := GrantFields(Unsigned(g)), GrantFields(Unsigned(h));
    MarshalEncoded(RObj(a));
    MarshalEncoded(RObj(b));
    SignatureInputSeparates(TYPE_GRANT, Encode(RObj(a)), TYPE_GRANT, Encode(RObj(b)));
    RelaysBound(Unsigned(g), Unsigned(h));
    TextsBound(Unsigned(g), Unsigned(h));
  }

  ghost predicate SameButSignature(g: Grant, h: Grant) {
    && Denote(RObj(GrantFields(g))).Some? && Denote(RObj(GrantFields(h))).Some?
    && Denote(RObj(GrantFields(g))).value.members - {"signature"} == Denote(RObj(GrantFields(h))).value.members - {"signature"}
  }

  lemma RelaysBound(g: Grant, h: Grant)
    requires SameButSignature(g, h)
    ensures g.relays == h.relays
  {
    var a, b := GrantFields(g), GrantFields(h);
    if g.relays != [] {
      assert a[7].0 == "relay_constraints";
      var j := SignedNames(a, b, 7);
      SignedField(a, b, 7, j);
      assert b[j].1 == RArr(Strings(h.relays));
      StringsInjective(g.relays, h.relays);
    } else if h.relays != [] {
      assert b[7].0 == "relay_constraints";
      var j := SignedNames(b, a, 7);
      assert false;
    }
  }

  lemma TextsBound(g: Grant, h: Grant)
    requires SameButSignature(g, h) && g.relays == h.relays
    ensures g == h.(signature := g.signature)
  {
    LeadingFieldsBound(g, h);
    TrailingFieldsBound(g, h);
  }

  lemma LeadingFieldsBound(g: Grant, h: Grant)
    requires SameButSignature(g, h)
    ensures g.typ == h.typ && g.grantID == h.grantID && g.issuer == h.issuer && g.subject == h.subject
    ensures g.audience == h.audience && g.thumbprint == h.thumbprint && g.permissions == h.permissions
  {
    var a, b := GrantFields(g), GrantFields(h);
    SignedField(a, b, 0, 0);
    SignedField(a, b, 1, 1);
    SignedField(a, b, 2, 2);
    SignedField(a, b, 3, 3);
    SignedField(a, b, 4, 4);
    SignedField(a, b, 5, 5);
    SignedField(a, b, 6, 6);
    StringsInjective(g.permissions, h.permissions);
  }

  lemma TrailingFieldsBound(g: Grant, h: Grant)
    requires SameButSignature(g, h) && g.relays == h.relays
    ensures g.notBefore == h.notBefore && g.expiresAt == h.expiresAt && g.epoch == h.epoch
  {
    var a, b := GrantFields(g), GrantFields(h);
    var n := |a|;
    GrantDenotes(g);
    GrantDenotes(h);
    SignedField(a, b, n - 4, n - 4);
    SignedField(a, b, n - 3, n - 3);
    SignedField(a, b, n - 2, n - 2);
    assert a[n - 4].1 == RStr(g.notBefore) && a[n - 3].1 == RStr(g.expiresAt) && a[n - 2].1 == RInt(g.epoch);
    assert b[n - 4].1 == RStr(h.notBefore) && b[n - 3].1 == RStr(h.expiresAt) && b[n - 2].1 == RInt(h.epoch);
  }

  /** The list of strings as a JSON value. */
  ghost predicate IsList(v: Value, ss: seq<string>) {
    v.Arr? && |v.items| == |ss| && forall i | 0 <= i < |ss| :: v.items[i] == Str(ss[i])
  }

  /** The JSON members of a grant without its signature. */
  ghost predicate GrantMembers(g: Grant, m: map<string, Value>) {
    && m.Keys == {"type", "grant_id", "issuer", "subject_device_id", "audience", "confirmation_thumbprint", "permissions",
                  "not_before", "expires_at", "revocation_epoch"} + (if g.relays == [] then {} else {"relay_constraints"})
    && m["type"] == Str(g.typ) && m["grant_id"] == Str(g.grantID) && m["issuer"] == Str(g.issuer)
    && m["subject_device_id"] == Str(g.subject) && m["audience"] == Str(g.audience)
    && m["confirmation_thumbprint"] == Str(g.thumbprint) && IsList(m["permissions"], g.permissions)
    && (g.relays != [] ==> IsList(m["relay_constraints"], g.relays))
    && m["not_before"] == Str(g.notBefore) && m["expires_at"] == Str(g.expiresAt) && m["revocation_epoch"] == Int(g.epoch)
  }

  lemma GrantKeys(g: Grant)
    requires Denote(RObj(GrantFields(g))).Some?
    ensures Denote(RObj(GrantFields(g))).value.members.Keys
         == {"type", "grant_id", "issuer", "subject_device_id", "audience", "confirmation_thumbprint", "permissions",
             "not_before", "expires_at", "revocation_epoch", "signature"} + (if g.relays == [] then {} else {"relay_constraints"})
  {
    var f := GrantFields(g);
    var n := |f|;
    assert f[0].0 == "type" && f[1].0 == "grant_id" && f[2].0 == "issuer" && f[3].0 == "subject_device_id";
    assert f[4].0 == "audience" && f[5].0 == "confirmation_thumbprint" && f[6].0 == "permissions";
    assert f[n - 4].0 == "not_before" && f[n - 3].0 == "expires_at" && f[n - 2].0 == "revocation_epoch" && f[n - 1].0 == "signature";
    assert g.relays != [] ==> f[7].0 == "relay_constraints";
    NamesAre(f, {"type", "grant_id", "issuer", "subject_device_id", "audience", "confirmation_thumbprint", "permissions",
                 "not_before", "expires_at", "revocation_epoch", "signature"} + (if g.relays == [] then {} else {"relay_constraints"}));
  }

  lemma GrantLeading(g: Grant, m: map<string, Value>)
    requires Denote(RObj(GrantFields(g))) == Some(Obj(m))
    ensures "type" in m && m["type"] == Str(g.typ) && "grant_id" in m && m["grant_id"] == Str(g.grantID)
    ensures "issuer" in m && m["issuer"] == Str(g.issuer) && "subject_device_id" in m && m["subject_device_id"] == Str(g.subject)
    ensures "audience" in m && m["audience"] == Str(g.audience)
    ensures "confirmation_thumbprint" in m && m["confirmation_thumbprint"] == Str(g.thumbprint)
    ensures "permissions" in m && IsList(m["permissions"], g.permissions)
  {
    var f := GrantFields(g);
    FieldsDenote(f);
    StringsDenote(g.permissions);
    assert f[0].0 in m && f[1].0 in m && f[2].0 in m && f[3].0 in m && f[4].0 in m && f[5].0 in m && f[6].0 in m;
  }

  lemma GrantTrailing(g: Grant, m: map<string, Value>)
    requires Denote(RObj(GrantFields(g))) == Some(Obj(m))
    ensures g.relays != [] ==> "relay_constraints" in m && IsList(m["relay_constraints"], g.relays)
    ensures "not_before" in m && m["not_before"] == Str(g.notBefore) && "expires_at" in m && m["expires_at"] == Str(g.expiresAt)
    ensures "revocation_epoch" in m && m["revocation_epoch"] == Int(g.epoch)
  {
    var f := GrantFields(g);
    var n := |f|;
    FieldsDenote(f);
    StringsDenote(g.relays);
    assert f[n - 4].0 in m && f[n - 3].0 in m && f[n - 2].0 in m;
    if g.relays != [] { assert f[7].0 in m && f[7].1 == RArr(Strings(g.relays)); }
  }

  /** A grant is signed as its members in canonical JSON, after the prefix and its type; no relay constraints, no member. */
  lemma GrantSignedAs(g: Grant)
    requires g.epoch < 0x8000_0000_0000_0000
    ensures exists m ::
              GrantMembers(g, m) && GrantInput(g) == Some("ISCP-V2-SIGNATURE\0" + "iscp.trust_grant.v2" + ['\0'] + Print(Obj(m)))
  {
    var m := SignedMembers(g);
    assert GrantMembers(g, m);
  }

  lemma SignedMembers(g: Grant) returns (m: map<string, Value>)
    requires g.epoch < 0x8000_0000_0000_0000
    ensures GrantMembers(g, m)
    ensures GrantInput(g) == Some("ISCP-V2-SIGNATURE\0" + "iscp.trust_grant.v2" + ['\0'] + Print(Obj(m)))
  {
    var u := Unsigned(g);
    GrantDenotes(u);
    MarshalEncoded(RObj(GrantFields(u)));
    var all := Denote(RObj(GrantFields(u))).value.members;
    GrantWritten(u, all);
    m := all - {"signature"};
    SameMembers(g, u, m);
  }

  lemma SameMembers(g: Grant, u: Grant, m: map<string, Value>)
    requires u == Unsigned(g) && GrantMembers(u, m)
    ensures GrantMembers(g, m)
  {
  }

  lemma GrantWritten(g: Grant, all: map<string, Value>)
    requires Denote(RObj(GrantFields(g))) == Some(Obj(all))
    ensures GrantMembers(g, all - {"signature"})
  {
    GrantKeys(g);
    GrantLeading(g, all);
    GrantTrailing(g, all);
    assert all.Keys - {"signature"} == {"type", "grant_id", "issuer", "subject_device_id", "audience", "confirmation_thumbprint",
      "permissions", "not_before", "expires_at", "revocation_epoch"} + (if g.relays == [] then {} else {"relay_constraints"});
  }

  // ----- signing and verifying -----

  /** `SignGrant` with a key and the issuer's device ID. */
  ghost function Signed(p: Provider, kid: string, private: string, issuer: string, g: Grant): Option<Grant> {
    var grant := g.(typ := TYPE_GRANT, issuer := issuer, signature := NO_SIGNATURE);
    match GrantInput(grant)
    case None => None
    case Some(input) => Some(grant.(signature := Signature("Ed25519", kid, p.base64(p.sign(private, input)))))
  }

  /** The checks of `VerifyGrant` before the signature. */
  predicate Bound(c: Clock, g: Grant, o: Options) {
    && g.typ == TYPE_GRANT
    && c.instant(g.notBefore) <= o.now < c.instant(g.expiresAt)
    && g.audience == o.audience
    && g.subject == o.subject
    && g.thumbprint == o.thumbprint
    && o.permission in g.permissions
    && (g.relays == [] || o.relayID in g.relays)
    && g.epoch >= o.epoch
  }

  /** `VerifyGrant`, with the issuer's public key as base64url text. */
  ghost predicate GrantAccepted(p: Provider, c: Clock, g: Grant, key: string, o: Options) {
    Bound(c, g, o) && SignatureHolds(p, key, GrantInput(g), g.signature.value)
  }

  /** A grant as signed is accepted, under the signing key, exactly when it meets the conditions other than the
      signature. */
  lemma SignedGrantAcceptedIff(
    p: Provider, c: Clock, kid: string, private: string, issuer: string, g: Grant, signed: Grant, o: Options)
    requires Correct(p) && Signed(p, kid, private, issuer, g) == Some(signed)
    ensures GrantAccepted(p, c, signed, p.base64(p.edPublic(private)), o) <==> Bound(c, signed, o)
    ensures signed.signature.alg == "Ed25519" && signed.signature.kid == kid
  {
    var grant := g.(typ := TYPE_GRANT, issuer := issuer, signature := NO_SIGNATURE);
    var input := GrantInput(grant).value;
    assert Unsigned(signed) == Unsigned(grant);
    assert p.unbase64(p.base64(p.edPublic(private))) == Some(p.edPublic(private));
    assert p.unbase64(p.base64(p.sign(private, input))) == Some(p.sign(private, input));
  }

  method SignGrant(p: Provider, kid: string, private: string, issuer: string, g: Grant) returns (signed: Option<Grant>)
    ensures signed == Signed(p, kid, private, issuer, g)
  {
    var grant := g.(typ := TYPE_GRANT, issuer := issuer, signature := NO_SIGNATURE);
    assert Unsigned(grant) == grant;
    var input := CanonicalDecoder.SignatureBytes(TYPE_GRANT, Encode(RObj(GrantFields(grant))));
    if input == None { return None; }
    signed := Some(grant.(signature := Signature("Ed25519", kid, p.base64(p.sign(private, input.value)))));
  }

  method VerifyGrant(p: Provider, c: Clock, g: Grant, key: string, o: Options) returns (ok: bool)
    ensures ok <==> GrantAccepted(p, c, g, key, o)
    ensures ok ==>
              && g.typ == "iscp.trust_grant.v2" && c.instant(g.notBefore) <= o.now < c.instant(g.expiresAt)
              && g.audience == o.audience && g.subject == o.subject && g.thumbprint == o.thumbprint
              && o.permission in g.permissions && (g.relays != [] ==> o.relayID in g.relays) && g.epoch >= o.epoch
  {
    if g.typ != TYPE_GRANT { return false; }
    if o.now < c.instant(g.notBefore) || !(o.now < c.instant(g.expiresAt)) { return false; }
    if g.audience != o.audience || g.subject != o.subject || g.thumbprint != o.thumbprint { return false; }
    if o.permission !in g.permissions { return false; }
    if |g.relays| > 0 && o.relayID !in g.relays { return false; }
    if g.epoch < o.epoch { return false; }
    var input := CanonicalDecoder.SignatureBytes(TYPE_GRANT, Encode(RObj(GrantFields(Unsigned(g)))));
    ok := SessionState.CheckSignature(p, key, input, g.signature.value);
  }
}
