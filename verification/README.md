# Interoperable Secure Connectivity Protocol: a verified model

A Dafny model of the stateful core of ISCP and of its reference services, with proofs of what they keep over whole runs.

- **Canonical JSON** (`GoStrings`, `JsonText`, `Json`, `JsonFields`, `Canonical`, `CanonicalText`, `CanonicalDecoder`). The grammar
  of the strict parser and the sorted printer, their round trip on text, what the text looks like and what is refused, and the
  domain-separated signature input. The token automaton of the decoder, the recursive token loops and the buffer-based writer are
  methods proved against the grammar.
- **Session and envelopes** (`Crypto`, `Handshake`, `HandshakeAuthentication`, `Envelope`, `SessionState`, `Channel`,
  `ChannelOrigins`). Hellos, transcript, key derivation, key confirmation and numbered AEAD messages; then two parties and a channel
  that may do anything. Every accepted hello, ready message and payload is traced to the call that made it.
- **Trust Root** (`TrustGrant`, `KeyRing`, `TrustRoot`, `TrustRootGrants`, `TrustRootStatus`, `TrustRootHistory`, `RevocationFeed`,
  `TrustServer`). Every critical section is a step of its own, so requests in flight interleave freely with revocation and key
  rotation. Records, revoked grants and the log are told from the requests alone.
- **Relay queues** (`DeliveryQueue`, `DeliveryLedger`, `MessageTable`, `MessageHistory`). The bounded priority queue filters an array
  in place; the message table leases rows to any number of relay instances.
- **Replay, rate limits, credentials** (`Replay`, `ReplayAgreement`, `RateLimit`, `RelayCredentials`, `RelaySections`).

`dafny verify dfyconfig.toml` checks the whole project.

Conventions. Texts are Dafny strings, that is, valid UTF-8, whose order by code point is the byte order of `sort.Strings`.
Times (`GoTime`) are integers, in nanoseconds where units matter, and 0 is Go's zero time; a grant carries its times as RFC 3339 text and
compares them as instants. Clocks, random tokens, generated keys and identifiers are parameters. A state machine is a
specification function per step; the methods of the classes are proved equal to those steps, and the theorems are about all
their runs. Cryptography is idealised: hash, MAC and key derivation are injective, signing, encoding and key agreement satisfy
their equations, an envelope opens exactly if it was sealed, and where a theorem says so a presented signature verifies
only over what the holder of the key signed. Grant IDs, which are cut from a hash of device and time, tell devices apart where a theorem asks for it.

Where the code differs from what one would expect, the model follows the code:

- the end-of-input test of `ParseStrict` lets through a tail that starts with a closing bracket;
- sequence numbers and epochs from 2^63 up cannot be authenticated or signed, because the strict parser takes only 64-bit signed
  integers (`Envelope.AadExists`, `TrustGrant.GrantInputExists`);
- a rate-limit window that ends at the zero time never fills (`RateLimit.BoundedIff` gives the exact condition);
- a text column of the nonce table takes no NUL and a `timestamptz` column keeps microseconds, while the cache takes any text and any
  time; so the two stores agree on complete scopes without a NUL in domain or device, unless a nonce is used again within the
  microsecond in which it expires (`ReplayAgreement.AgreeIff`, `ReplayAgreement.AlwaysAgreeIff`);
- a NUL in an audience can merge two scopes, in both stores alike, but not for one service (`ReplayAgreement.ByScopeIff`,
  `ReplayAgreement.OneAudienceJoinsApart`);
- hellos with equal device IDs stay in the order each side names them, so two ends with one ID never confirm each other, while a side
  accepts its own ready message (`Handshake.HonestHandshakeIff`, `Handshake.OwnReadyAcceptedIff`);
- `Decrypt` marks a sequence number before it authenticates, so a forged envelope with a fitting header uses up the number of a
  genuine one (`Channel.GenuineAcceptedIff` gives the exact condition);
- two grants signed for one device in the same nanosecond share an ID and the later takes the place of the earlier, so a status can go
  back from expired to active, exactly as `TrustRootStatus.StatusNeverGoesBackIff` says, though never from revoked;
- a refresh token is checked and spent under separate holds of the lock, so it is accepted at most once exactly when no other check
  comes in between (`RelaySections.OnceOnlyIff`);
- a refresh request that passed its check before `revokeAccess` marks the device still renews after it, so a marked device can hold a
  valid pair without a new bind, exactly as `RelaySections.ValidAfterMarkingIff` says;
- `verifyGrant` consults the device's epoch and not the revoked grants (`TrustRootStatus.VerifiedIsActive`);
- a device bound again after `revokeAccess` gets tokens that work outside the production profile but is still refused by `connect`.

## Model

| member | source | states |
|---|---|---|
| `GoStrings.SortKeys` | pkg/iscp/canonical/canonical.go:191-195 | distinct names come out each once, and of any two the first is a proper prefix of the second or has the smaller code point at the first place where they differ, whatever order they arrive in |
| `GoStrings.BeforeIff` | pkg/iscp/canonical/canonical.go:195 | one string sorts before another exactly when it is a proper prefix of it or has the smaller code point at their first difference |
| `GoStrings.IncreasingUnique` | pkg/iscp/canonical/canonical.go:191-195 | a set of names has only one increasing listing, so the printed text cannot depend on map iteration |
| `JsonText.StringRoundTrip` | pkg/iscp/canonical/canonical.go:183-185 | every string written with the escapes of `json.Marshal` is scanned back to itself, and the scan stops at its closing quote |
| `JsonText.IntRoundTrip` | pkg/iscp/canonical/canonical.go:150-165 | an integer that is written is read back as itself, or refused exactly when it does not fit in 64 bits |
| `Json.ParseEncode` | pkg/iscp/canonical/canonical.go:94-171 | every written document, of any nesting, parses to the value it stands for; it is refused exactly when a name repeats or an integer is out of range |
| `JsonFields.FieldOrderIrrelevant` | pkg/iscp/canonical/canonical.go:103-120 | the value a written object stands for does not depend on the order of its own members |
| `JsonFields.OrderIrrelevant` | pkg/iscp/canonical/canonical.go:94-171 | nor on the order of members at any depth |
| `JsonFields.MarshalIgnoresOrder` | pkg/iscp/canonical/canonical.go:18-45 | texts that differ only in the order of members, at any depth, parse to the same value and marshal to the same text, or are refused alike |
| `Canonical.PrintParse` | pkg/iscp/canonical/canonical.go:173-224 | round trip: the canonical text of every value with 64-bit integers parses strictly to that value |
| `Canonical.PrintInjective` | pkg/iscp/canonical/canonical.go:173-224 | different values have different canonical texts |
| `Canonical.MarshalEncoded` | pkg/iscp/canonical/canonical.go:35-45 | on any written document, `Marshal` gives the canonical text of the value it stands for, or fails with the parser |
| `Canonical.MarshalIdempotent` | pkg/iscp/canonical/canonical.go:35-45 | marshalling canonical text again changes nothing, for every input that marshals |
| `Canonical.MarshalEqualIff` | pkg/iscp/canonical/canonical.go:35-45 | two inputs have the same canonical text if and only if they parse to the same value |
| `Canonical.SignatureInputSeparates` | pkg/iscp/canonical/canonical.go:55-75 | equal signature inputs imply the same object type and the same object up to its top-level `signature`, for all type names, with or without NUL |
| `Canonical.SignatureInputIgnoresSignature` | pkg/iscp/canonical/canonical.go:55-75 | two objects have the same signature input if and only if they agree on every member but `signature` |
| `CanonicalText.MembersAreSorted` | pkg/iscp/canonical/canonical.go:190-208 | the members of an object are written each once with their canonical values, and of any two the name that is a proper prefix or has the smaller code point at the first difference comes first |
| `CanonicalText.MarshalSortsMembers` | pkg/iscp/canonical/canonical.go:35-45 | what `Marshal` returns for any object document is its members in that order |
| `CanonicalText.NoSpaceOutsideStrings` | pkg/iscp/canonical/canonical.go:173-224 | canonical text has white space only inside strings: without a blank in a string or name it has none at all |
| `CanonicalText.PlainTextUnchanged` | pkg/iscp/canonical/canonical.go:183-185 | a text without control characters, quotes, backslashes, HTML characters or line separators is written as it is |
| `CanonicalText.ShortEscapes` | pkg/iscp/canonical/canonical.go:183-185 | quotes, backslashes and the five control characters with a letter are written as two characters |
| `CanonicalText.UnitEscapes` | pkg/iscp/canonical/canonical.go:183-185 | HTML characters, line separators and the other control characters are written as code units with lower-case digits |
| `CanonicalText.EscapedIsPlain` | pkg/iscp/canonical/canonical.go:183-185 | no written string, of whatever text, contains a control character, an HTML character or a line separator |
| `CanonicalText.SingleUnitRead` | pkg/iscp/canonical/canonical.go:94-171 | a code unit in either case of digits is read as its character, and half a surrogate pair alone as U+FFFD |
| `CanonicalText.PairRead` | pkg/iscp/canonical/canonical.go:94-171 | the surrogate pair that UTF-16 has for any character beyond U+FFFF is read as that character |
| `CanonicalText.CodeUnitIff` | pkg/iscp/canonical/canonical.go:94-171 | a code unit stands only where a backslash, a u and four hexadecimal digits do, and an escape that starts otherwise is refused |
| `CanonicalText.IntReadIff` | pkg/iscp/canonical/canonical.go:150-165 | an integer is read exactly where its own decimal text stands and no digit, fraction or exponent follows: leading zeros, minus zero, floats and what exceeds 64 bits are refused |
| `CanonicalText.SpaceIgnored` | pkg/iscp/canonical/canonical.go:94-171 | blanks, tabs and line ends are ignored before every token of a document |
| `CanonicalText.StartsValue` | pkg/iscp/canonical/canonical.go:94-171 | nothing but those four characters and the first character of a value can stand at the front of an accepted text |
| `CanonicalText.DocumentIff` | pkg/iscp/canonical/canonical.go:18-33 | a written document followed by a tail is accepted exactly when the tail is white space, or white space and then a closing bracket |
| `CanonicalText.SecondValueRefused` | pkg/iscp/canonical/canonical.go:25-31 | a second value after the first is refused, whatever the two are |
| `CanonicalText.SignedBytes` | pkg/iscp/canonical/canonical.go:55-75 | what is signed is the prefix `ISCP-V2-SIGNATURE`, NUL, the type, NUL and the members other than `signature` in order of name |
| `CanonicalDecoder.ParseValueAt` | pkg/iscp/canonical/canonical.go:94-171 | the recursive token loop returns exactly the value of the grammar and leaves the decoder right behind it, inside the same brackets; it fails exactly when the grammar does |
| `CanonicalDecoder.ParseArrayBody` | pkg/iscp/canonical/canonical.go:130-146 | the array loop reads the grammar's elements and consumes the closing bracket |
| `CanonicalDecoder.ParseMember` | pkg/iscp/canonical/canonical.go:105-120 | one turn of the object loop: a new name and its value, or nothing exactly when the whole object is refused |
| `CanonicalDecoder.ParseObjectBody` | pkg/iscp/canonical/canonical.go:102-129 | the object loop reads the grammar's members, refuses a repeated name, and consumes the closing brace |
| `CanonicalDecoder.ParseDocument` | pkg/iscp/canonical/canonical.go:18-33 | `ParseStrict` as written, with the end-of-input test that tolerates a tail starting with a closing bracket |
| `CanonicalDecoder.WriteCanonical` | pkg/iscp/canonical/canonical.go:173-224 | the recursive writer appends exactly the canonical text of the value |
| `CanonicalDecoder.WriteItems` | pkg/iscp/canonical/canonical.go:209-219 | the array loop with its commas and brackets |
| `CanonicalDecoder.WriteMembers` | pkg/iscp/canonical/canonical.go:190-208 | the object loop over the sorted names |
| `CanonicalDecoder.MarshalDocument` | pkg/iscp/canonical/canonical.go:35-45 | the loops together compute `Marshal` for every input, and an object comes out as all its members in order of name, by prefix or first difference |
| `CanonicalDecoder.SignatureBytes` | pkg/iscp/canonical/canonical.go:55-75 | computes the signature input of every object document, byte by byte: prefix, type, NUL and the sorted members without `signature`; refuses every other input |
| `Crypto.EquationsConsistent` | pkg/iscp/crypto/crypto.go:74-150 | one provider satisfies all the equations assumed of the primitives at once, so no result rests on a contradiction |
| `Handshake.TranscriptBinds` | pkg/iscp/session/session.go:259-285 | equal transcript hashes imply the same session, domain, two hellos, device IDs and key thumbprints |
| `Handshake.ReadyAgreement` | pkg/iscp/session/session.go:178-237 | if A accepts a ready message that B made, and their IDs differ, both saw the same two hellos, agree on session, domain, transcript and identity keys, and each sends under the key the other receives under |
| `Handshake.KeysMirrorIffDistinct` | pkg/iscp/session/session.go:259-292 | after confirmation A sends under the key B receives under if and only if the device IDs differ; when they are equal, the message A accepted is its own, from the same session with the same local and remote hello |
| `Handshake.EqualIDsNeverConfirm` | pkg/iscp/session/session.go:259-266 | two ends with equal device IDs and different hellos never confirm each other |
| `Handshake.HonestHandshake` | pkg/iscp/session/session.go:64-237 | two devices with different IDs that exchange hellos and ready messages undisturbed both establish the session and both accept |
| `Handshake.HonestHandshakeIff` | pkg/iscp/session/session.go:64-285 | for any two devices of one domain both establish the session, and each accepts the other's ready message if and only if the IDs differ or both hellos and both key thumbprints are the same |
| `Handshake.OwnReadyAcceptedIff` | pkg/iscp/session/session.go:195-237 | a side accepts its own ready message, reflected, if and only if its two device IDs are equal |
| `Handshake.ReflectedReadyAccepted` | pkg/iscp/session/session.go:123-237 | a device that answers its own ID establishes a session and becomes ready by its own message |
| `HandshakeAuthentication.HelloSignedAs` | pkg/iscp/session/session.go:64-87 | a hello is signed as its nine JSON members by name, in canonical form after the prefix and its type |
| `HandshakeAuthentication.ReadySignedAs` | pkg/iscp/session/session.go:178-193 | a ready message is signed as its five JSON members by name |
| `HandshakeAuthentication.AcceptedHelloWasMade` | pkg/iscp/session/session.go:64-121 | if a signature verifies only over what the device signed, every accepted hello has the type, suite, session, peer, ephemeral key, grant and time of one hello that the device made, and its device and domain IDs |
| `HandshakeAuthentication.AlteredHelloRefused` | pkg/iscp/session/session.go:89-121 | a hello that differs from the one its signature was made for in any field but the signature is refused |
| `HandshakeAuthentication.MadeHelloAcceptedIff` | pkg/iscp/session/session.go:64-121 | a hello that a device made is accepted under its key exactly for its own device ID and domain |
| `HandshakeAuthentication.EstablishedWithMadeHello` | pkg/iscp/session/session.go:123-176 | a session is established only with a hello that the peer's device made for this session, in this domain, naming this device as its peer; it records both ends and starts unready with nothing sent or seen |
| `HandshakeAuthentication.EstablishedIff` | pkg/iscp/session/session.go:123-176 | with a hello that the peer's device made, a session is established exactly when the hellos agree on session and domain and each names the other's device |
| `HandshakeAuthentication.BadKeyAcceptsNothing` | pkg/iscp/session/session.go:99-106 | under an identity key that does not decode to 32 bytes no hello and no ready message is accepted |
| `HandshakeAuthentication.MadeReadyAccepted` | pkg/iscp/session/session.go:178-237 | a ready message that a device made, signed as Ed25519 under its key ID, is accepted by the other end of the session it was made for |
| `HandshakeAuthentication.AcceptedReadyWasMade` | pkg/iscp/session/session.go:178-237 | every accepted ready message was made by the peer's device from a session with the same ID, transcript and ready key whose own end is this one's peer |
| `HandshakeAuthentication.AcceptedReadyAgreement` | pkg/iscp/session/session.go:178-237 | key confirmation against any message: when a ready message is accepted under the key of a device that signs only for sessions it holds, that device holds a session with the same hellos, domain, transcript and identity keys and with the two directions' keys exchanged |
| `HandshakeAuthentication.KeysDerivedAs` | pkg/iscp/session/session.go:149-176 | the end with the smaller device ID sends under the key for `low-to-high` and the other under `high-to-low`, both derived, like the ready key, from the X25519 secret and the transcript |
| `HandshakeAuthentication.TranscriptWritten` | pkg/iscp/session/session.go:259-285 | the transcript hash is that of ten JSON members by name, with hello, identity and thumbprint of the smaller device ID first |
| `HandshakeAuthentication.ThumbprintBinds` | pkg/iscp/crypto/crypto.go:201-205 | equal thumbprints mean the same key type and the same key |
| `SessionState.State.constructor` | pkg/iscp/session/session.go:123-176 | a new state has nothing sent, nothing seen and is not ready |
| `SessionState.Establish` | pkg/iscp/session/session.go:123-176 | no state, or a new one with nothing sent or received, not ready, and the keys and transcript of `Established`; a state only if the remote hello is for this session and domain, the two hellos name each other, and the remote hello has field by field what the peer's device put into a hello it signed |
| `SessionState.VerifyHello` | pkg/iscp/session/session.go:89-121 | accepts exactly under the stated checks; whatever it accepts under a device's key has, field by field, what that device put into a hello it signed |
| `SessionState.ComputeTranscriptHash` | pkg/iscp/session/session.go:259-285 | the hash of the canonical text of the sorted hellos and identities |
| `SessionState.State.CreateReady` | pkg/iscp/session/session.go:178-193 | the ready message bound to this transcript and ready key |
| `SessionState.State.VerifyReady` | pkg/iscp/session/session.go:195-237 | becomes ready exactly when the message is bound to this session, transcript and ready key and is signed by the peer; otherwise nothing changes |
| `SessionState.State.NextSend` | pkg/iscp/session/session.go:243-249 | hands out the counter and its nonce and advances it modulo 2^64 |
| `SessionState.State.MarkReceived` | pkg/iscp/session/session.go:251-257 | accepts a sequence number exactly when it has not been seen |
| `Envelope.NonceInjective` | pkg/iscp/session/session.go:243-249 | different sequence numbers have different nonces |
| `Envelope.AadExists` | pkg/iscp/envelope/envelope.go:91-99 | an envelope has associated data if and only if its sequence number is below 2^63 |
| `Envelope.AadBinds` | pkg/iscp/envelope/envelope.go:91-99 | equal associated data implies equal envelopes up to the ciphertext |
| `SessionState.Encrypt` | pkg/iscp/envelope/envelope.go:34-61 | refuses before the peer's ready message; otherwise the envelope carries the given message ID, payload type and route, the session's names and the next sequence number, sealed as `Encrypted` says; the number is used up even when the associated data cannot be formed |
| `SessionState.Decrypt` | pkg/iscp/envelope/envelope.go:63-89 | refuses before ready, on a header that does not fit and on a number seen before; otherwise marks the number, before anything is authenticated, and returns what the AEAD opens |
| `Channel.DeliveredAtMostOnceAndOnlyIfSent` | pkg/iscp/envelope/envelope.go:34-99 | in every run, over a channel that drops, repeats, reorders, reflects and alters, the payloads each side is given map one-to-one into the peer's `Encrypt` calls with the same header, and nothing happens before ready |
| `ChannelOrigins.SentAnswersCalls` | pkg/iscp/envelope/envelope.go:34-61 | in every run the envelopes a side sends answer its `Encrypt` calls one by one, in order, each with its call's message ID, payload type, route and payload; the n-th call has number n modulo 2^64, or no envelope from 2^63 on |
| `ChannelOrigins.DeliveriesAreCalls` | pkg/iscp/envelope/envelope.go:34-89 | in every run, whatever the channel does, the payloads a side is given map one-to-one into `Encrypt` calls of its peer: the call had that payload, message ID, payload type and route, and came after the peer was ready |
| `ChannelOrigins.MisaddressedIgnored` | pkg/iscp/envelope/envelope.go:63-72 | an envelope with another type, session, domain, sender or recipient changes nothing |
| `ChannelOrigins.NonceBytes` | pkg/iscp/session/session.go:243-249 | a nonce is twelve bytes, four zeros and the sequence number with the most significant byte first |
| `ChannelOrigins.AadWritten` | pkg/iscp/envelope/envelope.go:91-99 | the associated data is the canonical JSON of eleven members by name, the ciphertext empty |
| `Channel.ConfirmedSessionsMirror` | pkg/iscp/session/session.go:195-237 | key confirmation puts two sessions into the state from which the channel results hold |
| `Channel.NonceReuseIff` | pkg/iscp/session/session.go:243-249 | two sealings under one key share a nonce if and only if their calls are a multiple of 2^64 apart; the two directions never share a key; no sealed sequence number reaches 2^63 |
| `Channel.NoncesUnique` | pkg/iscp/session/session.go:243-249 | up to 2^64 calls no nonce repeats under one key |
| `Channel.SeenAreSpent` | pkg/iscp/envelope/envelope.go:63-75 | in every run a side is ready exactly after its confirmation, and the numbers it has seen are exactly those handed to it in a fitting header while it was ready |
| `Channel.GenuineAcceptedIff` | pkg/iscp/envelope/envelope.go:63-89 | in both directions of every run, an unaltered envelope of the peer is accepted with its payload if and only if the side is ready and no envelope with its number, genuine or not, was handed to it in a fitting header since |
| `Channel.ForgeryCostsTheMessage` | pkg/iscp/envelope/envelope.go:73-88 | at every ready side, for every genuine envelope there is a forged one with the same header that delivers nothing and after which the genuine one delivers nothing |
| `RateLimit.Limiter.constructor` | pkg/server/ratelimit/ratelimit.go:20-22 | a new limiter has no counters |
| `RateLimit.Limiter.Allow` | pkg/server/ratelimit/ratelimit.go:24-38 | the answer and the new counter of this key; other keys' counters are unchanged |
| `RateLimit.KeysIndependent` | pkg/server/ratelimit/ratelimit.go:24-38 | what one key is allowed in any run depends only on its own requests |
| `RateLimit.SlidingBound` | pkg/server/ratelimit/ratelimit.go:24-38 | any closed interval of n windows holds at most (n + 1) * limit - 1 allowed requests of one key |
| `RateLimit.WindowBound` | pkg/server/ratelimit/ratelimit.go:24-38 | the window that a request opens holds at most `limit` |
| `RateLimit.SlidingBoundSharp` | pkg/server/ratelimit/ratelimit.go:24-38 | the bound 2 * limit - 1 for one window is reached |
| `RateLimit.ZeroResetUnbounded` | pkg/server/ratelimit/ratelimit.go:28-30 | a window that ends at the zero time never fills |
| `RateLimit.BoundedIff` | pkg/server/ratelimit/ratelimit.go:24-38 | over a set of instants the bound holds in every run if and only if no window opened at one of them ends at the zero time |
| `Replay.Cache.constructor` | pkg/server/replay/replay.go:13-15 | a new cache is empty |
| `Replay.Cache.Use` | pkg/server/replay/replay.go:17-30 | purges, accepts exactly when the key is not there or has expired, and afterwards holds exactly the entries that have not expired and the accepted one |
| `Replay.NonceTable.DeleteExpired` | pkg/server/repository/proof_nonce.go:34-36 | removes the expired rows of one domain, or fails on a domain that a text column cannot hold |
| `Replay.NonceTable.Insert` | pkg/server/repository/proof_nonce.go:37-44 | a new row, its expiry in microseconds, a uniqueness violation, or a failure on text that a column cannot hold |
| `Replay.NonceTable.UseProofNonce` | pkg/server/repository/proof_nonce.go:27-53 | used, already used, or an error, which it is exactly for an incomplete scope and for a NUL in domain or device; and the new rows in each case |
| `Replay.RuleDetermines` | pkg/server/replay/replay.go:17-30 | the simple rule (accept unless an earlier accepted use of the key expires later than now) fixes every answer of a run |
| `Replay.CacheFollowsRule` | pkg/server/replay/replay.go:17-30 | with a clock that does not go back, the cache answers every run by the rule |
| `Replay.TableFollowsRule` | pkg/server/repository/proof_nonce.go:27-53 | so does the table for the times its columns hold, although it purges other entries at other moments |
| `ReplayAgreement.AgreeIff` | pkg/server/repository/proof_nonce.go:27-58 | on a run over scopes the table takes, cache and table agree if and only if no use comes before an accepted use of its scope expires but within the microsecond of that expiry |
| `ReplayAgreement.AlwaysAgreeIff` | pkg/server/repository/proof_nonce.go:27-58 | they agree on every run over a set of scopes, of expiries and of instants if and only if each scope is complete without a NUL in domain or device and no instant falls into the microsecond of a later expiry (or there is nothing to run over) |
| `ReplayAgreement.WholeExpiriesAgree` | pkg/server/repository/proof_nonce.go:27-58 | with expiries on whole microseconds they agree on every run over scopes the table takes, at whatever instants |
| `ReplayAgreement.BothFollowTheRule` | pkg/server/repository/proof_nonce.go:27-58 | on every run over scopes the table takes, the cache answers by the rule for domain, device and the joined audience and nonce at the true times, the table at the times cut to microseconds |
| `ReplayAgreement.NulInDeviceDiffers` | pkg/server/repository/proof_nonce.go:37-52 | a run of one use on which the cache accepts and the table fails |
| `ReplayAgreement.SameMicrosecondDiffers` | pkg/server/repository/proof_nonce.go:34-44 | a run of two uses within the microsecond of the expiry on which the cache refuses the second and the table takes it |
| `ReplayAgreement.KeysTellAlike` | pkg/server/repository/proof_nonce.go:55-58 | both stores tell apart exactly the scopes that differ once audience and nonce are joined by NUL |
| `ReplayAgreement.NulMergesScopes` | pkg/server/repository/proof_nonce.go:55-58 | two different scopes, a NUL in one's nonce and the other's audience, that both stores take for one |
| `ReplayAgreement.ByScopeIff` | pkg/server/repository/proof_nonce.go:27-58 | on such a run both stores answer by the rule for the scope itself if and only if they agree on it and no use comes before an accepted use of another scope expires that joins to the same |
| `ReplayAgreement.RuleForScopeItselfIff` | pkg/server/repository/proof_nonce.go:27-58 | where no instant falls into the microsecond of a later expiry, they do so on every run over a set of scopes if and only if no two scopes join to the same |
| `ReplayAgreement.PlainAudiencesJoinApart` | pkg/server/repository/proof_nonce.go:55-58 | scopes without a NUL in the audience never join to the same, whatever the nonces contain |
| `ReplayAgreement.OneAudienceJoinsApart` | services/relay-reference/internal/relay/server.go:750-774 | nor do the scopes of one service, which takes only its own audience, with or without NULs |
| `Replay.ProofAcceptedIff` | services/relay-reference/internal/relay/server.go:750-774 | in a run of proofs, one is accepted exactly when it is in its window, authentic, and no earlier accepted one with its key is unexpired |
| `Replay.FirstProofAcceptedIff` | pkg/iscp/identity/identity.go:98-110 | the first proof with its key is accepted exactly when it is authentic, has a nonce, and lies in the window around its issue time, closed at both ends |
| `Replay.ProofAcceptedOnce` | services/relay-reference/internal/relay/server.go:750-774 | a proof accepted under ttl1 is accepted again under ttl2 <= ttl1 only at the single instant issued-at + ttl1, with ttl2 = ttl1 |
| `Replay.ProofReacceptedIff` | pkg/iscp/identity/identity.go:98-110 | exactly when an accepted proof is accepted again by a later call, for any two times-to-live |
| `MessageTable.Repository.StoreMessage` | pkg/server/repository/relay.go:223-252 | refuses exactly a missing domain, a NUL in a text column and a priority outside 0 to 9; a message stored again changes envelope, priority and expiry and keeps recipient, queue time, claim, attempts and delivery |
| `MessageTable.Repository.ClaimPendingMessagesFor` | pkg/server/repository/relay.go:254-294 | takes a first-`limit` set of the eligible rows by priority then queue time, leases it and counts the attempt |
| `MessageTable.Repository.MarkMessageDelivered` | pkg/server/repository/relay.go:346-364 | marks one row delivered and nothing else |
| `MessageTable.PickFirst` | pkg/server/repository/relay.go:254-294 | selecting the best row again and again yields a first-`limit` set |
| `MessageTable.PickUniqueUpToTies` | pkg/server/repository/relay.go:254-294 | which rows are taken is determined up to rows of equal priority and queue time |
| `MessageTable.AttemptsCountClaims` | pkg/server/repository/relay.go:254-294 | in every run of any number of instances, a row's attempt count is the number of claims of it, and nothing is claimed that is not stored |
| `MessageTable.ClaimsLeaseApart` | pkg/server/repository/relay.go:254-294 | two claims of one row are at least the first claim's lease apart, to the microsecond of the columns and exactly for a lease that ends on a whole one, without any clock assumption |
| `MessageTable.LeaseExclusive` | pkg/server/repository/relay.go:254-294 | in no microsecond do two claims hold a lease on one row |
| `MessageTable.DeliveredNeverClaimed` | pkg/server/repository/relay.go:223-364 | a delivered row is never claimed again, even after the message is stored again |
| `MessageTable.LeftBehindOnlyWhenFull` | pkg/server/repository/relay.go:254-294 | a claim leaves an eligible row only when it is full, and never one that is ahead of a row it took |
| `MessageHistory.RowsFollowStatements` | pkg/server/repository/relay.go:223-364 | after any run a row has the recipient, sender and queue time of the message stored first under its key, the envelope, priority and expiry of the one stored last, and the lease and delivery that the statements since have left |
| `MessageHistory.ClaimTakesTheBest` | pkg/server/repository/relay.go:254-294 | a claim takes only messages stored for its recipient that are unexpired, undelivered and under no lease, and leaves such a message behind only if it is full and everything taken has a higher priority or, at the same one, no later queue time |
| `MessageHistory.EveryStatementRuns` | pkg/server/repository/relay.go:223-364 | in every table any message can be stored, any delivery marked, and a claim has rows to take as it promises |
| `DeliveryQueue.Queue.constructor` | pkg/server/queue/queue.go:37-39 | a new queue is empty |
| `DeliveryQueue.KeepLive` | pkg/server/queue/queue.go:128-138 | the filter that overwrites the slice it reads keeps exactly the live messages in order |
| `DeliveryQueue.Partition` | pkg/server/queue/queue.go:60-71 | the same loop moves out one recipient's live messages and keeps the other live ones in order |
| `DeliveryQueue.SortMessages` | pkg/server/queue/queue.go:72-77 | a permutation in which priorities never rise and, at equal priority, queue times never fall |
| `DeliveryQueue.Queue.DropExpired` | pkg/server/queue/queue.go:128-138 | the queue becomes its live messages and the byte counter their total |
| `DeliveryQueue.Queue.Recalculate` | pkg/server/queue/queue.go:140-146 | the byte counter becomes the sum of the envelope sizes |
| `DeliveryQueue.Queue.Enqueue` | pkg/server/queue/queue.go:41-55 | drops what has expired, then accepts exactly when the bytes of the unexpired messages and the new one fit the quota, and holds exactly those, the new one with a queue time |
| `DeliveryQueue.Queue.DequeueFor` | pkg/server/queue/queue.go:57-89 | returns unexpired messages of the recipient, as many as there are up to the limit, by falling priority and then rising queue time; what stays for the recipient is in neither respect ahead of anything returned; everything unexpired is returned or stays, once |
| `DeliveryQueue.Queue.SnapshotMetadata` | pkg/server/queue/queue.go:91-120 | drops what has expired and reports every field but the envelope of each message that is left, by falling priority and then rising queue time |
| `DeliveryLedger.DequeueTakesTheBest` | pkg/server/queue/queue.go:57-89 | out is sorted, as long as the limit allows, nothing left is ahead of it, and out plus what is left is exactly what was live |
| `DeliveryLedger.DequeueKeepsOthersInOrder` | pkg/server/queue/queue.go:57-89 | everyone else's live messages keep their order |
| `DeliveryLedger.Ledger` | pkg/server/queue/queue.go:41-146 | conservation: in every run, accepted = queued + returned + dropped, as multisets |
| `DeliveryLedger.DroppedOnlyAfterExpiry` | pkg/server/queue/queue.go:63-65 | only an operation after its expiry drops a message |
| `DeliveryLedger.ReturnedOnlyLive` | pkg/server/queue/queue.go:57-89 | only its own recipient gets a message, and only while it is live |
| `DeliveryLedger.Fate` | pkg/server/queue/queue.go:41-146 | a message accepted once is in exactly one of queue, returned and dropped, once |
| `DeliveryLedger.QuotaHolds` | pkg/server/queue/queue.go:41-146 | the quota holds in every state of every run |
| `DeliveryLedger.DeliveriesComeInOrder` | pkg/server/queue/queue.go:57-89 | without enqueues in between, one recipient's successive deliveries form one sorted sequence, whatever limits, times and other recipients' calls |
| `DeliveryLedger.Drains` | pkg/server/queue/queue.go:57-89 | at one time, what was handed out and what is left always make up the live messages, and each call takes at least one while there are any |
| `DeliveryLedger.DequeuesExhaust` | pkg/server/queue/queue.go:57-89 | as many calls as there are live messages hand out exactly those, sorted, and leave none |
| `KeyRing.Ring.constructor` | pkg/server/keyring/keyring.go:31-33 | a new ring is empty |
| `KeyRing.Ring.Add` | pkg/server/keyring/keyring.go:35-39 | the key is stored under its ID |
| `KeyRing.Ring.FindActive` | pkg/server/keyring/keyring.go:41-50 | returns an active key if there is any, and nothing exactly when there is none, for every iteration order |
| `KeyRing.Ring.Get` | pkg/server/keyring/keyring.go:52-60 | finds exactly the keys that are there and not revoked |
| `KeyRing.Ring.Rotate` | pkg/server/keyring/keyring.go:72-88 | the loop retires every active key and then activates the next one; without a next key nothing changes |
| `KeyRing.ExactlyOneActive` | pkg/server/keyring/keyring.go:72-88 | in every run of additions and rotations, interleaved in any way, exactly one key is active: the one last rotated to |
| `KeyRing.KeysStayRetrievable` | pkg/server/keyring/keyring.go:41-88 | a key keeps its key pair for ever and only moves from next to active to retired, so a once-active key stays retrievable with the same public key |
| `TrustGrant.GrantInputExists` | pkg/iscp/trust/trust.go:103-109 | a grant can be signed if and only if its epoch is below 2^63 |
| `TrustGrant.GrantInputBinds` | pkg/iscp/trust/trust.go:103-109 | what is signed determines every field of the grant but the signature, with or without relay constraints |
| `TrustGrant.GrantSignedAs` | pkg/iscp/trust/trust.go:103-109 | a grant is signed as its JSON members by name, relay constraints only if there are any |
| `TrustGrant.SignedGrantAcceptedIff` | pkg/iscp/trust/trust.go:41-101 | under the signing key, a signed grant is accepted if and only if it meets every condition other than the signature |
| `TrustGrant.SignGrant` | pkg/iscp/trust/trust.go:41-52 | the signed grant, or nothing when it cannot be signed |
| `TrustGrant.VerifyGrant` | pkg/iscp/trust/trust.go:54-101 | accepts exactly when every condition and the signature hold: whatever it accepts has the type, is inside its window, for the presented audience, subject, key, permission and relay, and not below the epoch |
| `TrustRoot.RevokedDeviceNeverVerifies` | services/trust-root-reference/internal/trust/server.go:231-408 | once `revokeDevice` has succeeded no later verification accepts any grant for the device, in every interleaving with the sections of `authorizeDevice`, resubmission, rotation and further revocations |
| `TrustRoot.AlwaysBelow` | services/trust-root-reference/internal/trust/server.go:270-358 | in every state, every epoch signed or in flight for a device is at most the current one, and below it once the device is revoked |
| `TrustRoot.RevocationExpels` | services/trust-root-reference/internal/trust/server.go:562-615 | a revocation raises the epoch above everything signed or in flight |
| `TrustRootGrants.AlwaysSound` | services/trust-root-reference/internal/trust/server.go:689-724 | in every state the ring holds key pairs under their own IDs and exactly one is active |
| `TrustRootGrants.KeysPersist` | services/trust-root-reference/internal/trust/server.go:791-811 | a signing key stays retrievable with the same key pair through every run |
| `TrustRootGrants.RecordsAdvance` | services/trust-root-reference/internal/trust/server.go:562-615 | records are never lost, versions never decrease, revoked is absorbing, and the epoch counts the device's revocations exactly |
| `TrustRootGrants.IssuedGrantVerifiesIff` | services/trust-root-reference/internal/trust/server.go:270-408 | an issued grant presented with its own bindings verifies if and only if the time is in its window and its device was not revoked since the request began, after any rotations |
| `TrustRootGrants.VerifiedWithinPolicy` | services/trust-root-reference/internal/trust/server.go:312-344 | whatever verifies was issued here and lasts no longer than policy allows for its first permission, even when the requested time-to-live overflows |
| `TrustRootStatus.RevokedIsAbsorbing` | services/trust-root-reference/internal/trust/server.go:456-502 | in every run with IDs that tell devices apart, replaced or not, once a query finds a grant revoked, by `revokeGrant` or through its device, every query that does not end before it does |
| `TrustRootStatus.StatusNeverGoesBackIff` | services/trust-root-reference/internal/trust/server.go:353-502 | in every run with IDs that tell devices apart, the status reported for an ID never goes back from revoked to expired to active, between any two queries in order at times in order, if and only if no section stores a grant with that ID in the place of one that is not revoked and expires earlier |
| `TrustRootStatus.StatusOnlyAdvances` | services/trust-root-reference/internal/trust/server.go:456-502 | whatever the IDs, the status of a stored grant that is not overwritten only advances |
| `TrustRootStatus.RevokedGrantStaysRevoked` | services/trust-root-reference/internal/trust/server.go:504-560 | a grant revoked by `revokeGrant` is reported revoked for ever, replaced or not |
| `TrustRootStatus.NeverReplaced` | services/trust-root-reference/internal/trust/server.go:334-356 | no grant ever replaces another when IDs tell device and time apart and no device has two grants signed at one instant |
| `TrustRootStatus.StatusAdvancesByTheClock` | services/trust-root-reference/internal/trust/server.go:334-356 | under that condition the status never goes back, for any ID in any run |
| `TrustRootStatus.ReplacedGrantRevives` | services/trust-root-reference/internal/trust/server.go:270-358 | a run with two signings for one device at one instant in which the status goes back from expired to active |
| `TrustRootStatus.VerifiedIsActive` | services/trust-root-reference/internal/trust/server.go:360-502 | when a stored grant verifies, every report on it so far said active, unless that grant was revoked by `revokeGrant` |
| `TrustRootHistory.LifetimeIs` | services/trust-root-reference/internal/trust/server.go:312-326 | a grant lasts as long as was asked for, in 64-bit nanoseconds, if that is positive and within the hour for text or the five minutes for audio frames that policy allows, and that long otherwise; no other permission is granted |
| `TrustRootHistory.KeyIDIsThumbprint` | services/trust-root-reference/internal/trust/server.go:689-724 | the ID of a signing key is the thumbprint of its public key |
| `TrustRootHistory.RecordsFollowEvents` | services/trust-root-reference/internal/trust/server.go:249-615 | after any run a device has a record exactly if it was submitted: the identity submitted last, the status, a version and an epoch that count its authorisations and revocations |
| `TrustRootHistory.AdmittedIff` | services/trust-root-reference/internal/trust/server.go:283-303 | an authorisation begins exactly for a device that was submitted and never revoked, and a revocation succeeds exactly for one that was submitted |
| `TrustRootHistory.RevokedGrantsIff` | services/trust-root-reference/internal/trust/server.go:504-560 | a grant is marked revoked exactly if a request revoked it while it was stored |
| `TrustRootHistory.RevokedGrantReported` | services/trust-root-reference/internal/trust/server.go:456-560 | once a stored grant has been revoked, every query that starts afterwards reports it revoked, at whatever time, whatever else happens |
| `TrustRootHistory.LogFollowsEvents` | services/trust-root-reference/internal/trust/server.go:504-615 | the log has exactly one entry per revocation that succeeded, in order, with its device or grant, reason and time |
| `TrustRootHistory.SignedWasAuthorised` | services/trust-root-reference/internal/trust/server.go:270-348 | whatever the service signed, it signed for a request of a submitted, unrevoked device, with what was asked for, the key of the identity submitted last, epoch and window |
| `TrustRootHistory.VerifiedWasAuthorised` | services/trust-root-reference/internal/trust/server.go:270-408 | every grant that verifies goes back to a request for exactly the presented subject, audience, relay and permission, of a device submitted with the presented key and not revoked when its record is read, inside the window of the signing |
| `TrustRootHistory.StoredIsIssued` | services/trust-root-reference/internal/trust/server.go:353-356 | what is stored is the grant that was signed, under its ID |
| `TrustRootHistory.IssuedStatusIs` | services/trust-root-reference/internal/trust/server.go:270-502 | the status of an issued grant in terms of requests: revoked exactly if it was revoked by ID or its device was ever revoked, otherwise expired exactly from signing time plus time to live on |
| `TrustServer.MakeGrant` | services/trust-root-reference/internal/trust/server.go:312-348 | policy lookup, default permission, clamped time-to-live, bindings and signature of a grant |
| `TrustRoot.IssuableIff` | services/trust-root-reference/internal/trust/server.go:312-348 | a begun request can be signed if and only if policy knows its first permission and its epoch is below 2^63 |
| `TrustServer.Server.constructor` | services/trust-root-reference/internal/trust/server.go:113-151 | a new service has one active key and nothing else |
| `TrustServer.Server.SubmitDevice` | services/trust-root-reference/internal/trust/server.go:249-257 | a new record starts at version 1; an old one keeps status, version and epoch |
| `TrustServer.Server.BeginAuthorize` | services/trust-root-reference/internal/trust/server.go:283-303 | the first section of `authorizeDevice`: refuses unknown and revoked devices |
| `TrustServer.Server.IssueGrant` | services/trust-root-reference/internal/trust/server.go:312-348 | signing with the active key, outside the lock |
| `TrustServer.Server.StoreGrant` | services/trust-root-reference/internal/trust/server.go:353-356 | the second section of `authorizeDevice` |
| `TrustServer.Server.FinishAuthorize` | services/trust-root-reference/internal/trust/server.go:312-357 | what follows the first section, undisturbed |
| `TrustServer.Server.AuthorizeDevice` | services/trust-root-reference/internal/trust/server.go:270-358 | undisturbed, it succeeds exactly for a known, unrevoked device with a known permission, a signable epoch and an active key, and stores exactly what it signed |
| `TrustServer.Server.VerifyGrantRequest` | services/trust-root-reference/internal/trust/server.go:360-408 | accepts exactly when the key is found and the grant is accepted with the device's current epoch |
| `TrustServer.Server.GrantStatusOf` | services/trust-root-reference/internal/trust/server.go:456-502 | not found for an unknown grant and for another domain, otherwise the status by revocation, then expiry |
| `TrustServer.Server.RevokeStoredGrant` | services/trust-root-reference/internal/trust/server.go:504-560 | succeeds exactly for a stored grant, adds one log entry, and from then on the status of the grant is revoked at any time; nothing else changes |
| `TrustServer.Server.RevokeKnownDevice` | services/trust-root-reference/internal/trust/server.go:562-615 | succeeds exactly for a submitted device, which is then revoked with an epoch one higher, and adds one log entry |
| `TrustServer.Server.RotateKeys` | services/trust-root-reference/internal/trust/server.go:689-724 | a new key always becomes the only active one |
| `TrustServer.Server.Revocations` | services/trust-root-reference/internal/trust/server.go:617-687 | an empty feed for another domain; otherwise a page of up to 100 entries or the limit asked for, which is refused exactly outside 1 to 200 |
| `RevocationFeed.FindStart` | services/trust-root-reference/internal/trust/server.go:666-674 | the place after the cursor, or the beginning for an unknown one |
| `RevocationFeed.ListPage` | services/trust-root-reference/internal/trust/server.go:664-686 | the scanning loops compute the page and its cursor |
| `RevocationFeed.PageStarts` | services/trust-root-reference/internal/trust/server.go:664-686 | a page continues behind the entry its cursor names, or from the beginning when none does, with as many entries as the limit allows |
| `RevocationFeed.FollowedPagesArePrefix` | services/trust-root-reference/internal/trust/server.go:664-686 | what has been read after any page is a prefix of the log without gap or repeat; a page has no cursor exactly when it completes the log, and one with a cursor is full |
| `RevocationFeed.FeedIsComplete` | services/trust-root-reference/internal/trust/server.go:617-687 | in any run, with any limits and any revocations between the pages, the feed delivers a prefix of the revocation log, and all of it exactly when a page comes back without a cursor |
| `RelayCredentials.Server.constructor` | services/relay-reference/internal/relay/server.go:120-137 | a new relay has no credentials and no devices |
| `RelayCredentials.Server.IssueCredentials` | services/relay-reference/internal/relay/server.go:705-732 | a new pair, 15 minutes and 24 hours, under the hashes of its tokens |
| `RelayCredentials.Server.BindIdentity` | services/relay-reference/internal/relay/server.go:734-748 | a pair for the device, and its identity; an earlier revocation stays |
| `RelayCredentials.Server.CheckRefresh` | services/relay-reference/internal/relay/server.go:339-362 | the credential of an unrevoked, unexpired token, and nothing for any other |
| `RelayCredentials.Server.RefreshAccess` | services/relay-reference/internal/relay/server.go:327-370 | with nothing in between, accepts an unrevoked, unexpired token, spends it and issues a new pair for its device |
| `RelayCredentials.Server.RevokeRefreshCredential` | services/relay-reference/internal/relay/server.go:876-889 | marks the token's credential revoked, if there is one |
| `RelayCredentials.Server.AuthenticateAccess` | services/relay-reference/internal/relay/server.go:776-811 | accepts exactly a known, unrevoked token before its expiry with its proof, and marks one that is past it |
| `RelayCredentials.Server.RevokeAccess` | services/relay-reference/internal/relay/server.go:372-421 | who may revoke whom, and the marks on device and credentials |
| `RelayCredentials.MarkRevoked` | services/relay-reference/internal/relay/server.go:397-408 | the loop marks exactly the device's credentials, in every iteration order |
| `RelayCredentials.RefreshAcceptedIff` | services/relay-reference/internal/relay/server.go:327-370 | a refresh token is accepted if and only if it has not expired, was not accepted before, and its device was not revoked since it was issued |
| `RelayCredentials.RefreshAcceptedOnce` | services/relay-reference/internal/relay/server.go:327-370 | no refresh token is accepted twice in any run of uninterrupted handlers |
| `RelayCredentials.AccessAcceptedIff` | services/relay-reference/internal/relay/server.go:776-811 | with a clock that does not go back, an access token authenticates if and only if it has not expired and its device was not revoked since |
| `RelayCredentials.LapsedIsFinal` | services/relay-reference/internal/relay/server.go:776-811 | an access token presented after its expiry never works again, not even if the clock goes back |
| `RelayCredentials.RevokesIff` | services/relay-reference/internal/relay/server.go:372-409 | a valid token revokes its own device and no other, not even for an administrator; with a token that is no longer valid only an administrator revokes; a refused request revokes no device |
| `RelayCredentials.UnknownTokenNeedsAdmin` | services/relay-reference/internal/relay/server.go:383-389 | without a token that was issued only an administrator revokes, and otherwise nothing changes |
| `RelayCredentials.OthersTokenRevokesNothing` | services/relay-reference/internal/relay/server.go:390-393 | a valid token of another device changes nothing at all |
| `RelayCredentials.AdmitsIff` | services/relay-reference/internal/relay/server.go:564-583 | `connect` admits exactly the devices that have been bound and never revoked, under the identity bound last |
| `RelayCredentials.CredentialsGoBackToBinds` | services/relay-reference/internal/relay/server.go:327-370 | every credential, however often refreshed, goes back to a bind of its device in its domain and is kept under the hash of its own token |
| `RelayCredentials.RevocationIsFinal` | services/relay-reference/internal/relay/server.go:372-583 | after `revokeAccess` every token the device held is refused for ever and `connect` refuses it for ever, even after new binds |
| `RelayCredentials.UnrevokedCountsBinds` | services/relay-reference/internal/relay/server.go:327-421 | in every state of such a run a device has exactly as many unrevoked refresh credentials as binds since its last revocation |
| `RelaySections.SectionsMakeTheHandler` | services/relay-reference/internal/relay/server.go:327-370 | with nothing in between, check, spending and renewal are the handler as one step |
| `RelaySections.CheckPassesIff` | services/relay-reference/internal/relay/server.go:339-362 | in every interleaving of sections, a refresh token passes its check if and only if it has not expired, no request has spent it yet and its device has not been revoked since it was issued |
| `RelaySections.PassesAgainIff` | services/relay-reference/internal/relay/server.go:339-369 | a token that passed once passes again if and only if it is unexpired, its device unrevoked since, and no request has spent it in between |
| `RelaySections.OnceOnlyIff` | services/relay-reference/internal/relay/server.go:339-369 | a token is accepted at most once in a run if and only if after each check it passes no unexpired, unrevoked check comes before a spending |
| `RelaySections.BothChecksPass` | services/relay-reference/internal/relay/server.go:339-363 | a run in which two requests check before either spends and both are accepted |
| `RelaySections.MarkingIsFinal` | services/relay-reference/internal/relay/server.go:394-408 | in every interleaving, after the marking section every token the device then held is refused for ever and `connect` refuses it for ever |
| `RelaySections.ValidAfterMarkingIff` | services/relay-reference/internal/relay/server.go:327-408 | a device marked and not bound since has a valid refresh token if and only if a request in flight for it at the marking, or one descended from it, has renewed and the new token is unexpired, unspent and unmarked |
| `RelaySections.QuietMarkingEnds` | services/relay-reference/internal/relay/server.go:372-408 | so after a marking that meets no request in flight for the device it has no valid refresh token until it is bound again |
| `RelaySections.RenewedAfterMarking` | services/relay-reference/internal/relay/server.go:327-408 | a run in which a request checked before the marking renews after it and the device holds a valid pair |
| `RelaySections.UnrevokedIsBalance` | services/relay-reference/internal/relay/server.go:327-421 | in every interleaving a device has exactly as many unrevoked refresh credentials as were issued and renewed since it was last marked, less those consumed |

## Left out

- The inside of Ed25519, X25519, HKDF, ChaCha20-Poly1305, SHA-256 and base64url: library code, idealised by equations.
- HTTP and WebSocket plumbing, headers, administrator tokens, origins, logging and the audit list: input and output only.
- PostgreSQL branches of the Trust Root and of relay credentials; only the message table and the nonce table are durable here.
- Invalid UTF-8 in inputs, which the decoder replaces before the modelled code sees it.
- MessageTable.Repository.ClaimPendingMessagesFor: states which set of rows is taken and nothing about the order in which they
  come back, because `UPDATE ... RETURNING` promises none; each statement is one atomic step, so `SKIP LOCKED` has nothing to skip.
- TrustServer.Server.RevokeStoredGrant: one step, although the grant is looked up under an earlier lock hold; stored grants are
  never removed, so the answer is the same.
- The wrap-around of epochs and record versions after 2^64 revocations; queue sizes beyond a machine integer; saturation of time
  differences; times that RFC 3339 cannot write.
- A null list of permissions in a presented grant, which is refused before its signature is looked at.
- DeliveryQueue.Queue.SnapshotMetadata: sorts the messages and then describes them, where the service describes and then sorts;
  ties may come out in any order either way.
- The capacity with which Go grows a slice; only that it grows is modelled.
- Pairing tickets, bundles, recovery, descriptors, profile gates, hot-session tickets and control frames: straight-line checks that
  would add only easy members.
- RelayCredentials.Server.AuthenticateAccess: takes the outcome of the proof of possession, which only the production profile asks
  for, as a parameter; `Replay.ProofAcceptedIff` is about such proofs.
- Limits of PostgreSQL other than microseconds, NUL in text and the range of priorities: sizes of rows and index entries.
- Command line, conformance runner, schemas, packaging.
