/** The cryptographic provider (`pkg/iscp/crypto`) as a record of functions on byte strings, with the
    equations that correct and collision-free primitives satisfy. */
module Crypto {
  import opened GoStrings
  import opened JsonText
  import opened Json

  datatype Provider = Provider(
    sha256: string -> string,
    hmac: (string, string) -> string,              // key, data
    hkdf: (string, string, string) -> string,      // secret, salt, info
    edPublic: string -> string,                    // Ed25519 public key of a private key
    sign: (string, string) -> string,              // private key, message
    verify: (string, string, string) -> bool,      // public key, message, signature
    xPublic: string -> string,                     // X25519 public key of a private key
    shared: (string, string) -> Option<string>,    // private key, peer public key
    seal: (string, string, string, string) -> string,  // key, nonce, plaintext, associated data
    base64: string -> string,
    unbase64: string -> Option<string>)

  /** Key sizes that the parsers of public keys insist on. */
  const KEY_SIZE := 32

  /** Hash, MAC and key derivation never give the same output for different inputs. */
  ghost predicate CollisionFree(p: Provider) {
    && (forall x, y :: p.sha256(x) == p.sha256(y) ==> x == y)
    && (forall k, d, l, e :: p.hmac(k, d) == p.hmac(l, e) ==> k == l && d == e)
    && (forall s, t, i, u, v, j :: p.hkdf(s, t, i) == p.hkdf(u, v, j) ==> s == u && t == v && i == j)
  }

  /** Encoding, signing and key agreement do what they are for. */
  ghost predicate Correct(p: Provider) {
    && (forall x :: p.unbase64(p.base64(x)) == Some(x))
    && (forall k, m :: p.verify(p.edPublic(k), m, p.sign(k, m)))
    && (forall k :: |p.edPublic(k)| == KEY_SIZE && |p.xPublic(k)| == KEY_SIZE)
    && (forall a, b :: p.shared(a, p.xPublic(b)).Some? && p.shared(a, p.xPublic(b)) == p.shared(b, p.xPublic(a)))
  }

  /** What was sealed can be told from its ciphertext, as opening it requires. */
  ghost predicate Recoverable(p: Provider) {
    forall k, n, t, u, a :: p.seal(k, n, t, a) == p.seal(k, n, u, a) ==> t == u
  }

  // ----- the equations are consistent -----

  function Tuple(a: string, b: string, c: string): string {
    Quote(a) + (Quote(b) + Quote(c))
  }

  lemma TupleInjective(a: string, b: string, c: string, d: string, e: string, f: string)
    requires Tuple(a, b, c) == Tuple(d, e, f)
    ensures a == d && b == e && c == f
  {
    ParseQuoted(a, Quote(b) + Quote(c));
    ParseQuoted(d, Quote(e) + Quote(f));
    ParseQuoted(b, Quote(c));
    ParseQuoted(e, Quote(f));
    assert Quote(c) + "" == Quote(c) && Quote(f) + "" == Quote(f);
    ParseQuoted(c, "");
    ParseQuoted(f, "");
  }

  function Fixed(): (s: string)
    ensures |s| == KEY_SIZE
  {
    seq(KEY_SIZE, _ => 'k')
  }

  function Example(): Provider {
    Provider(
      x => x,
      (k, d) => Tuple(k, d, ""),
      (s, t, i) => Tuple(s, t, i),
      k => Fixed(),
      (k, m) => m,
      (k, m, s) => s == m,
      k => Fixed(),
      (k, q) => Some(q),
      (k, n, t, a) => Tuple(k, n, Tuple(t, a, "")),
      x => x,
      x => Some(x))
  }

  /** Some provider satisfies every equation at once, so no result below rests on a contradiction. */
  lemma EquationsConsistent()
    ensures CollisionFree(Example()) && Correct(Example()) && Recoverable(Example())
  {
    var p := Example();
    forall k, d, l, e | p.hmac(k, d) == p.hmac(l, e) ensures k == l && d == e {
      TupleInjective(k, d, "", l, e, "");
    }
    forall s, t, i, u, v, j | p.hkdf(s, t, i) == p.hkdf(u, v, j) ensures s == u && t == v && i == j {
      TupleInjective(s, t, i, u, v, j);
    }
    forall k, n, t, u, a | p.seal(k, n, t, a) == p.seal(k, n, u, a) ensures t == u {
      TupleInjective(k, n, Tuple(t, a, ""), k, n, Tuple(u, a, ""));
      TupleInjective(t, a, "", u, a, "");
    }
  }
}
