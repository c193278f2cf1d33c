/**
 The other side of the login, from the RFCs: what is hashed, byte by byte, and a server that keeps only
 a verifier (RFC 5054 section 2.6, RFC 2945 sections 3 and 3.1).
 */
module SrpServers {
  import opened Wrappers
  import opened Bytes
  import opened Arithmetic
  import opened Srp

  // ---------- what is hashed ----------

  /** Salt, then the hash of the upper-cased "username:password". */
  predicate IdentityText(lib: Library, w: seq<byte>, salt: seq<byte>, username: seq<byte>, password: seq<byte>) {
    |w| == |salt| + 20 && w[..|salt|] == salt && w[|salt|..] == lib.sha1(lib.upper(username + [':' as int] + password))
  }

  /** Both public values, the client's first. */
  predicate ScrambleText(w: seq<byte>, a: seq<byte>, b: seq<byte>) {
    |w| == 64 && w[..32] == a && w[32..] == b
  }

  /** The even bytes of the shared secret, and the odd ones. */
  predicate Halves(shared: seq<byte>, even: seq<byte>, odd: seq<byte>) {
    && |shared| == 32 && |even| == 16 && |odd| == 16
    && forall i :: 0 <= i < 16 ==> even[i] == shared[2 * i] && odd[i] == shared[2 * i + 1]
  }

  /** The hash of the one half in the key's even bytes, that of the other in its odd ones. */
  predicate KeyBytes(key: seq<byte>, evenHash: Digest, oddHash: Digest) {
    |key| == 40 && forall i :: 0 <= i < 20 ==> key[2 * i] == evenHash[i] && key[2 * i + 1] == oddHash[i]
  }

  ghost predicate KeyOf(lib: Library, key: seq<byte>, shared: seq<byte>) {
    exists even, odd :: Halves(shared, even, odd) && KeyBytes(key, lib.sha1(even), lib.sha1(odd))
  }

  /** What the client proves: hash of N xor hash of g, hash of the user, salt, A, B, key. */
  predicate ClientText(
    lib: Library, w: seq<byte>, n: seq<byte>, g: seq<byte>, username: seq<byte>, salt: seq<byte>, a: seq<byte>,
    b: seq<byte>, key: seq<byte>)
  {
    && |w| == 176
    && (forall i :: 0 <= i < 20 ==> w[i] == ((lib.sha1(n)[i] as bv8) ^ (lib.sha1(g)[i] as bv8)) as int)
    && w[20..40] == lib.sha1(lib.upper(username))
    && w[40..72] == salt && w[72..104] == a && w[104..136] == b && w[136..] == key
  }

  /** What the server proves back: A, the client's proof, key. */
  predicate ServerText(w: seq<byte>, a: seq<byte>, m1: seq<byte>, key: seq<byte>) {
    |w| == 92 && w[..32] == a && w[32..52] == m1 && w[52..] == key
  }

  lemma IdentityIs(lib: Library, w: seq<byte>, salt: seq<byte>, username: seq<byte>, password: seq<byte>)
    ensures IdentityText(lib, w, salt, username, password)
            <==> w == salt + lib.sha1(lib.upper(username + [0x3A] + password))
  {
    assert username + [':' as int] + password == username + [0x3A] + password;
    if IdentityText(lib, w, salt, username, password) {
      assert w == w[..|salt|] + w[|salt|..];
    }
  }

  lemma ScrambleIs(w: seq<byte>, a: seq<byte>, b: seq<byte>)
    requires |a| == |b| == 32
    ensures ScrambleText(w, a, b) <==> w == a + b
  {
    if ScrambleText(w, a, b) {
      assert w == w[..32] + w[32..];
    }
  }

  lemma ServerTextIs(w: seq<byte>, a: seq<byte>, m1: Digest, key: Key)
    requires |a| == 32
    ensures ServerText(w, a, m1, key) <==> w == a + m1 + key
  {
    if ServerText(w, a, m1, key) {
      assert w == w[..32] + w[32..52] + w[52..];
    }
  }

  lemma XorBytes(a: Digest, b: Digest, w: seq<byte>)
    requires |w| >= 20
    ensures (forall i :: 0 <= i < 20 ==> w[i] == ((a[i] as bv8) ^ (b[i] as bv8)) as int) <==> w[..20] == Xor(a, b)
  {
    forall i | 0 <= i < 20
      ensures Xor(a, b)[i] == ((a[i] as bv8) ^ (b[i] as bv8)) as int
    {
    }
    if w[..20] == Xor(a, b) {
      assert forall i :: 0 <= i < 20 ==> w[i] == w[..20][i];
    }
  }

  lemma SixParts(w: seq<byte>, p: seq<byte>, q: seq<byte>, r: seq<byte>, s: seq<byte>, t: seq<byte>, u: seq<byte>)
    requires |p| == |q| == 20 && |r| == |s| == |t| == 32 && |u| == 40
    ensures w == p + q + r + s + t + u
            <==> |w| == 176 && w[..20] == p && w[20..40] == q && w[40..72] == r && w[72..104] == s && w[104..136] == t
                 && w[136..] == u
  {
    if |w| == 176 {
      assert w == w[..20] + w[20..40] + w[40..72] + w[72..104] + w[104..136] + w[136..];
    }
    if w == p + q + r + s + t + u {
      assert w[20..] == q + r + s + t + u;
    }
  }

  lemma ClientTextIs(
    lib: Library, w: seq<byte>, n: seq<byte>, g: seq<byte>, username: seq<byte>, salt: seq<byte>, a: seq<byte>,
    b: seq<byte>, key: Key)
    requires |salt| == |a| == |b| == 32
    ensures ClientText(lib, w, n, g, username, salt, a, b, key)
            <==> w == Xor(lib.sha1(n), lib.sha1(g)) + lib.sha1(lib.upper(username)) + salt + a + b + key
  {
    SixParts(w, Xor(lib.sha1(n), lib.sha1(g)), lib.sha1(lib.upper(username)), salt, a, b, key);
    if |w| == 176 {
      XorBytes(lib.sha1(n), lib.sha1(g), w);
    }
  }

  lemma HalvesAre(shared: seq<byte>, even: seq<byte>, odd: seq<byte>)
    requires |shared| == 32
    ensures Halves(shared, even, odd) <==> even == Half(shared, 0) && odd == Half(shared, 1)
  {
  }

  lemma KeyBytesAre(key: seq<byte>, even: Digest, odd: Digest)
    ensures KeyBytes(key, even, odd) <==> key == Interleaved(even, odd)
  {
    if KeyBytes(key, even, odd) {
      forall j | 0 <= j < 40
        ensures key[j] == Interleaved(even, odd)[j]
      {
        assert j == 2 * (j / 2) + j % 2;
      }
    }
  }

  lemma KeyIs(lib: Library, key: seq<byte>, shared: seq<byte>)
    requires |shared| == 32
    ensures KeyOf(lib, key, shared) <==> key == SessionKey(lib, shared)
  {
    var even, odd := Half(shared, 0), Half(shared, 1);
    HalvesAre(shared, even, odd);
    KeyBytesAre(key, lib.sha1(even), lib.sha1(odd));
    if KeyOf(lib, key, shared) {
      var e, o :| Halves(shared, e, o) && KeyBytes(key, lib.sha1(e), lib.sha1(o));
      HalvesAre(shared, e, o);
    }
  }

  // ---------- the client's computation ----------

  /** What the client raises g to: its 19 random bytes, or one. */
  function PrivateValue(random: seq<byte>): nat
    requires |random| >= 19
  {
    if forall i :: 0 <= i < 19 ==> random[i] == 0 then 1 else LittleValue(random[..19])
  }

  /** When there is no proof, and which of several reasons is given. */
  lemma ProofRefused(lib: Library, c: Challenge, username: seq<byte>, password: seq<byte>, random: seq<byte>)
    ensures var r := ProofOf(lib, c, username, password, random);
            var n, g := LittleValue(c.n), LittleValue(c.g);
            if |c.b| != 32 || |c.n| != 32 || |c.salt| != 32 || c.g == [] then r == Failure(InvalidLengths)
            else if n == 0 || g == 0 || LittleValue(c.b) == 0 then r == Failure(ZeroParameter)
            else if |random| < 19 then r == Failure(ShortRandom)
            else if Power(g, PrivateValue(random)) % n == 0 then r == Failure(InvalidPublicValue)
            else r.Success?
  {
    if |random| >= 19 {
      PrivateIs(random);
    }
  }

  lemma {:induction false} ZeroBytes(bs: seq<byte>)
    ensures LittleValue(bs) == 0 <==> forall i :: 0 <= i < |bs| ==> bs[i] == 0
  {
    if bs != [] {
      ZeroBytes(bs[1..]);
      assert forall i :: 1 <= i < |bs| ==> bs[i] == bs[1..][i - 1];
    }
  }

  /** Everything that goes into a proof. */
  datatype Transcript = Transcript(
    a: nat, x: nat, u: nat, identity: seq<byte>, scramble: seq<byte>, shared: seq<byte>, client: seq<byte>, server: seq<byte>)

  predicate Hashed(lib: Library, t: Transcript, c: Challenge, username: seq<byte>, password: seq<byte>, p: Proof) {
    && IdentityText(lib, t.identity, c.salt, username, password) && t.x == LittleValue(lib.sha1(t.identity))
    && ScrambleText(t.scramble, p.a, c.b) && t.u == LittleValue(lib.sha1(t.scramble))
    && ClientText(lib, t.client, c.n, c.g, username, c.salt, p.a, c.b, p.sessionKey) && p.m1 == lib.sha1(t.client)
    && ServerText(t.server, p.a, p.m1, p.sessionKey) && p.expectedM2 == lib.sha1(t.server)
  }

  /** The client's public value: g^a. */
  predicate PublicIs(aBytes: seq<byte>, g: nat, a: nat, n: nat)
    requires n > 0
  {
    |aBytes| == 32 && LittleValue(aBytes) == Power(g, a) % n
  }

  /** The client's secret: (B - 3g^x)^(a+ux). */
  predicate SharedIs(shared: seq<byte>, b: nat, g: nat, n: nat, a: nat, u: nat, x: nat)
    requires n > 0
  {
    && a + u * x >= 0
    && |shared| == 32 && LittleValue(shared) == Power((b - 3 * (Power(g, x) % n)) % n, a + u * x) % n
  }

  ghost predicate Computed(lib: Library, t: Transcript, c: Challenge, p: Proof)
    requires LittleValue(c.n) > 0
  {
    && PublicIs(p.a, LittleValue(c.g), t.a, LittleValue(c.n))
    && SharedIs(t.shared, LittleValue(c.b), LittleValue(c.g), LittleValue(c.n), t.a, t.u, t.x)
    && KeyOf(lib, p.sessionKey, t.shared)
  }

  lemma BelowWidth(v: int, n: seq<byte>)
    requires |n| == 32 && LittleValue(n) > 0
    ensures LittleValue(LittleBytes(v % LittleValue(n), |n|)) == v % LittleValue(n)
  {
    LittleRoundTrip(v % LittleValue(n), |n|);
  }

  lemma TextsHashed(lib: Library, t: Transcript, c: Challenge, username: seq<byte>, password: seq<byte>, p: Proof)
    requires |c.salt| == |c.b| == |p.a| == 32
    requires t.identity == c.salt + lib.sha1(lib.upper(username + [0x3A] + password))
    requires t.scramble == p.a + c.b
    requires t.client == Xor(lib.sha1(c.n), lib.sha1(c.g)) + lib.sha1(lib.upper(username)) + c.salt + p.a + c.b + p.sessionKey
    requires t.server == p.a + p.m1 + p.sessionKey
    requires t.x == LittleValue(lib.sha1(t.identity)) && t.u == LittleValue(lib.sha1(t.scramble))
    requires p.m1 == lib.sha1(t.client) && p.expectedM2 == lib.sha1(t.server)
    ensures Hashed(lib, t, c, username, password, p)
  {
    IdentityIs(lib, t.identity, c.salt, username, password);
    ScrambleIs(t.scramble, p.a, c.b);
    ClientTextIs(lib, t.client, c.n, c.g, username, c.salt, p.a, c.b, p.sessionKey);
    ServerTextIs(t.server, p.a, p.m1, p.sessionKey);
  }

  lemma Exponent(a: nat, u: nat, x: nat)
    ensures a + u * x >= 0
  {
  }

  lemma ProofParts(lib: Library, c: Challenge, username: seq<byte>, password: seq<byte>, random: seq<byte>)
    requires ProofOf(lib, c, username, password, random).Success?
    ensures |random| >= 19 && |c.b| == |c.n| == |c.salt| == 32 && LittleValue(c.n) > 0
    ensures var p := ProofOf(lib, c, username, password, random).value;
            var n, g := LittleValue(c.n), LittleValue(c.g);
            var a, x := PrivateA(random), PrivateX(lib, c.salt, username, password);
            && (p.a, p.sessionKey) == ClientSession(lib, n, g, c.b, a, x)
            && p.m1 == ClientEvidence(lib, c, username, p.a, p.sessionKey)
            && p.expectedM2 == ServerEvidence(lib, p.a, p.m1, p.sessionKey)
  {
  }

  lemma PublicValue(g: nat, a: nat, n: seq<byte>)
    requires |n| == 32 && LittleValue(n) > 0
    ensures PublicIs(LittleBytes(ModExp(g, a, LittleValue(n)), |n|), g, a, LittleValue(n))
  {
    BelowWidth(Power(g, a), n);
  }

  lemma SecretIs(b: nat, g: nat, n: nat, a: nat, u: nat, x: nat)
    requires n > 0
    ensures a + u * x >= 0
    ensures ClientSecret(b, g, n, a, u, x) == Power((b - 3 * (Power(g, x) % n)) % n, a + u * x) % n
  {
    Exponent(a, u, x);
  }

  lemma SharedValue(b: nat, g: nat, n: seq<byte>, a: nat, u: nat, x: nat)
    requires |n| == 32 && LittleValue(n) > 0
    ensures SharedIs(LittleBytes(ClientSecret(b, g, LittleValue(n), a, u, x), |n|), b, g, LittleValue(n), a, u, x)
  {
    SecretIs(b, g, LittleValue(n), a, u, x);
    BelowWidth(Power((b - 3 * (Power(g, x) % LittleValue(n))) % LittleValue(n), a + u * x), n);
  }

  lemma SessionIs(lib: Library, n: nat, g: nat, bBytes: seq<byte>, a: nat, x: nat, width: nat, u: nat)
    requires n > 0 && width == 32
    requires u == LittleValue(lib.sha1(LittleBytes(ModExp(g, a, n), width) + bBytes))
    ensures ClientSession(lib, n, g, bBytes, a, x)
            == (LittleBytes(ModExp(g, a, n), width),
                SessionKey(lib, LittleBytes(ClientSecret(LittleValue(bBytes), g, n, a, u, x), width)))
  {
  }

  lemma PartsComputed(lib: Library, c: Challenge, t: Transcript, p: Proof)
    requires |c.n| == 32 && LittleValue(c.n) > 0
    requires p.a == LittleBytes(ModExp(LittleValue(c.g), t.a, LittleValue(c.n)), |c.n|)
    requires t.shared == LittleBytes(ClientSecret(LittleValue(c.b), LittleValue(c.g), LittleValue(c.n), t.a, t.u, t.x), |c.n|)
    requires p.sessionKey == SessionKey(lib, t.shared)
    ensures Computed(lib, t, c, p)
  {
    PublicValue(LittleValue(c.g), t.a, c.n);
    SharedValue(LittleValue(c.b), LittleValue(c.g), c.n, t.a, t.u, t.x);
    KeyIs(lib, p.sessionKey, t.shared);
  }

  lemma SessionParts(lib: Library, c: Challenge, t: Transcript, p: Proof)
    requires |c.b| == |c.n| == 32 && LittleValue(c.n) > 0
    requires (p.a, p.sessionKey) == ClientSession(lib, LittleValue(c.n), LittleValue(c.g), c.b, t.a, t.x)
    requires t.u == LittleValue(lib.sha1(p.a + c.b))
    requires t.shared == LittleBytes(ClientSecret(LittleValue(c.b), LittleValue(c.g), LittleValue(c.n), t.a, t.u, t.x), |c.n|)
    ensures Computed(lib, t, c, p)
  {
    var aBytes := LittleBytes(ModExp(LittleValue(c.g), t.a, LittleValue(c.n)), |c.n|);
    SessionIs(lib, LittleValue(c.n), LittleValue(c.g), c.b, t.a, t.x, |c.n|, LittleValue(lib.sha1(aBytes + c.b)));
    PartsComputed(lib, c, t, p);
  }

  lemma PrivateIs(random: seq<byte>)
    requires |random| >= 19
    ensures PrivateA(random) == PrivateValue(random)
  {
    ZeroBytes(random[..19]);
  }

  /** What a proof is made of: every hash, its text byte by byte, and every number. */
  lemma ProofMadeOf(lib: Library, c: Challenge, username: seq<byte>, password: seq<byte>, random: seq<byte>)
    returns (t: Transcript)
    requires ProofOf(lib, c, username, password, random).Success?
    ensures |random| >= 19 && t.a == PrivateValue(random)
    ensures |c.n| == |c.b| == |c.salt| == 32 && LittleValue(c.n) > 0
    ensures var p := ProofOf(lib, c, username, password, random).value;
            Hashed(lib, t, c, username, password, p) && Computed(lib, t, c, p)
  {
    ProofParts(lib, c, username, password, random);
    PrivateIs(random);
    var p := ProofOf(lib, c, username, password, random).value;
    t := TranscriptOf(lib, c, username, password, PrivateValue(random), p);
    TextsHashed(lib, t, c, username, password, p);
    SessionParts(lib, c, t, p);
  }

  function TranscriptOf(lib: Library, c: Challenge, username: seq<byte>, password: seq<byte>, a: nat, p: Proof): Transcript
    requires LittleValue(c.n) > 0
  {
    var identity, scramble := c.salt + lib.sha1(lib.upper(username + [0x3A] + password)), p.a + c.b;
    var x, u := LittleValue(lib.sha1(identity)), LittleValue(lib.sha1(scramble));
    var secret := ClientSecret(LittleValue(c.b), LittleValue(c.g), LittleValue(c.n), a, u, x);
    Transcript(
      a, x, u, identity, scramble, LittleBytes(secret, |c.n|),
      Xor(lib.sha1(c.n), lib.sha1(c.g)) + lib.sha1(lib.upper(username)) + c.salt + p.a + c.b + p.sessionKey,
      p.a + p.m1 + p.sessionKey)
  }

  // ---------- the server ----------

  /** The verifier of an account: g^x, with x from its salt and password. */
  ghost predicate Enrolled(lib: Library, s: Server, username: seq<byte>, password: seq<byte>)
    requires LittleValue(s.n) > 0
  {
    exists w ::
      && IdentityText(lib, w, s.salt, username, password)
      && s.verifier == Power(LittleValue(s.g), LittleValue(lib.sha1(w))) % LittleValue(s.n)
  }

  /** The server's challenge: its parameters and salt, and B = 3v + g^b. */
  predicate Challenges(s: Server, c: Challenge)
    requires LittleValue(s.n) > 0
  {
    && c.n == s.n && c.g == s.g && c.salt == s.salt && |c.b| == 32
    && LittleValue(c.b) == (3 * s.verifier + Power(LittleValue(s.g), s.b) % LittleValue(s.n)) % LittleValue(s.n)
  }

  /** The server's secret: (A v^u)^b. */
  predicate ServerShared(shared: seq<byte>, s: Server, aBytes: seq<byte>, u: nat)
    requires LittleValue(s.n) > 0
  {
    && |shared| == 32
    && LittleValue(shared)
       == Power(LittleValue(aBytes) * (Power(s.verifier, u) % LittleValue(s.n)), s.b) % LittleValue(s.n)
  }

  /** The session key a server holds after it was sent a public value. */
  ghost predicate ServerHolds(lib: Library, s: Server, aBytes: seq<byte>, bBytes: seq<byte>, key: seq<byte>)
    requires LittleValue(s.n) > 0
  {
    exists w, shared ::
      ScrambleText(w, aBytes, bBytes) && ServerShared(shared, s, aBytes, LittleValue(lib.sha1(w))) && KeyOf(lib, key, shared)
  }

  /** The proof a server waits for. */
  ghost predicate ServerExpects(
    lib: Library, s: Server, username: seq<byte>, a: seq<byte>, b: seq<byte>, key: seq<byte>, m: Digest)
  {
    exists w :: ClientText(lib, w, s.n, s.g, username, s.salt, a, b, key) && m == lib.sha1(w)
  }

  /** The proof it answers with. */
  ghost predicate ServerAnswers(lib: Library, a: seq<byte>, m1: Digest, key: seq<byte>, m2: Digest) {
    exists w :: ServerText(w, a, m1, key) && m2 == lib.sha1(w)
  }

  lemma SameBytes(a: seq<byte>, b: seq<byte>)
    requires |a| == |b| && LittleValue(a) == LittleValue(b)
    ensures a == b
  {
    LittleBytesOfValue(a);
    LittleBytesOfValue(b);
  }

  lemma ServerHoldsOne(lib: Library, s: Server, a: seq<byte>, b: seq<byte>, key: seq<byte>, shared: seq<byte>)
    requires LittleValue(s.n) > 0 && |s.n| == |a| == |b| == 32
    requires ServerShared(shared, s, a, LittleValue(lib.sha1(a + b)))
    ensures ServerHolds(lib, s, a, b, key) <==> KeyOf(lib, key, shared)
  {
    ScrambleIs(a + b, a, b);
    if ServerHolds(lib, s, a, b, key) {
      var w, other :| ScrambleText(w, a, b) && ServerShared(other, s, a, LittleValue(lib.sha1(w))) && KeyOf(lib, key, other);
      ScrambleIs(w, a, b);
      SameBytes(other, shared);
    }
  }

  /** The client's secret for an honest challenge is the server's. */
  lemma SharedByBoth(s: Server, aBytes: seq<byte>, shared: seq<byte>, b: nat, a: nat, u: nat, x: nat)
    requires LittleValue(s.n) > 0
    requires s.verifier == Power(LittleValue(s.g), x) % LittleValue(s.n)
    requires b == (3 * s.verifier + Power(LittleValue(s.g), s.b) % LittleValue(s.n)) % LittleValue(s.n)
    requires PublicIs(aBytes, LittleValue(s.g), a, LittleValue(s.n))
    requires SharedIs(shared, b, LittleValue(s.g), LittleValue(s.n), a, u, x)
    ensures ServerShared(shared, s, aBytes, u)
  {
    OneSecret(LittleValue(s.g), LittleValue(s.n), a, s.b, u, x);
    SecretIs(b, LittleValue(s.g), LittleValue(s.n), a, u, x);
  }

  lemma EnrolledWith(lib: Library, s: Server, username: seq<byte>, password: seq<byte>, identity: seq<byte>)
    requires LittleValue(s.n) > 0 && Enrolled(lib, s, username, password)
    requires IdentityText(lib, identity, s.salt, username, password)
    ensures s.verifier == Power(LittleValue(s.g), LittleValue(lib.sha1(identity))) % LittleValue(s.n)
  {
    var w :| IdentityText(lib, w, s.salt, username, password)
             && s.verifier == Power(LittleValue(s.g), LittleValue(lib.sha1(w))) % LittleValue(s.n);
    IdentityIs(lib, w, s.salt, username, password);
    IdentityIs(lib, identity, s.salt, username, password);
  }

  /**
   A proof holds with every server that enrolled the password, for any challenge of that server: the server has
   that session key and no other, expects that proof and no other, and answers with the one the client expects.
   */
  lemma LoginAgrees(lib: Library, s: Server, c: Challenge, username: seq<byte>, password: seq<byte>, random: seq<byte>)
    requires LittleValue(s.n) > 0 && Enrolled(lib, s, username, password) && Challenges(s, c)
    requires ProofOf(lib, c, username, password, random).Success?
    ensures var p := ProofOf(lib, c, username, password, random).value;
            && (forall key :: ServerHolds(lib, s, p.a, c.b, key) <==> key == p.sessionKey)
            && (forall m :: ServerExpects(lib, s, username, p.a, c.b, p.sessionKey, m) <==> m == p.m1)
            && (forall m :: ServerAnswers(lib, p.a, p.m1, p.sessionKey, m) <==> m == p.expectedM2)
  {
    var t := ProofMadeOf(lib, c, username, password, random);
    var p := ProofOf(lib, c, username, password, random).value;
    SharedInLogin(lib, s, c, username, password, t, p);
    KeysOfLogin(lib, s, c, t, p);
    ProofsOfLogin(lib, s, c, username, password, t, p);
  }

  lemma SharedInLogin(
    lib: Library, s: Server, c: Challenge, username: seq<byte>, password: seq<byte>, t: Transcript, p: Proof)
    requires LittleValue(s.n) > 0 && Enrolled(lib, s, username, password) && Challenges(s, c)
    requires Hashed(lib, t, c, username, password, p) && Computed(lib, t, c, p)
    ensures |p.a| == 32 && ServerShared(t.shared, s, p.a, t.u) && KeyOf(lib, p.sessionKey, t.shared)
    ensures ScrambleText(t.scramble, p.a, c.b) && t.u == LittleValue(lib.sha1(t.scramble))
  {
    EnrolledWith(lib, s, username, password, t.identity);
    SharedComputed(lib, s, c, t, p);
  }

  lemma SharedComputed(lib: Library, s: Server, c: Challenge, t: Transcript, p: Proof)
    requires LittleValue(s.n) > 0 && Challenges(s, c) && Computed(lib, t, c, p)
    requires s.verifier == Power(LittleValue(s.g), t.x) % LittleValue(s.n)
    ensures |p.a| == 32 && ServerShared(t.shared, s, p.a, t.u) && KeyOf(lib, p.sessionKey, t.shared)
  {
    SharedByBoth(s, p.a, t.shared, LittleValue(c.b), t.a, t.u, t.x);
  }

  lemma KeysOfLogin(lib: Library, s: Server, c: Challenge, t: Transcript, p: Proof)
    requires LittleValue(s.n) > 0 && |s.n| == |p.a| == |c.b| == 32
    requires ScrambleText(t.scramble, p.a, c.b) && t.u == LittleValue(lib.sha1(t.scramble))
    requires ServerShared(t.shared, s, p.a, t.u) && KeyOf(lib, p.sessionKey, t.shared)
    ensures forall key :: ServerHolds(lib, s, p.a, c.b, key) <==> key == p.sessionKey
  {
    ScrambleIs(t.scramble, p.a, c.b);
    KeyIs(lib, p.sessionKey, t.shared);
    forall key
      ensures ServerHolds(lib, s, p.a, c.b, key) <==> key == p.sessionKey
    {
      ServerHoldsOne(lib, s, p.a, c.b, key, t.shared);
      KeyIs(lib, key, t.shared);
    }
  }

  lemma ProofsOfLogin(
    lib: Library, s: Server, c: Challenge, username: seq<byte>, password: seq<byte>, t: Transcript, p: Proof)
    requires c.n == s.n && c.g == s.g && c.salt == s.salt && |c.salt| == |c.b| == |p.a| == 32
    requires Hashed(lib, t, c, username, password, p)
    ensures forall m :: ServerExpects(lib, s, username, p.a, c.b, p.sessionKey, m) <==> m == p.m1
    ensures forall m :: ServerAnswers(lib, p.a, p.m1, p.sessionKey, m) <==> m == p.expectedM2
  {
    forall w
      ensures ClientText(lib, w, s.n, s.g, username, s.salt, p.a, c.b, p.sessionKey) <==> w == t.client
      ensures ServerText(w, p.a, p.m1, p.sessionKey) <==> w == t.server
    {
      ClientTextIs(lib, w, s.n, s.g, username, s.salt, p.a, c.b, p.sessionKey);
      ClientTextIs(lib, t.client, s.n, s.g, username, s.salt, p.a, c.b, p.sessionKey);
      ServerTextIs(w, p.a, p.m1, p.sessionKey);
      ServerTextIs(t.server, p.a, p.m1, p.sessionKey);
    }
  }
}
