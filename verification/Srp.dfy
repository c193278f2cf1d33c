/**
 The SRP-6 login proof: RFC 5054 section 2.6 with k = 3, and RFC 2945 sections 3 and 3.1 for the
 proofs and the interleaved key. SHA-1 and upper-casing are library calls: any functions will do.
 */
module Srp {
  import opened Wrappers
  import opened Bytes
  import opened Arithmetic

  type Digest = d: seq<byte> | |d| == 20 witness seq(20, i => 0)
  type Key = k: seq<byte> | |k| == 40 witness seq(40, i => 0)

  datatype Library = Library(sha1: seq<byte> -> Digest, upper: seq<byte> -> seq<byte>)

  datatype Challenge = Challenge(b: seq<byte>, g: seq<byte>, n: seq<byte>, salt: seq<byte>)

  datatype Proof = Proof(a: seq<byte>, m1: Digest, expectedM2: Digest, sessionKey: Key)

  datatype SrpError = InvalidLengths | ZeroParameter | ShortRandom | InvalidPublicValue

  // ---------- big integers ----------

  /** big.Int.Exp with a positive modulus. */
  function ModExp(base: int, e: nat, n: int): (r: nat)
    requires n > 0
    ensures r < n
  {
    Power(base, e) % n
  }

  /** big.Int.SetBytes: most significant byte first. */
  function BigValue(bs: seq<byte>): nat {
    if bs == [] then 0 else 256 * BigValue(bs[..|bs| - 1]) + bs[|bs| - 1]
  }

  /** big.Int.Bytes: most significant byte first, without leading zeros. */
  function BigBytes(v: nat): seq<byte> {
    if v == 0 then [] else BigBytes(v / 256) + [v % 256]
  }

  function Reverse(bs: seq<byte>): (r: seq<byte>)
    ensures |r| == |bs|
  {
    seq(|bs|, i requires 0 <= i < |bs| => bs[|bs| - 1 - i])
  }

  lemma {:induction false} ReversedValue(bs: seq<byte>)
    ensures BigValue(Reverse(bs)) == LittleValue(bs)
  {
    if bs != [] {
      ReversedValue(bs[1..]);
      assert Reverse(bs)[..|bs| - 1] == Reverse(bs[1..]);
    }
  }

  /** The same digits from the other end, zeros above the highest. */
  lemma {:induction false} SameDigits(v: nat, n: nat, i: nat)
    requires i < n
    ensures var big := BigBytes(v);
            LittleBytes(v, n)[i] == if i < |big| then big[|big| - 1 - i] else 0
  {
    if v == 0 {
      ZeroDigits(n, i);
    } else if i > 0 {
      SameDigits(v / 256, n - 1, i - 1);
      assert BigBytes(v) == BigBytes(v / 256) + [v % 256];
      assert LittleBytes(v, n)[i] == LittleBytes(v / 256, n - 1)[i - 1];
    }
  }

  lemma {:induction false} ZeroDigits(n: nat, i: nat)
    requires i < n
    ensures LittleBytes(0, n)[i] == 0
  {
    if i > 0 {
      ZeroDigits(n - 1, i - 1);
    }
  }

  method LittleInt(data: seq<byte>) returns (v: nat)
    ensures v == LittleValue(data)
  {
    var reversed := new byte[|data|];
    for i := 0 to |data|
      invariant forall k :: 0 <= k < i ==> reversed[|data| - 1 - k] == data[k]
    {
      reversed[|data| - 1 - i] := data[i];
    }
    assert reversed[..] == Reverse(data);
    ReversedValue(data);
    v := BigValue(reversed[..]);
  }

  method LittleBytesOf(value: nat, size: nat) returns (r: seq<byte>)
    ensures r == LittleBytes(value, size)
  {
    var bigEndian := BigBytes(value);
    if |bigEndian| > size {
      bigEndian := bigEndian[|bigEndian| - size..];
    }
    var result := new byte[size](i => 0);
    for i := 0 to |bigEndian|
      invariant forall k :: 0 <= k < i ==> result[k] == LittleBytes(value, size)[k]
      invariant forall k :: i <= k < size ==> result[k] == 0
    {
      SameDigits(value, size, i);
      result[i] := bigEndian[|bigEndian| - 1 - i];
    }
    forall k | |bigEndian| <= k < size
      ensures LittleBytes(value, size)[k] == 0
    {
      SameDigits(value, size, k);
    }
    assert result[..] == LittleBytes(value, size);
    r := result[..];
  }

  // ---------- the interleaved key ----------

  /** Every second byte of the 32, from the given one. */
  function Half(shared: seq<byte>, first: nat): (h: seq<byte>)
    requires |shared| >= 32 && first < 2
    ensures |h| == 16
  {
    seq(16, i requires 0 <= i < 16 => shared[2 * i + first])
  }

  function Interleaved(even: Digest, odd: Digest): Key {
    seq(40, i requires 0 <= i < 40 => if i % 2 == 0 then even[i / 2] else odd[i / 2])
  }

  function SessionKey(lib: Library, shared: seq<byte>): Key
    requires |shared| >= 32
  {
    Interleaved(lib.sha1(Half(shared, 0)), lib.sha1(Half(shared, 1)))
  }

  method InterleavedSessionKey(lib: Library, shared: seq<byte>) returns (key: Key)
    requires |shared| >= 32
    ensures key == SessionKey(lib, shared)
  {
    var even, odd := new byte[16], new byte[16];
    for i := 0 to 16
      invariant forall k :: 0 <= k < i ==> even[k] == shared[2 * k] && odd[k] == shared[2 * k + 1]
    {
      even[i] := shared[i * 2];
      odd[i] := shared[i * 2 + 1];
    }
    assert even[..] == Half(shared, 0) && odd[..] == Half(shared, 1);
    var evenHash, oddHash := lib.sha1(even[..]), lib.sha1(odd[..]);
    var bytes := new byte[40];
    for i := 0 to 20
      invariant forall k :: 0 <= k < i ==> bytes[2 * k] == evenHash[k] && bytes[2 * k + 1] == oddHash[k]
    {
      bytes[i * 2] := evenHash[i];
      bytes[i * 2 + 1] := oddHash[i];
    }
    forall k | 0 <= k < 40
      ensures bytes[k] == SessionKey(lib, shared)[k]
    {
      assert k == 2 * (k / 2) + k % 2;
    }
    assert bytes[..] == SessionKey(lib, shared);
    key := bytes[..];
  }

  // ---------- the client ----------

  function PrivateX(lib: Library, salt: seq<byte>, username: seq<byte>, password: seq<byte>): nat {
    LittleValue(lib.sha1(salt + lib.sha1(lib.upper(username + [0x3A] + password))))
  }

  /** The 19 random bytes as a private value, never zero. */
  function PrivateA(random: seq<byte>): nat
    requires |random| >= 19
  {
    var a := LittleValue(random[..19]);
    if a == 0 then 1 else a
  }

  /** The scrambling value both sides hash from the two public values. */
  function Scramble(lib: Library, aBytes: seq<byte>, bBytes: seq<byte>): nat {
    LittleValue(lib.sha1(aBytes + bBytes))
  }

  function ClientSecret(b: int, g: int, n: int, a: nat, u: nat, x: nat): nat
    requires n > 0
  {
    ModExp((b - 3 * ModExp(g, x, n)) % n, a + u * x, n)
  }

  function Xor(a: Digest, b: Digest): Digest {
    seq(20, i requires 0 <= i < 20 => XorByte(a[i], b[i]))
  }

  function XorByte(a: byte, b: byte): byte {
    ((a as bv8) ^ (b as bv8)) as int
  }

  /** The client's proof to the server. */
  function ClientEvidence(lib: Library, c: Challenge, username: seq<byte>, aBytes: seq<byte>, key: Key): Digest {
    lib.sha1(Xor(lib.sha1(c.n), lib.sha1(c.g)) + lib.sha1(lib.upper(username)) + c.salt + aBytes + c.b + key)
  }

  /** The server's proof to the client. */
  function ServerEvidence(lib: Library, aBytes: seq<byte>, m1: Digest, key: Key): Digest {
    lib.sha1(aBytes + m1 + key)
  }

  predicate ValidLengths(c: Challenge) {
    |c.b| == 32 && |c.n| == 32 && |c.salt| == 32 && |c.g| > 0
  }

  /** The public value and the session key of a client with private values a and x. */
  function ClientSession(lib: Library, n: nat, g: nat, bBytes: seq<byte>, a: nat, x: nat): (seq<byte>, Key)
    requires n > 0
  {
    var aBytes := LittleBytes(ModExp(g, a, n), 32);
    var secret := ClientSecret(LittleValue(bBytes), g, n, a, Scramble(lib, aBytes, bBytes), x);
    (aBytes, SessionKey(lib, LittleBytes(secret, 32)))
  }

  function ProofOf(lib: Library, c: Challenge, username: seq<byte>, password: seq<byte>, random: seq<byte>)
    : Result<Proof, SrpError>
  {
    if !ValidLengths(c) then Failure(InvalidLengths)
    else
      var n, g, b := LittleValue(c.n), LittleValue(c.g), LittleValue(c.b);
      if n == 0 || g == 0 || b == 0 then Failure(ZeroParameter)
      else if |random| < 19 then Failure(ShortRandom)
      else
        var a := PrivateA(random);
        if ModExp(g, a, n) == 0 then Failure(InvalidPublicValue)
        else
          var (aBytes, key) := ClientSession(lib, n, g, c.b, a, PrivateX(lib, c.salt, username, password));
          var m1 := ClientEvidence(lib, c, username, aBytes, key);
          Success(Proof(aBytes, m1, ServerEvidence(lib, aBytes, m1, key), key))
  }

  method ComputeProof(lib: Library, c: Challenge, username: seq<byte>, password: seq<byte>, random: seq<byte>)
    returns (r: Result<Proof, SrpError>)
    ensures r == ProofOf(lib, c, username, password, random)
  {
    if |c.b| != 32 || |c.n| != 32 || |c.salt| != 32 || |c.g| == 0 {
      return Failure(InvalidLengths);
    }
    var n := LittleInt(c.n);
    var g := LittleInt(c.g);
    var b := LittleInt(c.b);
    if n <= 0 || g <= 0 || b <= 0 {
      return Failure(ZeroParameter);
    }
    var identityHash := lib.sha1(lib.upper(username + [0x3A] + password));
    var x := LittleInt(lib.sha1(c.salt + identityHash));
    if |random| < 19 {
      return Failure(ShortRandom);
    }
    var a := LittleInt(random[..19]);
    if a == 0 {
      a := 1;
    }
    var A := ModExp(g, a, n);
    if A == 0 {
      return Failure(InvalidPublicValue);
    }
    var aBytes := LittleBytesOf(A, 32);
    var u := LittleInt(lib.sha1(aBytes + c.b));
    var sharedSecret := ComputeSecret(b, g, n, a, u, x);
    var sharedBytes := LittleBytesOf(sharedSecret, 32);
    var sessionKey := InterleavedSessionKey(lib, sharedBytes);
    var nHash := XorHashes(lib.sha1(c.n), lib.sha1(c.g));
    var m1 := lib.sha1(nHash + lib.sha1(lib.upper(username)) + c.salt + aBytes + c.b + sessionKey);
    var m2 := lib.sha1(aBytes + m1 + sessionKey);
    return Success(Proof(aBytes, m1, m2, sessionKey));
  }

  method ComputeSecret(b: int, g: int, n: int, a: nat, u: nat, x: nat) returns (secret: nat)
    requires n > 0
    ensures secret == ClientSecret(b, g, n, a, u, x)
  {
    var gToX := ModExp(g, x, n);
    var base: int := b - 3 * gToX;
    base := base % n;
    if base < 0 {
      base := base + n;
    }
    var exponent := a + u * x;
    secret := ModExp(base, exponent, n);
  }

  method XorHashes(first: Digest, second: Digest) returns (r: Digest)
    ensures r == Xor(first, second)
  {
    var hash := new byte[20](i requires 0 <= i < 20 => first[i]);
    for i := 0 to 20
      invariant forall k :: 0 <= k < i ==> hash[k] == XorByte(first[k], second[k])
      invariant forall k :: i <= k < 20 ==> hash[k] == first[k]
    {
      hash[i] := XorByte(hash[i], second[i]);
    }
    assert hash[..] == Xor(first, second);
    r := hash[..];
  }

  // ---------- agreement with an honest server ----------

  /** What a server keeps for an account, and its private value for one login. */
  datatype Server = Server(n: seq<byte>, g: seq<byte>, salt: seq<byte>, verifier: nat, b: nat)

  function Modulus(s: Server): nat {
    LittleValue(s.n)
  }

  /** The challenge of an honest server: B = 3v + g^b. */
  function ServerChallenge(s: Server): Challenge
    requires Modulus(s) > 0
  {
    var b := (3 * s.verifier + ModExp(LittleValue(s.g), s.b, Modulus(s))) % Modulus(s);
    Challenge(LittleBytes(b, 32), s.g, s.n, s.salt)
  }

  function ServerSecret(a: nat, v: nat, u: nat, b: nat, n: nat): nat
    requires n > 0
  {
    ModExp(a * ModExp(v, u, n), b, n)
  }

  /** The server's session key on receiving a public value. */
  function ServerKey(lib: Library, s: Server, aBytes: seq<byte>): Key
    requires Modulus(s) > 0
  {
    var u := Scramble(lib, aBytes, ServerChallenge(s).b);
    SessionKey(lib, LittleBytes(ServerSecret(LittleValue(aBytes), s.verifier, u, s.b, Modulus(s)), 32))
  }

  /** Both secrets are g^(b(a+ux)): the client takes 3g^x off B, the server multiplies A by v^u. */
  lemma SecretsAgree(g: nat, n: nat, a: nat, b: nat, u: nat, x: nat)
    requires n > 0
    ensures var v := ModExp(g, x, n);
            var publicB := (3 * v + ModExp(g, b, n)) % n;
            a + u * x >= 0 && b * (a + u * x) >= 0
            && ClientSecret(publicB, g, n, a, u, x) == ModExp(g, b * (a + u * x), n)
            && ServerSecret(ModExp(g, a, n), v, u, b, n) == ModExp(g, b * (a + u * x), n)
  {
    var e := a + u * x;
    ClientSide(g, n, b, x, e);
    ServerSide(g, n, a, u, x);
    var shared := ModExp(g, a, n) * ModExp(ModExp(g, x, n), u, n);
    PowerMod(shared, b, n);
    PowerMod(Power(g, e), b, n);
    PowerMul(g, e, b);
    assert e * b == b * e;
  }

  lemma OneSecret(g: nat, n: nat, a: nat, b: nat, u: nat, x: nat)
    requires n > 0
    ensures var v := ModExp(g, x, n);
            ClientSecret((3 * v + ModExp(g, b, n)) % n, g, n, a, u, x) == ServerSecret(ModExp(g, a, n), v, u, b, n)
  {
    SecretsAgree(g, n, a, b, u, x);
  }

  lemma ClientSide(g: nat, n: nat, b: nat, x: nat, e: nat)
    requires n > 0
    ensures var v := ModExp(g, x, n);
            b * e >= 0
            && ModExp(((3 * v + ModExp(g, b, n)) % n - 3 * v) % n, e, n) == ModExp(g, b * e, n)
  {
    var k, w := 3 * ModExp(g, x, n), ModExp(g, b, n);
    SubMod(k + w, k, n);
    PowerMod(w, e, n);
    PowerMod(Power(g, b), e, n);
    PowerMul(g, b, e);
  }

  /** A times v^u is g^(a+ux). */
  lemma ServerSide(g: nat, n: nat, a: nat, u: nat, x: nat)
    requires n > 0
    ensures a + u * x >= 0
    ensures ModExp(g, a, n) * ModExp(ModExp(g, x, n), u, n) % n == Power(g, a + u * x) % n
  {
    var p, q := Power(g, a), Power(Power(g, x), u);
    PowerMod(Power(g, x), u, n);
    assert ModExp(ModExp(g, x, n), u, n) == q % n;
    MulMod(p, q % n, n);
    MulMod(p, q, n);
    PowerMul(g, x, u);
    assert x * u == u * x;
    PowerAdd(g, a, u * x);
  }

  /** The same after both public values went through bytes of any width that holds the modulus. */
  lemma SecretsOnTheWire(n: nat, width: nat, g: nat, a: nat, b: nat, u: nat, x: nat)
    requires 0 < n <= Pow256(width)
    ensures var v := ModExp(g, x, n);
            var aBytes, bBytes := LittleBytes(ModExp(g, a, n), width), LittleBytes((3 * v + ModExp(g, b, n)) % n, width);
            ClientSecret(LittleValue(bBytes), g, n, a, u, x) == ServerSecret(LittleValue(aBytes), v, u, b, n)
  {
    LittleRoundTrip((3 * ModExp(g, x, n) + ModExp(g, b, n)) % n, width);
    LittleRoundTrip(ModExp(g, a, n), width);
    OneSecret(g, n, a, b, u, x);
  }

  /** With the verifier the server keeps and the public values as they are sent. */
  lemma SecretsWithVerifier(
    n: nat, width: nat, g: nat, v: nat, a: nat, b: nat, u: nat, x: nat, aBytes: seq<byte>, bBytes: seq<byte>)
    requires 0 < n <= Pow256(width) && v == ModExp(g, x, n)
    requires aBytes == LittleBytes(ModExp(g, a, n), width) && bBytes == LittleBytes((3 * v + ModExp(g, b, n)) % n, width)
    ensures ClientSecret(LittleValue(bBytes), g, n, a, u, x) == ServerSecret(LittleValue(aBytes), v, u, b, n)
  {
    SecretsOnTheWire(n, width, g, a, b, u, x);
  }

  /** Client and server derive one session key. */
  lemma SessionsAgree(lib: Library, s: Server, a: nat, x: nat)
    requires |s.n| == 32 && Modulus(s) > 0
    requires s.verifier == ModExp(LittleValue(s.g), x, Modulus(s))
    ensures var (aBytes, key) := ClientSession(lib, Modulus(s), LittleValue(s.g), ServerChallenge(s).b, a, x);
            key == ServerKey(lib, s, aBytes)
  {
    KeysAgree(lib, |s.n|, Modulus(s), LittleValue(s.g), s.verifier, a, s.b, x, ServerChallenge(s).b);
  }

  lemma KeysAgree(lib: Library, width: nat, n: nat, g: nat, v: nat, a: nat, b: nat, x: nat, bBytes: seq<byte>)
    requires width == 32 && 0 < n <= Pow256(width) && v == ModExp(g, x, n)
    requires bBytes == LittleBytes((3 * v + ModExp(g, b, n)) % n, 32)
    ensures var (aBytes, key) := ClientSession(lib, n, g, bBytes, a, x);
            var u := Scramble(lib, aBytes, bBytes);
            key == SessionKey(lib, LittleBytes(ServerSecret(LittleValue(aBytes), v, u, b, n), 32))
  {
    var aBytes := LittleBytes(ModExp(g, a, n), 32);
    SecretsWithVerifier(n, width, g, v, a, b, Scramble(lib, aBytes, bBytes), x, aBytes, bBytes);
  }
}
