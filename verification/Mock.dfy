/** The launcher's own form of the client side of the login, over one packed request. */
module Mock {
  import opened Wrappers
  import opened Bytes
  import opened Arithmetic
  import opened Srp
  import opened SrpServers

  /** With a zero modulus the source raises 7 to the private value without reducing it: no reply is modelled. */
  datatype MockError = DataTooShort | ZeroModulus

  const GENERATOR: nat := 7

  /** The reply of handleGetNowTime: public value, the server's B echoed, session key. */
  function Reply(lib: Library, raw: seq<byte>, random: seq<byte>): Result<seq<byte>, MockError> {
    if |raw| < 115 then Failure(DataTooShort)
    else
      var n := LittleValue(raw[45..77]);
      if n == 0 then Failure(ZeroModulus)
      else
        var (aBytes, key) := ClientSession(lib, n, GENERATOR, raw[8..40], LittleValue(random), LittleValue(raw[94..114]));
        Success(aBytes + raw[8..40] + key)
  }

  /** The secret as this form computes it: 3(N - g^x) added instead of 3g^x taken off. */
  function MockSecret(b: int, g: int, n: int, a: nat, u: nat, x: nat): nat
    requires n > 0
  {
    ModExp((b + 3 * (n - ModExp(g, x, n))) % n, a + u * x, n)
  }

  lemma SecretForms(b: int, g: int, n: int, a: nat, u: nat, x: nat)
    requires n > 0
    ensures MockSecret(b, g, n, a, u, x) == ClientSecret(b, g, n, a, u, x)
  {
    var v := ModExp(g, x, n);
    SameRemainder(b + 3 * (n - v), b - 3 * v, n, 3);
  }

  method SetBytesLE(data: seq<byte>) returns (v: nat)
    ensures v == LittleValue(data)
  {
    ReversedValue(data);
    v := BigValue(Reverse(data));
  }

  method ToBytesLE32(value: nat) returns (r: seq<byte>)
    ensures r == LittleBytes(value, 32)
  {
    var be := BigBytes(value);
    var out := new byte[32](i => 0);
    var i := 0;
    while i < |be| && i < 32
      invariant i <= 32
      invariant forall k :: 0 <= k < i ==> out[k] == LittleBytes(value, 32)[k]
      invariant forall k :: i <= k < 32 ==> out[k] == 0
    {
      SameDigits(value, 32, i);
      out[i] := be[|be| - 1 - i];
      i := i + 1;
    }
    forall k | i <= k < 32
      ensures LittleBytes(value, 32)[k] == 0
    {
      SameDigits(value, 32, k);
    }
    assert out[..] == LittleBytes(value, 32);
    r := out[..];
  }

  /** The even half is hashed and spread first, then the odd half into the same buffer. */
  method KeyData(lib: Library, sData: seq<byte>) returns (r: Key)
    requires |sData| == 32
    ensures r == SessionKey(lib, sData)
  {
    var keyData, temp := new byte[40], new byte[16];
    for i := 0 to 16
      invariant forall k :: 0 <= k < i ==> temp[k] == sData[2 * k]
    {
      temp[i] := sData[i * 2];
    }
    assert temp[..] == Half(sData, 0);
    var kh := lib.sha1(temp[..]);
    ghost var even := kh;
    for i := 0 to 20
      invariant forall k :: 0 <= k < i ==> keyData[2 * k] == even[k]
    {
      keyData[i * 2] := kh[i];
    }
    for i := 0 to 16
      invariant forall k :: 0 <= k < i ==> temp[k] == sData[2 * k + 1]
      invariant forall k :: 0 <= k < 20 ==> keyData[2 * k] == even[k]
    {
      temp[i] := sData[i * 2 + 1];
    }
    assert temp[..] == Half(sData, 1);
    kh := lib.sha1(temp[..]);
    for i := 0 to 20
      invariant forall k :: 0 <= k < 20 ==> keyData[2 * k] == even[k]
      invariant forall k :: 0 <= k < i ==> keyData[2 * k + 1] == kh[k]
    {
      keyData[i * 2 + 1] := kh[i];
    }
    forall k | 0 <= k < 40
      ensures keyData[k] == SessionKey(lib, sData)[k]
    {
      assert k == 2 * (k / 2) + k % 2;
    }
    assert keyData[..] == SessionKey(lib, sData);
    r := keyData[..];
  }

  method HandleGetNowTime(lib: Library, raw: seq<byte>, random: seq<byte>) returns (r: Result<seq<byte>, MockError>)
    ensures r == Reply(lib, raw, random)
  {
    if |raw| < 115 {
      return Failure(DataTooShort);
    }
    var bBytes := raw[8..40];
    var bInt := SetBytesLE(bBytes);
    var nInt := SetBytesLE(raw[45..77]);
    var xInt := SetBytesLE(raw[94..114]);
    var a := SetBytesLE(random);
    if nInt == 0 {
      return Failure(ZeroModulus);
    }
    var aBytes := ToBytesLE32(ModExp(GENERATOR, a, nInt));
    var u := SetBytesLE(lib.sha1(aBytes + bBytes));
    var secret := Secret(bInt, nInt, a, u, xInt);
    var sData := ToBytesLE32(secret);
    var keyData := KeyData(lib, sData);
    return Success(aBytes + bBytes + keyData);
  }

  method Secret(b: nat, n: nat, a: nat, u: nat, x: nat) returns (s: nat)
    requires n > 0
    ensures s == ClientSecret(b, GENERATOR, n, a, u, x)
  {
    var gx := ModExp(GENERATOR, x, n);
    var temp1 := b + 3 * (n - gx);
    temp1 := temp1 % n;
    var temp2 := a + u * x;
    s := ModExp(temp1, temp2, n);
    SecretForms(b, GENERATOR, n, a, u, x);
  }

  /** For the same N, B, x and nonzero private value, with g = 7, both send one public value and hold one key. */
  lemma FormsAgree(
    lib: Library, c: Challenge, username: seq<byte>, password: seq<byte>, random: seq<byte>,
    raw: seq<byte>, mockRandom: seq<byte>)
    requires ProofOf(lib, c, username, password, random).Success?
    requires |raw| >= 115 && c.g == [GENERATOR] && c.b == raw[8..40] && c.n == raw[45..77]
    requires LittleValue(raw[94..114]) == PrivateX(lib, c.salt, username, password)
    requires LittleValue(mockRandom) == PrivateA(random)
    ensures var p := ProofOf(lib, c, username, password, random).value;
            Reply(lib, raw, mockRandom) == Success(p.a + c.b + p.sessionKey)
  {
    assert LittleValue(c.g) == GENERATOR by {
      assert c.g[1..] == [];
    }
  }

  /** When there is no reply. */
  lemma ReplyRefused(lib: Library, raw: seq<byte>, random: seq<byte>)
    ensures if |raw| < 115 then Reply(lib, raw, random) == Failure(DataTooShort)
            else if LittleValue(raw[45..77]) == 0 then Reply(lib, raw, random) == Failure(ZeroModulus)
            else Reply(lib, raw, random).Success?
  {
  }

  lemma ThreeParts(a: seq<byte>, b: seq<byte>, c: seq<byte>)
    requires |a| == |b| == 32
    ensures var r := a + b + c; r[..32] == a && r[32..64] == b && r[64..] == c
  {
  }

  lemma ReplyParts(lib: Library, raw: seq<byte>, random: seq<byte>, aBytes: seq<byte>, key: Key)
    requires |raw| >= 115 && LittleValue(raw[45..77]) > 0 && |aBytes| == 32
    requires (aBytes, key)
             == ClientSession(lib, LittleValue(raw[45..77]), 7, raw[8..40], LittleValue(random), LittleValue(raw[94..114]))
    ensures Reply(lib, raw, random) == Success(aBytes + raw[8..40] + key)
  {
  }

  /** What a reply is made of: bytes 8 to 40 of the request are B, 45 to 77 N, 94 to 114 x. */
  lemma ReplyMadeOf(lib: Library, raw: seq<byte>, random: seq<byte>) returns (scramble: seq<byte>, shared: seq<byte>)
    requires |raw| >= 115 && LittleValue(raw[45..77]) > 0
    ensures Reply(lib, raw, random).Success?
    ensures var r := Reply(lib, raw, random).value;
            && |r| == 104 && r[32..64] == raw[8..40]
            && PublicIs(r[..32], 7, LittleValue(random), LittleValue(raw[45..77]))
            && ScrambleText(scramble, r[..32], raw[8..40])
            && SharedIs(shared, LittleValue(raw[8..40]), 7, LittleValue(raw[45..77]), LittleValue(random),
                        LittleValue(lib.sha1(scramble)), LittleValue(raw[94..114]))
            && KeyOf(lib, r[64..], shared)
  {
    var bBytes, nBytes, a, x := raw[8..40], raw[45..77], LittleValue(random), LittleValue(raw[94..114]);
    var n := LittleValue(nBytes);
    var aBytes := LittleBytes(ModExp(7, a, n), |nBytes|);
    scramble := aBytes + bBytes;
    var u := LittleValue(lib.sha1(scramble));
    shared := LittleBytes(ClientSecret(LittleValue(bBytes), 7, n, a, u, x), |nBytes|);
    SessionIs(lib, n, 7, bBytes, a, x, |nBytes|, u);
    PublicValue(7, a, nBytes);
    SharedValue(LittleValue(bBytes), 7, nBytes, a, u, x);
    ScrambleIs(scramble, aBytes, bBytes);
    KeyIs(lib, SessionKey(lib, shared), shared);
    ReplyParts(lib, raw, random, aBytes, SessionKey(lib, shared));
    ThreeParts(aBytes, bBytes, SessionKey(lib, shared));
  }
}
