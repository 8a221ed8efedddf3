/** Apple's SRP-6a login: the client of RFC 5054 and its agreement with the server of
    section 2.6. Hashes are arbitrary functions. */
module Srp {
  import opened Results
  import opened Modular
  import opened Utf8Text

  type Bytes = seq<Byte>

  // ---- Big-endian numbers ----------------------------------------------------------------

  /** `big.Int.SetBytes`. */
  function ToInt(s: Bytes): nat {
    if s == [] then 0 else ToInt(s[..|s| - 1]) * 256 + s[|s| - 1]
  }

  /** `big.Int.Bytes`: no leading zeros, and nothing for zero. */
  function ToBytes(n: nat): Bytes {
    if n == 0 then [] else ToBytes(n / 256) + [n % 256]
  }

  function Zeros(n: nat): (z: Bytes)
    ensures |z| == n
  {
    seq(n, _ => 0)
  }

  lemma {:induction false} BytesRoundTrip(n: nat)
    ensures ToInt(ToBytes(n)) == n
  {
    if n > 0 {
      BytesRoundTrip(n / 256);
      assert ToBytes(n)[..|ToBytes(n)| - 1] == ToBytes(n / 256);
    }
  }

  lemma {:induction false} BytesFit(n: nat, size: nat)
    ensures |ToBytes(n)| <= size <==> n < Pow(256, size)
  {
    PowNonNegative(256, size);
    if size > 0 && n > 0 {
      BytesFit(n / 256, size - 1);
      var p := Pow(256, size - 1);
      assert n / 256 < p <==> n < 256 * p;
    }
  }

  lemma {:induction false} LeadingZeros(z: nat, s: Bytes)
    ensures ToInt(Zeros(z) + s) == ToInt(s)
  {
    var padded := Zeros(z) + s;
    if s == [] {
      if z > 0 {
        LeadingZeros(z - 1, []);
        assert padded[..z - 1] == Zeros(z - 1) + [];
      }
    } else {
      LeadingZeros(z, s[..|s| - 1]);
      assert padded[..|padded| - 1] == Zeros(z) + s[..|s| - 1];
    }
  }

  /** `padSRP`. */
  method PadSRP(value: nat, size: nat) returns (r: Bytes)
    ensures r == Padded(value, size)
  {
    var bytes := ToBytes(value);
    if |bytes| >= size {
      return bytes;
    }
    var padded := new Byte[size](_ => 0);
    var from := size - |bytes|;
    for i := 0 to |bytes|
      invariant forall k :: 0 <= k < size ==> padded[k] == if from <= k < from + i then bytes[k - from] else 0
    {
      padded[from + i] := bytes[i];
    }
    r := padded[..];
  }

  function Padded(value: nat, size: nat): Bytes {
    var bytes := ToBytes(value);
    if |bytes| >= size then bytes else Zeros(size - |bytes|) + bytes
  }

  /** Exactly `size` bytes with the same value, for every value that fits. */
  lemma PaddedIsExact(value: nat, size: nat)
    ensures ToInt(Padded(value, size)) == value
    ensures |Padded(value, size)| == size <==> value < Pow(256, size)
  {
    BytesRoundTrip(value);
    BytesFit(value, size);
    if |ToBytes(value)| < size { LeadingZeros(size - |ToBytes(value)|, ToBytes(value)); }
  }

  /** Two padded values are equal only if the values are. */
  lemma PaddedInjective(a: nat, b: nat, size: nat)
    requires Padded(a, size) == Padded(b, size)
    ensures a == b
  {
    PaddedIsExact(a, size);
    PaddedIsExact(b, size);
  }

  // ---- The group and its derived values --------------------------------------------------

  /** A group with its encoded size and the mask H(N) xor H(g) of the client proof. */
  datatype Group = Group(n: nat, g: nat, size: nat, mask: Bytes)

  type Hash = Bytes -> Bytes

  predicate ValidGroup(group: Group) {
    group.n > 1
  }

  /** `srpMultiplier`. */
  function Multiplier(group: Group, hash: Hash): nat {
    ToInt(hash(ToBytes(group.n) + Padded(group.g, group.size)))
  }

  /** `srpX`, the variant without the user name. */
  function PrivateKey(hash: Hash, salt: Bytes, passwordKey: Bytes): nat {
    ToInt(hash(salt + hash([0x3A] + passwordKey)))
  }

  /** `srpU`. */
  function Scrambling(group: Group, hash: Hash, a: nat, b: nat): nat {
    ToInt(hash(Padded(a, group.size) + Padded(b, group.size)))
  }

  function ClientProof(group: Group, hash: Hash, username: Bytes, salt: Bytes, a: Bytes, b: Bytes, key: Bytes): Bytes {
    hash(group.mask + hash(username) + salt + a + b + key)
  }

  function ServerProof(hash: Hash, a: Bytes, proof: Bytes, key: Bytes): Bytes {
    hash(a + proof + key)
  }

  /** Both proofs, from the public values and the shared secret. */
  function Proofs(
    group: Group, hash: Hash, username: Bytes, salt: Bytes, clientPublic: nat, serverPublic: nat, shared: nat
  ): (Bytes, Bytes) {
    var key := hash(Padded(shared, group.size));
    var a, b := Padded(clientPublic, group.size), Padded(serverPublic, group.size);
    var m1 := ClientProof(group, hash, username, salt, a, b, key);
    (m1, ServerProof(hash, a, m1, key))
  }

  function ModExp(b: int, e: nat, n: nat): (r: nat)
    requires n > 1
    ensures r < n
  {
    Pow(b, e) % n
  }

  /** The premaster secret of the client in section 2.6 of RFC 5054. */
  function ClientSecret(group: Group, k: nat, a: nat, x: nat, u: nat, serverPublic: nat): nat
    requires ValidGroup(group)
  {
    ModExp((serverPublic - k * ModExp(group.g, x, group.n)) % group.n, a + u * x, group.n)
  }

  /** The premaster secret of the server there: (A * v^u) ^ b. */
  function ServerSecret(group: Group, verifier: nat, b: nat, u: nat, clientPublic: nat): nat
    requires ValidGroup(group)
  {
    ModExp(clientPublic * Pow(verifier, u), b, group.n)
  }

  function ServerPublic(group: Group, k: nat, verifier: nat, b: nat): nat
    requires ValidGroup(group)
  {
    (k * verifier + Pow(group.g, b)) % group.n
  }

  lemma ClientExponent(g: nat, n: nat, kv: int, b: nat, e: nat)
    requires n > 1
    ensures b * e >= 0 && Pow(((kv + Pow(g, b)) % n - kv) % n, e) % n == Pow(g, b * e) % n
  {
    var gb := Pow(g, b);
    ModSum(kv + gb, kv, n);
    ModOfMod(gb, n);
    RaiseBoth(((kv + gb) % n - kv) % n, g, b, e, n);
  }

  /** A * v^u is g^(a + x*u), hence its power g^((a + x*u)*b). */
  lemma ServerExponent(g: nat, n: nat, a: nat, b: nat, x: nat, u: nat)
    requires n > 1
    ensures x * u >= 0 && (a + x * u) * b >= 0
    ensures Pow((Pow(g, a) % n) * Pow(Pow(g, x) % n, u), b) % n == Pow(g, (a + x * u) * b) % n
  {
    var ga, vu := Pow(g, a), Pow(Pow(g, x) % n, u);
    ModOfMod(Pow(g, x), n);
    RaiseBoth(Pow(g, x) % n, g, x, u, n);
    ModOfMod(ga, n);
    SameProduct(ga % n, vu, ga, Pow(g, x * u), n);
    PowAdd(g, a, x * u);
    RaiseBoth((ga % n) * vu, g, a + x * u, b, n);
  }

  lemma SameExponent(a: nat, b: nat, x: nat, u: nat)
    ensures u * x >= 0 && b * (a + u * x) == (a + x * u) * b
  {
    Commute(u, x);
    Commute(b, a + u * x);
  }

  /** Both sides compute the same secret, whatever the private values, k and u are. */
  lemma SecretsAgree(group: Group, k: nat, a: nat, b: nat, x: nat, u: nat)
    requires ValidGroup(group)
    ensures var verifier := ModExp(group.g, x, group.n);
      ClientSecret(group, k, a, x, u, ServerPublic(group, k, verifier, b))
        == ServerSecret(group, verifier, b, u, ModExp(group.g, a, group.n))
  {
    SameExponent(a, b, x, u);
    ClientExponent(group.g, group.n, k * ModExp(group.g, x, group.n), b, a + u * x);
    ServerExponent(group.g, group.n, a, b, x, u);
  }

  // ---- What the hashes are taken of ------------------------------------------------------

  ghost predicate FixedSize(hash: Hash, size: nat) {
    forall s: Bytes :: |hash(s)| == size
  }

  /** Two different inputs with one hash value. */
  predicate Collides(hash: Hash, s: Bytes, t: Bytes) {
    s != t && hash(s) == hash(t)
  }

  lemma {:induction false} ToIntInjective(s: Bytes, t: Bytes)
    requires |s| == |t| && ToInt(s) == ToInt(t)
    ensures s == t
  {
    if s != [] {
      ToIntInjective(s[..|s| - 1], t[..|t| - 1]);
      assert s == s[..|s| - 1] + [s[|s| - 1]];
    }
  }

  lemma SplitAtSize(a: Bytes, b: Bytes, c: Bytes, d: Bytes)
    requires a + b == c + d && (|a| == |c| || |b| == |d|)
    ensures a == c && b == d
  {
    assert |a + b| == |a| + |b| && |c + d| == |c| + |d|;
    assert a == (a + b)[..|a|] && b == (a + b)[|a|..];
  }

  /** Equal private keys come from the same salt and password key, or exhibit a collision. */
  lemma PrivateKeyDetermines(hash: Hash, size: nat, salt: Bytes, passwordKey: Bytes, otherSalt: Bytes, otherKey: Bytes)
    requires FixedSize(hash, size)
    requires PrivateKey(hash, salt, passwordKey) == PrivateKey(hash, otherSalt, otherKey)
    ensures (salt == otherSalt && passwordKey == otherKey)
      || Collides(hash, [0x3A] + passwordKey, [0x3A] + otherKey)
      || Collides(hash, salt + hash([0x3A] + passwordKey), otherSalt + hash([0x3A] + otherKey))
  {
    var inner, other := hash([0x3A] + passwordKey), hash([0x3A] + otherKey);
    ToIntInjective(hash(salt + inner), hash(otherSalt + other));
    if salt + inner == otherSalt + other {
      SplitAtSize(salt, inner, otherSalt, other);
      if [0x3A] + passwordKey == [0x3A] + otherKey { SplitAtSize([0x3A], passwordKey, [0x3A], otherKey); }
    }
  }

  ghost predicate Encodable(group: Group, value: nat) {
    value < Pow(256, group.size)
  }

  /** Equal multipliers come from the same group, or exhibit a collision. */
  lemma MultiplierDetermines(group: Group, other: Group, hash: Hash, size: nat)
    requires FixedSize(hash, size) && Encodable(group, group.g) && Encodable(other, other.g) && group.size == other.size
    requires Multiplier(group, hash) == Multiplier(other, hash)
    ensures (group.n == other.n && group.g == other.g)
      || Collides(hash, ToBytes(group.n) + Padded(group.g, group.size), ToBytes(other.n) + Padded(other.g, other.size))
  {
    var g, h := Padded(group.g, group.size), Padded(other.g, other.size);
    ToIntInjective(hash(ToBytes(group.n) + g), hash(ToBytes(other.n) + h));
    PaddedIsExact(group.g, group.size);
    PaddedIsExact(other.g, other.size);
    if ToBytes(group.n) + g == ToBytes(other.n) + h {
      SplitAtSize(ToBytes(group.n), g, ToBytes(other.n), h);
      BytesRoundTrip(group.n);
      BytesRoundTrip(other.n);
    }
  }

  /** Equal values of u come from the same two public values, or exhibit a collision. */
  lemma ScramblingDetermines(group: Group, hash: Hash, size: nat, a: nat, b: nat, otherA: nat, otherB: nat)
    requires FixedSize(hash, size) && Encodable(group, a) && Encodable(group, otherA)
    requires Scrambling(group, hash, a, b) == Scrambling(group, hash, otherA, otherB)
    ensures (a == otherA && b == otherB)
      || Collides(hash, Padded(a, group.size) + Padded(b, group.size), Padded(otherA, group.size) + Padded(otherB, group.size))
  {
    var pa, pb, qa, qb := Padded(a, group.size), Padded(b, group.size), Padded(otherA, group.size), Padded(otherB, group.size);
    ToIntInjective(hash(pa + pb), hash(qa + qb));
    PaddedIsExact(a, group.size);
    PaddedIsExact(otherA, group.size);
    if pa + pb == qa + qb {
      SplitAtSize(pa, pb, qa, qb);
      PaddedInjective(a, otherA, group.size);
      PaddedInjective(b, otherB, group.size);
    }
  }

  /** What one side of a login puts into its proofs. */
  datatype Login = Login(username: Bytes, salt: Bytes, clientPublic: nat, serverPublic: nat, shared: nat)

  function ProofsOf(group: Group, hash: Hash, login: Login): (Bytes, Bytes) {
    Proofs(group, hash, login.username, login.salt, login.clientPublic, login.serverPublic, login.shared)
  }

  function Key(group: Group, hash: Hash, login: Login): Bytes {
    hash(Padded(login.shared, group.size))
  }

  /** The input of the hash that is the client's proof. */
  function ProofInput(group: Group, hash: Hash, login: Login): Bytes {
    group.mask + hash(login.username) + login.salt + Padded(login.clientPublic, group.size)
      + Padded(login.serverPublic, group.size) + Key(group, hash, login)
  }

  ghost predicate InGroup(group: Group, login: Login) {
    Encodable(group, login.clientPublic) && Encodable(group, login.serverPublic) && Encodable(group, login.shared)
  }

  lemma SameParts(mask: Bytes, h: Bytes, s: Bytes, a: Bytes, b: Bytes, k: Bytes, h': Bytes, s': Bytes, a': Bytes, b': Bytes, k': Bytes)
    requires mask + h + s + a + b + k == mask + h' + s' + a' + b' + k'
    requires |h| == |h'| && |a| == |a'| && |b| == |b'| && |k| == |k'|
    ensures h == h' && s == s' && a == a' && b == b' && k == k'
  {
    SplitAtSize(mask + h + s + a + b, k, mask + h' + s' + a' + b', k');
    SplitAtSize(mask + h + s + a, b, mask + h' + s' + a', b');
    SplitAtSize(mask + h + s, a, mask + h' + s', a');
    SplitAtSize(mask + h, s, mask + h', s');
    SplitAtSize(mask, h, mask, h');
  }

  lemma InputDetermines(group: Group, hash: Hash, size: nat, login: Login, other: Login)
    requires FixedSize(hash, size) && InGroup(group, login) && InGroup(group, other)
    requires ProofInput(group, hash, login) == ProofInput(group, hash, other)
    ensures login.salt == other.salt && login.clientPublic == other.clientPublic && login.serverPublic == other.serverPublic
    ensures hash(login.username) == hash(other.username) && Key(group, hash, login) == Key(group, hash, other)
  {
    PaddedIsExact(login.clientPublic, group.size);
    PaddedIsExact(other.clientPublic, group.size);
    PaddedIsExact(login.serverPublic, group.size);
    PaddedIsExact(other.serverPublic, group.size);
    SameParts(group.mask, hash(login.username), login.salt, Padded(login.clientPublic, group.size),
      Padded(login.serverPublic, group.size), Key(group, hash, login), hash(other.username), other.salt,
      Padded(other.clientPublic, group.size), Padded(other.serverPublic, group.size), Key(group, hash, other));
  }

  /** Equal client proofs mean the same user, salt, public values and shared secret on both
      sides, or exhibit a collision. */
  lemma ClientProofDetermines(group: Group, hash: Hash, size: nat, login: Login, other: Login)
    requires FixedSize(hash, size) && InGroup(group, login) && InGroup(group, other)
    requires ProofsOf(group, hash, login).0 == ProofsOf(group, hash, other).0
    ensures login == other
      || Collides(hash, ProofInput(group, hash, login), ProofInput(group, hash, other))
      || Collides(hash, login.username, other.username)
      || Collides(hash, Padded(login.shared, group.size), Padded(other.shared, group.size))
  {
    if ProofInput(group, hash, login) == ProofInput(group, hash, other) {
      InputDetermines(group, hash, size, login, other);
      if Padded(login.shared, group.size) == Padded(other.shared, group.size) {
        PaddedInjective(login.shared, other.shared, group.size);
      }
    }
  }

  /** Equal server proofs mean equal client proofs, or exhibit a collision. */
  lemma ServerProofDetermines(group: Group, hash: Hash, size: nat, login: Login, other: Login)
    requires FixedSize(hash, size) && InGroup(group, login) && InGroup(group, other)
    requires ProofsOf(group, hash, login).1 == ProofsOf(group, hash, other).1
    ensures ProofsOf(group, hash, login).0 == ProofsOf(group, hash, other).0
      || Collides(hash, ServerInput(group, hash, login), ServerInput(group, hash, other))
  {
    var a, b := Padded(login.clientPublic, group.size), Padded(other.clientPublic, group.size);
    var m, n := ProofsOf(group, hash, login).0, ProofsOf(group, hash, other).0;
    PaddedIsExact(login.clientPublic, group.size);
    PaddedIsExact(other.clientPublic, group.size);
    if ServerInput(group, hash, login) == ServerInput(group, hash, other) {
      SplitAtSize(a + m, Key(group, hash, login), b + n, Key(group, hash, other));
      SplitAtSize(a, m, b, n);
    }
  }

  /** The input of the hash that is the server's proof. */
  function ServerInput(group: Group, hash: Hash, login: Login): Bytes {
    Padded(login.clientPublic, group.size) + ProofsOf(group, hash, login).0 + Key(group, hash, login)
  }

  // ---- The client ------------------------------------------------------------------------

  datatype Failure = NoRandomness | ZeroSecret | InvalidServerPublic | ZeroScrambling

  class Client {
    const group: Group
    const hash: Hash
    var secret: nat
    var public: nat
    var k: nat
    var m1: Bytes
    var m2: Bytes

    ghost predicate Valid()
      reads this
    {
      ValidGroup(group) && secret > 0 && public == ModExp(group.g, secret, group.n) && k == Multiplier(group, hash)
    }

    constructor (group: Group, hash: Hash, secret: nat)
      requires ValidGroup(group) && secret > 0
      ensures Valid() && this.group == group && this.hash == hash && this.secret == secret
    {
      this.group, this.hash, this.secret := group, hash, secret;
      public, k := ModExp(group.g, secret, group.n), Multiplier(group, hash);
      m1, m2 := [], [];
    }

    method PublicKey() returns (key: Bytes)
      requires Valid()
      ensures ToInt(key) == public && (group.n <= Pow(256, group.size) ==> |key| == group.size)
    {
      key := PadSRP(public, group.size);
      PaddedIsExact(public, group.size);
    }

    /** `processChallenge`: fails exactly for a server value outside 1..N-1 or a zero u;
        otherwise the proofs are those of the shared secret. */
    method ProcessChallenge(username: Bytes, passwordKey: Bytes, salt: Bytes, serverPublic: Bytes) returns (failure: Option<Failure>)
      requires Valid()
      modifies this`m1, this`m2
      ensures var b := ToInt(serverPublic); var u := Scrambling(group, hash, public, b);
        && (failure == Some(InvalidServerPublic) <==> b == 0 || b >= group.n)
        && (failure == Some(ZeroScrambling) <==> 0 < b < group.n && u == 0)
        && (failure.None? <==> 0 < b < group.n && u != 0)
      ensures failure.Some? ==> m1 == old(m1) && m2 == old(m2)
      ensures failure.None? ==>
        var b := ToInt(serverPublic);
        var x, u := PrivateKey(hash, salt, passwordKey), Scrambling(group, hash, public, b);
        (m1, m2) == Proofs(group, hash, username, salt, public, b, ClientSecret(group, k, secret, x, u, b))
    {
      var b := ToInt(serverPublic);
      if b <= 0 || b >= group.n {
        return Some(InvalidServerPublic);
      }
      var x := PrivateKey(hash, salt, passwordKey);
      var u := Scrambling(group, hash, public, b);
      if u == 0 {
        return Some(ZeroScrambling);
      }
      var gx := ModExp(group.g, x, group.n);
      var base := (b - k * gx) % group.n;
      var shared := ModExp(base, secret + u * x, group.n);
      assert shared == ClientSecret(group, k, secret, x, u, b);
      SetProofs(username, salt, b, shared);
      return None;
    }

    method SetProofs(username: Bytes, salt: Bytes, b: nat, shared: nat)
      modifies this`m1, this`m2
      ensures (m1, m2) == Proofs(group, hash, username, salt, public, b, shared)
    {
      var encoded := PadSRP(shared, group.size);
      var key := hash(encoded);
      var aBytes := PadSRP(public, group.size);
      var bBytes := PadSRP(b, group.size);
      m1 := ClientProof(group, hash, username, salt, aBytes, bBytes, key);
      m2 := ServerProof(hash, aBytes, m1, key);
    }
  }

  /** `newSRPClient`. */
  method NewSRPClient(group: Group, hash: Hash, random: Bytes) returns (r: Result<Client, Failure>)
    requires ValidGroup(group)
    ensures r.Success? <==> |random| >= 32 && ToInt(random[..32]) != 0
    ensures r.Success? ==> fresh(r.value) && r.value.Valid() && r.value.secret == ToInt(random[..32])
    ensures r.Success? ==> r.value.group == group && r.value.hash == hash
  {
    if |random| < 32 {
      return Failure(NoRandomness);
    }
    var secret := ToInt(random[..32]);
    if secret == 0 {
      return Failure(ZeroSecret);
    }
    var client := new Client(group, hash, secret);
    return Success(client);
  }

  /** The proofs a server of RFC 5054 computes from the verifier it stores. */
  function ServerProofs(
    group: Group, hash: Hash, username: Bytes, salt: Bytes, verifier: nat, b: nat, clientPublic: nat
  ): (Bytes, Bytes)
    requires ValidGroup(group)
  {
    var public := ServerPublic(group, Multiplier(group, hash), verifier, b);
    var u := Scrambling(group, hash, clientPublic, public);
    Proofs(group, hash, username, salt, clientPublic, public, ServerSecret(group, verifier, b, u, clientPublic))
  }

  /** A whole login: whenever the client accepts the challenge, both of its proofs are the ones
      the server expects, for every secret, salt, password and hash. */
  method LogIn(client: Client, username: Bytes, passwordKey: Bytes, salt: Bytes, b: nat)
    returns (failure: Option<Failure>, expected: (Bytes, Bytes))
    requires client.Valid()
    modifies client`m1, client`m2
    ensures failure.None? ==> (client.m1, client.m2) == expected
    ensures failure.None? ==>
      (client.m1, client.m2) == ServerProofs(client.group, client.hash, username, salt,
        ModExp(client.group.g, PrivateKey(client.hash, salt, passwordKey), client.group.n), b, client.public)
  {
    var group, hash := client.group, client.hash;
    var x := PrivateKey(hash, salt, passwordKey);
    var verifier := ModExp(group.g, x, group.n);
    var clientKey := client.PublicKey();
    var public := ServerPublic(group, client.k, verifier, b);
    var challenge := PadSRP(public, group.size);
    PaddedIsExact(public, group.size);
    failure := client.ProcessChallenge(username, passwordKey, salt, challenge);
    SecretsAgree(group, client.k, client.secret, b, x, Scrambling(group, hash, ToInt(clientKey), public));
    expected := ServerProofs(group, hash, username, salt, verifier, b, ToInt(clientKey));
  }
}
