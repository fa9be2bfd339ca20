/** The knock's two MACs: core/go/crypto.go. HMAC-SHA256 and SHA-256 are parameters; where a
    statement rests on their collision resistance it says between which inputs. */
module Knock {
  import opened ByteStrings
  import opened Numerals
  import opened ServerNames
  import opened IpAddresses
  import opened IpRoundTrip
  import Pae

  datatype Crypto = Crypto(hmac: (Bytes, Bytes) -> Bytes, sha256: Bytes -> Bytes)
  {
    ghost predicate Valid()
    {
      && (forall k, d :: |hmac(k, d)| == 32)
      && (forall d :: |sha256(d)| == 32)
    }

    /** The MAC separates these two inputs under this key. */
    predicate Separates(key: Bytes, a: Bytes, b: Bytes)
    {
      hmac(key, a) == hmac(key, b) ==> a == b
    }

    /** Lower-case hexadecimal SHA-256, as cookie hashes and secret fingerprints are kept. */
    function HexDigest(d: Bytes): (h: Bytes)
      requires Valid()
      ensures |h| == 64 && COLON !in h
    {
      Hex(sha256(d))
    }
  }

  function Hex(b: Bytes): (h: Bytes)
    ensures |h| == 2 * |b| && COLON !in h
  {
    if b == [] then [] else [Digit(b[0] / 16), Digit(b[0] % 16)] + Hex(b[1..])
  }

  lemma {:induction false} HexInjective(a: Bytes, b: Bytes)
    requires Hex(a) == Hex(b)
    ensures a == b
  {
    if a != [] {
      assert |b| == |a|;
      var p, q := Hex(a), Hex(b);
      assert p[0] == Digit(a[0] / 16) && q[0] == Digit(b[0] / 16);
      assert p[1] == Digit(a[0] % 16) && q[1] == Digit(b[0] % 16);
      assert p[2..] == Hex(a[1..]) && q[2..] == Hex(b[1..]);
      HexInjective(a[1..], b[1..]);
      assert a == [a[0]] + a[1..] && b == [b[0]] + b[1..];
    }
  }

  const NONCE_LEN: nat := 56

  type U64 = x: int | 0 <= x < 0x1_0000_0000_0000_0000

  type I64 = x: int | -0x8000_0000_0000_0000 <= x < 0x8000_0000_0000_0000

  const MAX_I64: nat := 0x7fff_ffff_ffff_ffff

  // ---- the proof ------------------------------------------------------------

  function ProofDomain(): Bytes
  {
    Ascii("jitaccess-v1")
  }

  function NonceDomain(): Bytes
  {
    Ascii("jitaccess-nonce-v1")
  }

  function ProofCanonical(serverName: Bytes, kid: Bytes, nonceRaw: Bytes): Bytes
  {
    Pae.Encode([ProofDomain(), CanonServerName(serverName), kid, nonceRaw])
  }

  function BuildProof(c: Crypto, secret: Bytes, serverName: Bytes, kid: Bytes, nonceRaw: Bytes): Bytes
  {
    c.hmac(secret, ProofCanonical(serverName, kid, nonceRaw))
  }

  predicate VerifyProof(c: Crypto, secret: Bytes, serverName: Bytes, kid: Bytes, nonceRaw: Bytes, tag: Bytes)
  {
    BuildProof(c, secret, serverName, kid, nonceRaw) == tag
  }

  /** What holds of every Go string. */
  predicate Small(s: Bytes)
  {
    |s| < Pae.TWO63
  }

  lemma CanonSmall(s: Bytes)
    requires Small(s)
    ensures Small(CanonServerName(s))
  {
    DropLeadingShrinks(s);
    var t := Trimmed(s);
    var u := Unbracket(t);
    if u != t {
      DropLeadingShrinks(t[1..IndexOf(t, CLOSE_BRACKET)]);
    }
    DropLeadingShrinks(StripPort(u));
  }

  lemma EncodeFour(d: Bytes, a: Bytes, b: Bytes, c: Bytes, a': Bytes, b': Bytes, c': Bytes)
    requires Small(d) && Small(a) && Small(b) && Small(c) && Small(a') && Small(b') && Small(c')
    ensures Pae.Encode([d, a, b, c]) == Pae.Encode([d, a', b', c']) <==> a == a' && b == b' && c == c'
  {
    var x, y := [d, a, b, c], [d, a', b', c'];
    Pae.Injective(x, y);
    assert x == y ==> x[1] == y[1] && x[2] == y[2] && x[3] == y[3];
  }

  lemma EncodeFive(d: Bytes, a: Bytes, b: Bytes, c: Bytes, e: Bytes, a': Bytes, b': Bytes, c': Bytes, e': Bytes)
    requires Small(d) && Small(a) && Small(b) && Small(c) && Small(e) && Small(a') && Small(b') && Small(c') && Small(e')
    ensures Pae.Encode([d, a, b, c, e]) == Pae.Encode([d, a', b', c', e']) <==> a == a' && b == b' && c == c' && e == e'
  {
    var x, y := [d, a, b, c, e], [d, a', b', c', e'];
    Pae.Injective(x, y);
    assert x == y ==> x[1] == y[1] && x[2] == y[2] && x[3] == y[3] && x[4] == y[4];
  }

  lemma FourIsNotFive(d: Bytes, a: Bytes, b: Bytes, c: Bytes, d': Bytes, a': Bytes, b': Bytes, c': Bytes, e': Bytes)
    requires Small(d) && Small(a) && Small(b) && Small(c)
    requires Small(d') && Small(a') && Small(b') && Small(c') && Small(e')
    ensures Pae.Encode([d, a, b, c]) != Pae.Encode([d', a', b', c', e'])
  {
    Pae.Injective([d, a, b, c], [d', a', b', c', e']);
  }

  /** Two proof inputs agree exactly when canonical service, kid and nonce all do. */
  lemma ProofInputsEqual(s1: Bytes, k1: Bytes, n1: Bytes, s2: Bytes, k2: Bytes, n2: Bytes)
    requires Small(s1) && Small(k1) && Small(n1) && Small(s2) && Small(k2) && Small(n2)
    ensures ProofCanonical(s1, k1, n1) == ProofCanonical(s2, k2, n2)
       <==> CanonServerName(s1) == CanonServerName(s2) && k1 == k2 && n1 == n2
  {
    CanonSmall(s1);
    CanonSmall(s2);
    EncodeFour(ProofDomain(), CanonServerName(s1), k1, n1, CanonServerName(s2), k2, n2);
  }

  /** A proof opens nothing but the (service, kid, nonce) it was built for. */
  lemma ProofBindsItsInputs(c: Crypto, secret: Bytes, s1: Bytes, k1: Bytes, n1: Bytes, s2: Bytes, k2: Bytes, n2: Bytes)
    requires Small(s1) && Small(k1) && Small(n1) && Small(s2) && Small(k2) && Small(n2)
    requires c.Separates(secret, ProofCanonical(s1, k1, n1), ProofCanonical(s2, k2, n2))
    ensures VerifyProof(c, secret, s2, k2, n2, BuildProof(c, secret, s1, k1, n1))
       <==> CanonServerName(s1) == CanonServerName(s2) && k1 == k2 && n1 == n2
  {
    ProofInputsEqual(s1, k1, n1, s2, k2, n2);
  }

  // ---- the nonce ------------------------------------------------------------

  /** n as k bytes, most significant first. */
  function BeBytes(n: nat, k: nat): (b: Bytes)
    ensures |b| == k
  {
    if k == 0 then [] else BeBytes(n / 256, k - 1) + [n % 256]
  }

  function BeValue(b: Bytes): nat
  {
    if b == [] then 0 else BeValue(b[..|b| - 1]) * 256 + b[|b| - 1]
  }

  lemma {:induction false} BeRoundTrip(n: nat, k: nat)
    requires n < Pae.Pow256(k)
    ensures BeValue(BeBytes(n, k)) == n
    decreases k
  {
    if k > 0 {
      var b := BeBytes(n, k);
      assert b[..k - 1] == BeBytes(n / 256, k - 1);
      BeRoundTrip(n / 256, k - 1);
    }
  }

  lemma {:induction false} BeBelow(b: Bytes)
    ensures BeValue(b) < Pae.Pow256(|b|)
  {
    if b != [] {
      BeBelow(b[..|b| - 1]);
    }
  }

  function NonceMacInput(ts: U64, rand: Bytes, serverName: Bytes, ip: Bytes, v6Prefix: int): Option<Bytes>
  {
    match CanonIp(ip, v6Prefix, 32)
    case Err(_) => None
    case Ok(ipc) => Some(Pae.Encode([NonceDomain(), BeBytes(ts, 8), rand, CanonServerName(serverName), ipc]))
  }

  function IssueNonce(c: Crypto, key: Bytes, ts: U64, rand: Bytes, serverName: Bytes, ip: Bytes, v6Prefix: int): Option<Bytes>
  {
    if |rand| != 16 then None
    else
      match NonceMacInput(ts, rand, serverName, ip, v6Prefix)
      case None => None
      case Some(input) => Some(BeBytes(ts, 8) + rand + c.hmac(key, input))
  }

  /** Go's conversion of a uint64 to int64. */
  function ToI64(x: U64): I64
  {
    if x <= MAX_I64 then x else x - 0x1_0000_0000_0000_0000
  }

  /** Go's conversion of an int64 to uint64. */
  function ToU64(x: I64): U64
  {
    if x >= 0 then x else x + 0x1_0000_0000_0000_0000
  }

  /** Go's int64 subtraction, wrapping around. */
  function Sub64(a: I64, b: I64): I64
  {
    var d := a - b;
    if d > MAX_I64 then d - 0x1_0000_0000_0000_0000
    else if d < -0x8000_0000_0000_0000 then d + 0x1_0000_0000_0000_0000
    else d
  }

  predicate Stale(ts: U64, now: I64, ttl: I64)
  {
    ts > MAX_I64 || now < ToI64(ts) || Sub64(now, ToI64(ts)) >= ttl
  }

  /** The window over the integers, as the protocol states it. */
  predicate Fresh(ts: int, now: int, ttl: int)
  {
    0 <= now - ts < ttl
  }

  /** The machine test never overflows: for any 64-bit stamp, clock and lifetime it is the integer window. */
  lemma StaleIsExact(ts: U64, now: I64, ttl: I64)
    ensures !Stale(ts, now, ttl) <==> Fresh(ts, now, ttl)
  {
  }

  function Stamp(nonce: Bytes): U64
    requires |nonce| == NONCE_LEN
  {
    BeBelow(nonce[..8]);
    Pae.Pow256Eight();
    BeValue(nonce[..8])
  }

  function Rand(nonce: Bytes): (r: Bytes)
    requires |nonce| == NONCE_LEN
    ensures |r| == 16
  {
    nonce[8..24]
  }

  /** The random part of the nonce when its MAC is ours and it is fresh. */
  function VerifyNonce(c: Crypto, key: Bytes, nonce: Bytes, serverName: Bytes, ip: Bytes, now: I64, ttl: I64, v6Prefix: int)
    : (r: Option<Bytes>)
    ensures r.Some? ==> |nonce| == NONCE_LEN && r.value == Rand(nonce) && Fresh(Stamp(nonce), now, ttl)
  {
    if |nonce| != NONCE_LEN then None
    else
      var ts := Stamp(nonce);
      match NonceMacInput(ts, Rand(nonce), serverName, ip, v6Prefix)
      case None => None
      case Some(input) =>
        if c.hmac(key, input) != nonce[24..] then None
        else
          StaleIsExact(ts, now, ttl);
          if Stale(ts, now, ttl) then None else Some(Rand(nonce))
  }

  lemma NonceInputsEqual(ts1: U64, r1: Bytes, s1: Bytes, ip1: Bytes, p1: int, ts2: U64, r2: Bytes, s2: Bytes, ip2: Bytes, p2: int)
    requires Small(s1) && Small(s2) && |r1| == 16 && |r2| == 16
    requires CanonIp(ip1, p1, 32).Ok? && CanonIp(ip2, p2, 32).Ok?
    ensures NonceMacInput(ts1, r1, s1, ip1, p1) == NonceMacInput(ts2, r2, s2, ip2, p2)
       <==> ts1 == ts2 && r1 == r2 && CanonServerName(s1) == CanonServerName(s2) && CanonIp(ip1, p1, 32) == CanonIp(ip2, p2, 32)
  {
    CanonSmall(s1);
    CanonSmall(s2);
    CanonIpShort(ip1, p1, 32);
    CanonIpShort(ip2, p2, 32);
    EncodeFive(NonceDomain(), BeBytes(ts1, 8), r1, CanonServerName(s1), CanonIp(ip1, p1, 32).value,
               BeBytes(ts2, 8), r2, CanonServerName(s2), CanonIp(ip2, p2, 32).value);
    Pae.Pow256Eight();
    BeRoundTrip(ts1, 8);
    BeRoundTrip(ts2, 8);
  }

  /** No proof input is ever a nonce input: the two MACs cannot stand in for one another. */
  lemma DomainsSeparate(s1: Bytes, kid: Bytes, nonce: Bytes, ts: U64, rand: Bytes, s2: Bytes, ip: Bytes, p: int)
    requires Small(s1) && Small(kid) && Small(nonce) && Small(s2) && |rand| == 16
    ensures Some(ProofCanonical(s1, kid, nonce)) != NonceMacInput(ts, rand, s2, ip, p)
  {
    var r := CanonIp(ip, p, 32);
    if r.Ok? {
      CanonSmall(s1);
      CanonSmall(s2);
      CanonIpShort(ip, p, 32);
      FourIsNotFive(ProofDomain(), CanonServerName(s1), kid, nonce,
                    NonceDomain(), BeBytes(ts, 8), rand, CanonServerName(s2), r.value);
    }
  }

  /** A nonce issued for one service and client verifies for another exactly when both canonical
      forms agree and the window is open; the prefix may have been reconfigured in between. */
  lemma NonceRoundTrip(c: Crypto, key: Bytes, ts: U64, rand: Bytes, s1: Bytes, ip1: Bytes, p1: int,
                       s2: Bytes, ip2: Bytes, p2: int, now: I64, ttl: I64)
    requires c.Valid() && Small(s1) && Small(s2)
    requires IssueNonce(c, key, ts, rand, s1, ip1, p1).Some?
    requires var a := NonceMacInput(ts, rand, s1, ip1, p1);
             var b := NonceMacInput(ts, rand, s2, ip2, p2);
             b.Some? ==> c.Separates(key, a.value, b.value)
    ensures var nonce := IssueNonce(c, key, ts, rand, s1, ip1, p1).value;
            VerifyNonce(c, key, nonce, s2, ip2, now, ttl, p2).Some?
            <==> (CanonServerName(s1) == CanonServerName(s2)
                  && CanonIp(ip1, p1, 32) == CanonIp(ip2, p2, 32)
                  && Fresh(ts, now, ttl))
  {
    var nonce := IssueNonce(c, key, ts, rand, s1, ip1, p1).value;
    IssuedParts(c, key, ts, rand, s1, ip1, p1);
    StaleIsExact(ts, now, ttl);
    if CanonIp(ip2, p2, 32).Ok? {
      NonceInputsEqual(ts, rand, s1, ip1, p1, ts, rand, s2, ip2, p2);
    }
  }

  lemma IssuedParts(c: Crypto, key: Bytes, ts: U64, rand: Bytes, s: Bytes, ip: Bytes, p: int)
    requires c.Valid() && IssueNonce(c, key, ts, rand, s, ip, p).Some?
    ensures var nonce := IssueNonce(c, key, ts, rand, s, ip, p).value;
            && |nonce| == NONCE_LEN && Stamp(nonce) == ts && Rand(nonce) == rand
            && nonce[24..] == c.hmac(key, NonceMacInput(ts, rand, s, ip, p).value)
  {
    var mac := c.hmac(key, NonceMacInput(ts, rand, s, ip, p).value);
    var nonce := BeBytes(ts, 8) + rand + mac;
    Pae.Pow256Eight();
    BeRoundTrip(ts, 8);
    assert nonce[..8] == BeBytes(ts, 8) && nonce[8..24] == rand && nonce[24..] == mac;
  }
}
