/** Laws of the grant map: what its string keys identify, what a sweep can change for anyone, and
    what one device's knocks can change for another. */
module GrantLaws {
  import opened ByteStrings
  import opened Knock
  import opened Registries
  import opened GrantStores

  // ---- keys -----------------------------------------------------------------

  /** A hexadecimal SHA-256. */
  predicate IsHash(h: Bytes)
  {
    |h| == 64 && COLON !in h
  }

  /** Canonical addresses are at most 40 bytes long; what matters is that a hash is longer. */
  predicate IsAddress(ip: Bytes)
  {
    |ip| < 64
  }

  /** Whatever the service names, a device's key is never an address's key. */
  lemma CookieKeyIsNeverPlain(s1: Bytes, ip1: Bytes, h: Bytes, s2: Bytes, ip2: Bytes)
    requires IsHash(h) && IsAddress(ip2)
    ensures GrantKeyCookie(s1, ip1, h) != GrantKey(s2, ip2)
  {
    var k := GrantKeyCookie(s1, ip1, h);
    var n := |k|;
    assert k[n - 64..] == h;
    var plain := GrantKey(s2, ip2);
    if |plain| == n {
      var colon := n - |ip2| - 1;
      assert plain[n - 64..][colon - (n - 64)] == plain[colon] == COLON;
    }
  }

  /** Two devices' keys differ whenever their hashes do. */
  lemma CookieKeysDiffer(s1: Bytes, ip1: Bytes, h1: Bytes, s2: Bytes, ip2: Bytes, h2: Bytes)
    requires |h1| == |h2| && GrantKeyCookie(s1, ip1, h1) == GrantKeyCookie(s2, ip2, h2)
    ensures h1 == h2 && GrantKey(s1, ip1) == GrantKey(s2, ip2)
  {
    var k, n := GrantKeyCookie(s1, ip1, h1), |GrantKey(s1, ip1)|;
    assert k[n + 1..] == h1 && k[n + 1..] == h2;
    assert k[..n] == GrantKey(s1, ip1) && k[..n] == GrantKey(s2, ip2);
  }

  /** For colon-free services the plain key names its two parts. */
  lemma PlainKeyNames(s1: Bytes, ip1: Bytes, s2: Bytes, ip2: Bytes)
    requires COLON !in s1 && COLON !in s2 && GrantKey(s1, ip1) == GrantKey(s2, ip2)
    ensures s1 == s2 && ip1 == ip2
  {
    var p := |KeyPrefix()|;
    var rest := GrantKey(s1, ip1)[p..];
    assert rest == s1 + [COLON] + ip1 && rest == s2 + [COLON] + ip2;
    assert rest[..|s1|] == s1 && rest[..|s2|] == s2;
    IndexOfIs(rest, COLON, |s1|);
    IndexOfIs(rest, COLON, |s2|);
    assert rest[|s1| + 1..] == ip1 && rest[|s2| + 1..] == ip2;
  }

  // ---- the map the keys stand for -------------------------------------------

  /** What a record is filed under in the model the keys encode. */
  datatype Slot = Slot(service: Bytes, ip: Bytes, device: Option<Bytes>)

  type Slots = map<Slot, Grant>

  predicate WellFormed(s: Slot)
  {
    COLON !in s.service && IsAddress(s.ip) && (s.device.Some? ==> IsHash(s.device.value))
  }

  function KeyOf(s: Slot): Bytes
  {
    match s.device
    case None => GrantKey(s.service, s.ip)
    case Some(h) => GrantKeyCookie(s.service, s.ip, h)
  }

  function SlotOf(g: Grant): Slot
  {
    Slot(g.service, g.ip, if g.binding == ByIpCookie && g.cookieHash != [] then Some(g.cookieHash) else None)
  }

  lemma KeyNamesSlot(a: Slot, b: Slot)
    requires WellFormed(a) && WellFormed(b) && KeyOf(a) == KeyOf(b)
    ensures a == b
  {
    match (a.device, b.device)
    case (None, None) => PlainKeyNames(a.service, a.ip, b.service, b.ip);
    case (Some(h), Some(h')) =>
      CookieKeysDiffer(a.service, a.ip, h, b.service, b.ip, h');
      PlainKeyNames(a.service, a.ip, b.service, b.ip);
    case (Some(h), None) => CookieKeyIsNeverPlain(a.service, a.ip, h, b.service, b.ip);
    case (None, Some(h)) => CookieKeyIsNeverPlain(b.service, b.ip, h, a.service, a.ip);
  }

  /** The string-keyed map holds the slots' records under their keys, and nothing else. */
  ghost predicate Simulates(m: Grants, a: Slots)
  {
    && (forall s :: s in a ==> WellFormed(s) && SlotOf(a[s]) == s && KeyOf(s) in m && m[KeyOf(s)] == a[s])
    && (forall k :: k in m ==> WellFormed(SlotOf(m[k])) && KeyOf(SlotOf(m[k])) == k && SlotOf(m[k]) in a)
  }

  function PutSlot(a: Slots, g: Grant, olds: seq<Bytes>): Slots
  {
    (a - set oh | oh in olds && oh != [] && oh != g.cookieHash :: Slot(g.service, g.ip, Some(oh)))[SlotOf(g) := g]
  }

  function RevokeSlots(a: Slots, service: Bytes, ip: Bytes): Slots
  {
    map s | s in a && !(s.service == service && s.ip == ip) :: a[s]
  }

  function RevokeKidSlots(a: Slots, kid: Bytes): Slots
  {
    map s | s in a && a[s].kid != kid :: a[s]
  }

  function SweepSlots(a: Slots, now: int): Slots
  {
    map s | s in a && now < a[s].exp :: a[s]
  }

  function SlotCandidate(c: Crypto, a: Slots, service: Bytes, ip: Bytes, cookie: Bytes): Option<Grant>
    requires c.Valid()
  {
    var own, shared := Slot(service, ip, Some(c.HexDigest(cookie))), Slot(service, ip, None);
    if cookie != [] && own in a then Some(a[own]) else if shared in a then Some(a[shared]) else None
  }

  lemma InMap(m: Grants, a: Slots, s: Slot)
    requires Simulates(m, a) && WellFormed(s)
    ensures s in a <==> KeyOf(s) in m
    ensures s in a ==> m[KeyOf(s)] == a[s]
  {
    if KeyOf(s) in m {
      KeyNamesSlot(s, SlotOf(m[KeyOf(s)]));
    }
  }

  /** A Put files the record in its own slot and empties the retired devices' slots. */
  lemma PutSimulates(m: Grants, a: Slots, g: Grant, olds: seq<Bytes>)
    requires Simulates(m, a) && WellFormed(SlotOf(g))
    requires forall oh :: oh in olds && oh != [] ==> IsHash(oh)
    ensures Simulates(PutIn(m, g, olds), PutSlot(a, g, olds))
  {
    var m', a' := PutIn(m, g, olds), PutSlot(a, g, olds);
    var gone := set oh | oh in olds && oh != [] && oh != g.cookieHash :: Slot(g.service, g.ip, Some(oh));
    forall s | WellFormed(s) ensures s in gone <==> KeyOf(s) in RetiredKeys(g, olds) {
      if KeyOf(s) in RetiredKeys(g, olds) {
        var oh :| oh in olds && oh != [] && oh != g.cookieHash && GrantKeyCookie(g.service, g.ip, oh) == KeyOf(s);
        KeyNamesSlot(s, Slot(g.service, g.ip, Some(oh)));
      }
    }
    forall s | s in a'
      ensures WellFormed(s) && SlotOf(a'[s]) == s && KeyOf(s) in m' && m'[KeyOf(s)] == a'[s]
    {
      if s != SlotOf(g) && KeyOf(s) == KeyFor(g) {
        KeyNamesSlot(s, SlotOf(g));
      }
    }
    forall k | k in m'
      ensures WellFormed(SlotOf(m'[k])) && KeyOf(SlotOf(m'[k])) == k && SlotOf(m'[k]) in a'
    {
    }
  }

  /** The three removals commute with the encoding. */
  lemma RemovalsSimulate(m: Grants, a: Slots, service: Bytes, ip: Bytes, kid: Bytes, now: int)
    requires Simulates(m, a)
    ensures Simulates(RevokeIn(m, service, ip), RevokeSlots(a, service, ip))
    ensures Simulates(RevokeTokenIn(m, kid), RevokeKidSlots(a, kid))
    ensures Simulates(SweepIn(m, now), SweepSlots(a, now))
  {
  }

  /** A request is answered from its own slots. */
  lemma AllowedSimulates(c: Crypto, m: Grants, a: Slots, service: Bytes, ip: Bytes, cookie: Bytes)
    requires c.Valid() && Simulates(m, a) && COLON !in service && IsAddress(ip)
    ensures Candidate(c, m, service, ip, cookie) == SlotCandidate(c, a, service, ip, cookie)
  {
    InMap(m, a, Slot(service, ip, None));
    InMap(m, a, Slot(service, ip, Some(c.HexDigest(cookie))));
  }

  // ---- sweeping -------------------------------------------------------------

  /** An expired device record stands in front of a record that would be honoured without it. */
  predicate Shadowed(c: Crypto, m: Grants, sweep: int, service: Bytes, ip: Bytes, reg: Registry, now: int, cookie: Bytes)
    requires c.Valid()
  {
    var own, shared := GrantKeyCookie(service, ip, c.HexDigest(cookie)), GrantKey(service, ip);
    && cookie != [] && own in m && m[own].exp <= sweep
    && shared in m && Entitles(c, m[shared], service, ip, reg, now, cookie)
  }

  /** What a sweep changes for any request at the same or a later time: nothing, except that it
      uncovers a record an expired device record was shadowing. Access is never withdrawn. */
  lemma SweepOnlyUncovers(c: Crypto, m: Grants, sweep: int, service: Bytes, ip: Bytes, reg: Registry, now: int, cookie: Bytes)
    requires c.Valid() && sweep <= now
    ensures var before := Allowed(c, m, service, ip, reg, now, cookie);
            var after := Allowed(c, SweepIn(m, sweep), service, ip, reg, now, cookie);
            && (before.Some? ==> after == before)
            && (after != before <==> Shadowed(c, m, sweep, service, ip, reg, now, cookie))
            && (cookie == [] ==> after == before)
  {
  }

  // ---- devices --------------------------------------------------------------

  predicate DeviceBound(g: Grant)
  {
    g.binding == ByIpCookie && IsHash(g.cookieHash)
  }

  /** A device's Put leaves every other device's answer, and every answer without a cookie, as it was. */
  lemma PutIsPrivate(c: Crypto, m: Grants, g: Grant, held: Bytes, service: Bytes, ip: Bytes, reg: Registry, now: int, cookie: Bytes)
    requires c.Valid() && DeviceBound(g) && (held == [] || IsHash(held)) && IsAddress(ip)
    requires cookie != [] ==> c.HexDigest(cookie) != g.cookieHash && c.HexDigest(cookie) != held
    ensures Allowed(c, PutIn(m, g, [held]), service, ip, reg, now, cookie) == Allowed(c, m, service, ip, reg, now, cookie)
  {
    var m' := PutIn(m, g, [held]);
    var own, shared := GrantKeyCookie(service, ip, c.HexDigest(cookie)), GrantKey(service, ip);
    assert KeyFor(g) == GrantKeyCookie(g.service, g.ip, g.cookieHash);
    forall h | IsHash(h) ensures GrantKeyCookie(g.service, g.ip, h) != shared {
      CookieKeyIsNeverPlain(g.service, g.ip, h, service, ip);
    }
    if cookie != [] {
      if own == KeyFor(g) {
        CookieKeysDiffer(service, ip, c.HexDigest(cookie), g.service, g.ip, g.cookieHash);
      }
      if IsHash(held) && own == GrantKeyCookie(g.service, g.ip, held) {
        CookieKeysDiffer(service, ip, c.HexDigest(cookie), g.service, g.ip, held);
      }
    }
    assert shared in m' <==> shared in m;
    assert cookie != [] ==> (own in m' <==> own in m);
  }

  /** The record of a device's knock. */
  function Knocked(service: Bytes, ip: Bytes, base: Grant, h: Bytes): Grant
  {
    base.(service := service, ip := ip, binding := ByIpCookie, cookieHash := h)
  }

  /** A Put that retires at most one record. */
  lemma PutOne(m: Grants, g: Grant, h: Bytes)
    ensures var m' := PutIn(m, g, [h]);
            var gone := h != [] && h != g.cookieHash;
            && m'.Keys == (if gone then m.Keys - {GrantKeyCookie(g.service, g.ip, h)} else m.Keys) + {KeyFor(g)}
            && m'[KeyFor(g)] == g
            && forall k :: k in m' && k != KeyFor(g) ==> m'[k] == m[k]
  {
    var gone := h != [] && h != g.cookieHash;
    assert RetiredKeys(g, [h]) == if gone then {GrantKeyCookie(g.service, g.ip, h)} else {};
  }

  /** What happens to the store around one device: its own knocks, and everything else. */
  datatype StoreOp =
    | Knocks(base: Grant, hash: Bytes)
    | Puts(g: Grant, olds: seq<Bytes>)
    | Revokes(service: Bytes, ip: Bytes)
    | RevokesKid(kid: Bytes)
    | Sweeps(now: int)

  /** The device's latest knock, whose cookie it holds. */
  function Latest(ops: seq<StoreOp>): (r: Option<StoreOp>)
    ensures r.Some? ==> r.value.Knocks? && r.value in ops
  {
    if ops == [] then None
    else if ops[|ops| - 1].Knocks? then Some(ops[|ops| - 1])
    else Latest(ops[..|ops| - 1])
  }

  function HeldHash(ops: seq<StoreOp>): Bytes
  {
    match Latest(ops)
    case Some(Knocks(_, h)) => h
    case _ => []
  }

  function ApplyOther(m: Grants, op: StoreOp): Grants
  {
    match op
    case Knocks(_, _) => m
    case Puts(g, olds) => PutIn(m, g, olds)
    case Revokes(service, ip) => RevokeIn(m, service, ip)
    case RevokesKid(kid) => RevokeTokenIn(m, kid)
    case Sweeps(now) => SweepIn(m, now)
  }

  /** Each knock passes the hash of the one before it. */
  function AfterOps(m: Grants, service: Bytes, ip: Bytes, ops: seq<StoreOp>): Grants
  {
    if ops == [] then m
    else
      var front, op := ops[..|ops| - 1], ops[|ops| - 1];
      var m' := AfterOps(m, service, ip, front);
      if op.Knocks? then PutIn(m', Knocked(service, ip, op.base, op.hash), [HeldHash(front)]) else ApplyOther(m', op)
  }

  /** The same, had the device never knocked. */
  function WithoutDevice(m: Grants, ops: seq<StoreOp>): Grants
  {
    if ops == [] then m else ApplyOther(WithoutDevice(m, ops[..|ops| - 1]), ops[|ops| - 1])
  }

  /** The hashes are the device's own: its knocks carry them, and no one else's record does. */
  predicate OwnHashes(op: StoreOp, hashes: set<Bytes>)
  {
    match op
    case Knocks(_, h) => h in hashes
    case Puts(g, _) =>
      IsAddress(g.ip) && (g.binding == ByIpCookie && g.cookieHash != [] ==> IsHash(g.cookieHash) && g.cookieHash !in hashes)
    case _ => true
  }

  /** Nothing since the device's latest knock has removed its record. */
  predicate LatestSpared(service: Bytes, ip: Bytes, ops: seq<StoreOp>)
  {
    ops != [] &&
    var front, op := ops[..|ops| - 1], ops[|ops| - 1];
    match op
    case Knocks(_, _) => true
    case Puts(g, olds) => LatestSpared(service, ip, front) && GrantKeyCookie(service, ip, HeldHash(front)) !in RetiredKeys(g, olds)
    case Revokes(s, a) => LatestSpared(service, ip, front) && !(s == service && a == ip)
    case RevokesKid(kid) => LatestSpared(service, ip, front) && Latest(front).Some? && Latest(front).value.base.kid != kid
    case Sweeps(now) => LatestSpared(service, ip, front) && Latest(front).Some? && now < Latest(front).value.base.exp
  }

  predicate IsLatest(service: Bytes, ip: Bytes, ops: seq<StoreOp>, h: Bytes, g: Grant)
  {
    match Latest(ops)
    case Some(Knocks(base, last)) => h == last && g == Knocked(service, ip, base, last)
    case _ => false
  }

  lemma ForeignKey(op: StoreOp, service: Bytes, ip: Bytes, hashes: set<Bytes>, h: Bytes)
    requires op.Puts? && OwnHashes(op, hashes) && h in hashes && IsHash(h)
    ensures KeyFor(op.g) != GrantKeyCookie(service, ip, h)
  {
    if op.g.binding == ByIpCookie && op.g.cookieHash != [] {
      if KeyFor(op.g) == GrantKeyCookie(service, ip, h) {
        CookieKeysDiffer(op.g.service, op.g.ip, op.g.cookieHash, service, ip, h);
      }
    } else {
      CookieKeyIsNeverPlain(service, ip, h, op.g.service, op.g.ip);
    }
  }

  lemma OtherOp(m: Grants, service: Bytes, ip: Bytes, front: seq<StoreOp>, op: StoreOp, hashes: set<Bytes>, h: Bytes)
    requires !op.Knocks? && OwnHashes(op, hashes) && h in hashes && IsHash(h)
    requires var k := GrantKeyCookie(service, ip, h);
             && (k in m <==> LatestSpared(service, ip, front) && HeldHash(front) == h)
             && (k in m ==> IsLatest(service, ip, front, h, m[k]))
    ensures var (m', ops, k) := (ApplyOther(m, op), front + [op], GrantKeyCookie(service, ip, h));
            && (k in m' <==> LatestSpared(service, ip, ops) && HeldHash(ops) == h)
            && (k in m' ==> IsLatest(service, ip, ops, h, m'[k]))
  {
    assert (front + [op])[..|front|] == front;
    if op.Puts? {
      ForeignKey(op, service, ip, hashes, h);
    }
  }

  lemma OwnKnock(m: Grants, service: Bytes, ip: Bytes, front: seq<StoreOp>, op: StoreOp, h: Bytes)
    requires op.Knocks? && IsHash(h) && IsHash(op.hash)
    requires var k := GrantKeyCookie(service, ip, h); k in m ==> HeldHash(front) == h
    ensures var m' := PutIn(m, Knocked(service, ip, op.base, op.hash), [HeldHash(front)]);
            var (ops, k) := (front + [op], GrantKeyCookie(service, ip, h));
            && (k in m' <==> LatestSpared(service, ip, ops) && HeldHash(ops) == h)
            && (k in m' ==> IsLatest(service, ip, ops, h, m'[k]))
  {
    assert (front + [op])[..|front|] == front;
    var g := Knocked(service, ip, op.base, op.hash);
    PutOne(m, g, HeldHash(front));
    if GrantKeyCookie(service, ip, h) == KeyFor(g) {
      CookieKeysDiffer(service, ip, h, service, ip, op.hash);
    }
  }

  /** Whatever else happens to the store in between, a device holds one record at most: its latest knock's, there
      exactly until something removes it. */
  lemma {:induction false} OneRecordPerDevice(m: Grants, service: Bytes, ip: Bytes, ops: seq<StoreOp>, hashes: set<Bytes>, h: Bytes)
    requires forall x :: x in hashes ==> IsHash(x) && GrantKeyCookie(service, ip, x) !in m
    requires forall op :: op in ops ==> OwnHashes(op, hashes)
    requires h in hashes
    ensures var (m', k) := (AfterOps(m, service, ip, ops), GrantKeyCookie(service, ip, h));
            && (k in m' <==> LatestSpared(service, ip, ops) && HeldHash(ops) == h)
            && (k in m' ==> IsLatest(service, ip, ops, h, m'[k]))
  {
    if ops != [] {
      var front, op := ops[..|ops| - 1], ops[|ops| - 1];
      assert ops == front + [op] && op in ops;
      OneRecordPerDevice(m, service, ip, front, hashes, h);
      assert OwnHashes(op, hashes);
      if op.Knocks? {
        OwnKnock(AfterOps(m, service, ip, front), service, ip, front, op, h);
      } else {
        OtherOp(AfterOps(m, service, ip, front), service, ip, front, op, hashes, h);
      }
    }
  }

  predicate SameAt(a: Grants, b: Grants, k: Bytes)
  {
    (k in a <==> k in b) && (k in a ==> a[k] == b[k])
  }

  lemma HeldIsOwn(ops: seq<StoreOp>, hashes: set<Bytes>)
    requires forall op :: op in ops ==> OwnHashes(op, hashes)
    ensures HeldHash(ops) != [] ==> HeldHash(ops) in hashes
  {
    if Latest(ops).Some? {
      assert OwnHashes(Latest(ops).value, hashes);
    }
  }

  /** And its knocks change no other record: elsewhere the store is as if the device had never knocked. */
  lemma {:induction false} KnocksStayAtHome(m: Grants, service: Bytes, ip: Bytes, ops: seq<StoreOp>, hashes: set<Bytes>, k: Bytes)
    requires forall x :: x in hashes ==> IsHash(x)
    requires forall op :: op in ops ==> OwnHashes(op, hashes)
    requires forall x :: x in hashes ==> k != GrantKeyCookie(service, ip, x)
    ensures SameAt(AfterOps(m, service, ip, ops), WithoutDevice(m, ops), k)
  {
    if ops != [] {
      var front, op := ops[..|ops| - 1], ops[|ops| - 1];
      assert op in ops && OwnHashes(op, hashes);
      KnocksStayAtHome(m, service, ip, front, hashes, k);
      if op.Knocks? {
        HeldIsOwn(front, hashes);
        PutOne(AfterOps(m, service, ip, front), Knocked(service, ip, op.base, op.hash), HeldHash(front));
      }
    }
  }
}
