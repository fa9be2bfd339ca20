/** The grant store: core/go/store.go. The class works in place as the source does; each of its
    methods is specified by a function on the grant map, about which the laws are proved elsewhere. */
module GrantStores {
  import opened ByteStrings
  import opened Knock
  import opened Registries

  datatype Binding = ByIp | ByIpCookie

  datatype Grant = Grant(
    kid: Bytes, service: Bytes, ip: Bytes, binding: Binding, cookieHash: Bytes,
    issued: int, exp: int, manual: bool, secretFp: Bytes)

  type Grants = map<Bytes, Grant>

  // ---- keys -----------------------------------------------------------------

  function KeyPrefix(): Bytes
  {
    Ascii("jit:grant:")
  }

  function GrantKey(service: Bytes, ip: Bytes): Bytes
  {
    KeyPrefix() + service + [COLON] + ip
  }

  function GrantKeyCookie(service: Bytes, ip: Bytes, cookieHash: Bytes): Bytes
  {
    GrantKey(service, ip) + [COLON] + cookieHash
  }

  function KeyFor(g: Grant): Bytes
  {
    if g.binding == ByIpCookie && g.cookieHash != [] then GrantKeyCookie(g.service, g.ip, g.cookieHash)
    else GrantKey(g.service, g.ip)
  }

  // ---- what each operation does to the map ----------------------------------

  /** Keys of the records a Put retires: the device's earlier cookies. */
  function RetiredKeys(g: Grant, olds: seq<Bytes>): set<Bytes>
  {
    set oh | oh in olds && oh != [] && oh != g.cookieHash :: GrantKeyCookie(g.service, g.ip, oh)
  }

  function PutIn(m: Grants, g: Grant, olds: seq<Bytes>): Grants
  {
    (m - RetiredKeys(g, olds))[KeyFor(g) := g]
  }

  function RevokeIn(m: Grants, service: Bytes, ip: Bytes): Grants
  {
    map k | k in m && !(m[k].service == service && m[k].ip == ip) :: m[k]
  }

  function RevokeTokenIn(m: Grants, kid: Bytes): Grants
  {
    map k | k in m && m[k].kid != kid :: m[k]
  }

  function SweepIn(m: Grants, now: int): Grants
  {
    map k | k in m && now < m[k].exp :: m[k]
  }

  /** The record the request is checked against: the device's own first, the address's otherwise. */
  function Candidate(c: Crypto, m: Grants, service: Bytes, ip: Bytes, cookie: Bytes): Option<Grant>
    requires c.Valid()
  {
    var own := GrantKeyCookie(service, ip, c.HexDigest(cookie));
    if cookie != [] && own in m then Some(m[own])
    else if GrantKey(service, ip) in m then Some(m[GrantKey(service, ip)])
    else None
  }

  /** The re-check of the token behind a record. */
  predicate TokenStillGood(c: Crypto, g: Grant, service: Bytes, reg: Registry, now: int)
    requires c.Valid()
  {
    match Lookup(reg, g.kid)
    case None => false
    case Some(t) =>
      && t.alg == AlgHmacSha256()
      && !IsExpired(t, now)
      && AllowedForService(reg, g.kid, service)
      && g.secretFp == Fingerprint(c, Some(t))
  }

  predicate CookieMatches(c: Crypto, g: Grant, cookie: Bytes)
    requires c.Valid()
  {
    g.binding == ByIpCookie ==> cookie != [] && g.cookieHash != [] && c.HexDigest(cookie) == g.cookieHash
  }

  predicate Honoured(c: Crypto, g: Grant, service: Bytes, ip: Bytes, reg: Registry, now: int, cookie: Bytes)
    requires c.Valid()
  {
    && now < g.exp
    && g.service == service && g.ip == ip
    && (g.manual || TokenStillGood(c, g, service, reg, now))
    && CookieMatches(c, g, cookie)
  }

  /** What entitles a request to pass on g, written out: its own service and address, before the expiry; unless
      the grant is an administrator's own, a kid in good standing that still holds the secret it was minted
      under; and, for a device's grant, the device's cookie. */
  predicate Entitles(c: Crypto, g: Grant, service: Bytes, ip: Bytes, reg: Registry, now: int, cookie: Bytes)
    requires c.Valid()
  {
    && g.service == service && g.ip == ip && now < g.exp
    && (!g.manual ==> InGoodStanding(reg, g.kid, service, now) && g.secretFp == Hex(c.sha256(reg.tokens[g.kid].secret)))
    && (g.binding == ByIpCookie ==> cookie != [] && g.cookieHash != [] && g.cookieHash == Hex(c.sha256(cookie)))
  }

  lemma HonouredIsEntitled(c: Crypto, g: Grant, service: Bytes, ip: Bytes, reg: Registry, now: int, cookie: Bytes)
    requires c.Valid()
    ensures Honoured(c, g, service, ip, reg, now, cookie) <==> Entitles(c, g, service, ip, reg, now, cookie)
  {
  }

  function Allowed(c: Crypto, m: Grants, service: Bytes, ip: Bytes, reg: Registry, now: int, cookie: Bytes): (r: Option<Grant>)
    requires c.Valid()
    ensures r.Some? ==> r.value in m.Values && Entitles(c, r.value, service, ip, reg, now, cookie)
    ensures forall g :: Candidate(c, m, service, ip, cookie) == Some(g) && Entitles(c, g, service, ip, reg, now, cookie) ==> r == Some(g)
  {
    match Candidate(c, m, service, ip, cookie)
    case None => None
    case Some(g) => if Honoured(c, g, service, ip, reg, now, cookie) then Some(g) else None
  }

  // ---- the kid index --------------------------------------------------------

  type Index = map<Bytes, set<Bytes>>

  function KeysOf(m: Grants, kid: Bytes): set<Bytes>
  {
    set k | k in m && m[k].kid == kid
  }

  /** byKid[kid] is exactly the non-empty set of keys whose grant carries kid. */
  ghost predicate Indexed(byKid: Index, m: Grants)
  {
    forall kid :: if KeysOf(m, kid) == {} then kid !in byKid else kid in byKid && byKid[kid] == KeysOf(m, kid)
  }

  function Unindex(byKid: Index, kid: Bytes, key: Bytes): Index
  {
    if kid !in byKid then byKid
    else if byKid[kid] - {key} == {} then byKid - {kid}
    else byKid[kid := byKid[kid] - {key}]
  }

  function AddIndex(byKid: Index, kid: Bytes, key: Bytes): Index
  {
    byKid[kid := (if kid in byKid then byKid[kid] else {}) + {key}]
  }

  lemma UnindexTracksDelete(byKid: Index, m: Grants, key: Bytes)
    requires Indexed(byKid, m) && key in m
    ensures Indexed(Unindex(byKid, m[key].kid, key), m - {key})
  {
    var m' := m - {key};
    forall kid ensures KeysOf(m', kid) == if kid == m[key].kid then KeysOf(m, kid) - {key} else KeysOf(m, kid) {
    }
    assert key in KeysOf(m, m[key].kid);
  }

  lemma AddIndexTracksInsert(byKid: Index, m: Grants, key: Bytes, g: Grant)
    requires Indexed(byKid, m) && key !in m
    ensures Indexed(AddIndex(byKid, g.kid, key), m[key := g])
  {
    var m' := m[key := g];
    forall kid ensures KeysOf(m', kid) == if kid == g.kid then KeysOf(m, kid) + {key} else KeysOf(m, kid) {
    }
  }

  lemma DroppingKidKeepsIndex(byKid: Index, m: Grants, kid: Bytes)
    requires Indexed(byKid, m)
    ensures Indexed(byKid - {kid}, RevokeTokenIn(m, kid))
  {
    var m' := RevokeTokenIn(m, kid);
    forall k ensures KeysOf(m', k) == if k == kid then {} else KeysOf(m, k) {
    }
  }

  lemma RetireOne(g: Grant, olds: seq<Bytes>, i: nat)
    requires i < |olds|
    ensures RetiredKeys(g, olds[..i + 1])
         == RetiredKeys(g, olds[..i])
            + if olds[i] == [] || olds[i] == g.cookieHash then {} else {GrantKeyCookie(g.service, g.ip, olds[i])}
  {
    assert olds[..i + 1] == olds[..i] + [olds[i]];
  }

  lemma OneMoreGone(m: Grants, kid: Bytes, gone: set<Bytes>, k: Bytes)
    requires k in KeysOf(m, kid) && k !in gone
    ensures k in m - gone
    ensures (m - gone) - {k} == m - (gone + {k})
    ensures |gone + {k}| == |gone| + 1
  {
  }

  lemma AllGone(m: Grants, kid: Bytes)
    ensures m - KeysOf(m, kid) == RevokeTokenIn(m, kid)
  {
  }

  // ---- the store ------------------------------------------------------------

  class GrantStore {
    var grants: Grants
    var byKid: Index

    ghost predicate Valid()
      reads this
    {
      Indexed(byKid, grants)
    }

    constructor ()
      ensures Valid() && grants == map[] && byKid == map[]
    {
      grants := map[];
      byKid := map[];
    }

    method UnindexLocked(kid: Bytes, key: Bytes)
      modifies this`byKid
      ensures byKid == Unindex(old(byKid), kid, key)
    {
      if kid in byKid {
        byKid := byKid[kid := byKid[kid] - {key}];
        if byKid[kid] == {} {
          byKid := byKid - {kid};
        }
      }
    }

    method Put(g: Grant, olds: seq<Bytes>)
      requires Valid()
      modifies this
      ensures Valid() && grants == PutIn(old(grants), g, olds)
    {
      ghost var m := grants;
      for i := 0 to |olds|
        invariant Valid() && grants == m - RetiredKeys(g, olds[..i])
      {
        var oh := olds[i];
        RetireOne(g, olds, i);
        if oh == [] || oh == g.cookieHash {
          continue;
        }
        RetireLocked(GrantKeyCookie(g.service, g.ip, oh));
      }
      assert olds[..|olds|] == olds;
      InsertLocked(KeyFor(g), g);
    }

    method RetireLocked(ok: Bytes)
      requires Valid()
      modifies this
      ensures Valid() && grants == old(grants) - {ok}
    {
      if ok in grants {
        UnindexTracksDelete(byKid, grants, ok);
        UnindexLocked(grants[ok].kid, ok);
        grants := grants - {ok};
      }
    }

    method InsertLocked(k: Bytes, g: Grant)
      requires Valid()
      modifies this
      ensures Valid() && grants == old(grants)[k := g]
    {
      ghost var rest := grants - {k};
      if k in grants {
        UnindexTracksDelete(byKid, grants, k);
        UnindexLocked(grants[k].kid, k);
      } else {
        assert rest == grants;
      }
      AddIndexTracksInsert(byKid, rest, k, g);
      assert rest[k := g] == grants[k := g];
      grants := grants[k := g];
      if g.kid !in byKid {
        byKid := byKid[g.kid := {}];
      }
      byKid := byKid[g.kid := byKid[g.kid] + {k}];
    }

    method IsAllowed(c: Crypto, service: Bytes, ip: Bytes, reg: Registry, now: int, cookie: Bytes) returns (r: Option<Grant>)
      requires c.Valid() && Valid()
      ensures r == Allowed(c, grants, service, ip, reg, now, cookie)
      ensures r.Some? ==> r.value in grants.Values && Entitles(c, r.value, service, ip, reg, now, cookie)
      ensures forall g :: Candidate(c, grants, service, ip, cookie) == Some(g) && Entitles(c, g, service, ip, reg, now, cookie) ==> r == Some(g)
    {
      var found: Option<Grant> := None;
      if cookie != [] {
        var own := GrantKeyCookie(service, ip, c.HexDigest(cookie));
        if own in grants {
          found := Some(grants[own]);
        }
      }
      if found.None? && GrantKey(service, ip) in grants {
        found := Some(grants[GrantKey(service, ip)]);
      }
      if found.None? || now >= found.value.exp {
        return None;
      }
      var g := found.value;
      if g.service != service || g.ip != ip {
        return None;
      }
      if !g.manual {
        var t := Lookup(reg, g.kid);
        if t.None? || t.value.alg != AlgHmacSha256() || IsExpired(t.value, now) {
          return None;
        }
        if !AllowedForService(reg, g.kid, service) {
          return None;
        }
        if g.secretFp != Fingerprint(c, t) {
          return None;
        }
      }
      if g.binding == ByIpCookie {
        if cookie == [] || g.cookieHash == [] {
          return None;
        }
        if c.HexDigest(cookie) != g.cookieHash {
          return None;
        }
      }
      r := Some(g);
    }

    /** Every record of (service, ip) goes, and no other, in whatever order the map is walked. */
    method Revoke(service: Bytes, ip: Bytes) returns (removed: bool)
      requires Valid()
      modifies this
      ensures Valid() && grants == RevokeIn(old(grants), service, ip)
      ensures forall k :: (k in grants <==> k in old(grants) && !(old(grants)[k].service == service && old(grants)[k].ip == ip))
                          && (k in grants ==> grants[k] == old(grants)[k])
      ensures removed <==> exists k :: k in old(grants) && old(grants)[k].service == service && old(grants)[k].ip == ip
    {
      removed := false;
      ghost var m := grants;
      var todo := grants.Keys;
      while todo != {}
        invariant Valid() && todo <= grants.Keys <= m.Keys
        invariant forall k :: k in grants ==> grants[k] == m[k]
        invariant forall k :: k in m && k !in grants ==> m[k].service == service && m[k].ip == ip
        invariant forall k :: k in grants && k !in todo ==> !(m[k].service == service && m[k].ip == ip)
        invariant removed <==> grants != m
        decreases todo
      {
        var k :| k in todo;
        todo := todo - {k};
        var g := grants[k];
        if g.service == service && g.ip == ip {
          UnindexTracksDelete(byKid, grants, k);
          UnindexLocked(g.kid, k);
          grants := grants - {k};
          removed := true;
          assert k in m && k !in grants;
        }
      }
      assert grants == RevokeIn(m, service, ip);
      if exists k :: k in m && m[k].service == service && m[k].ip == ip {
        var k :| k in m && m[k].service == service && m[k].ip == ip;
        assert k !in grants;
      }
      if removed {
        assert grants.Keys != m.Keys;
      }
    }

    /** All and only the kid's grants go, and n is their exact number. */
    method RevokeToken(kid: Bytes) returns (n: nat)
      requires Valid()
      modifies this
      ensures Valid() && grants == RevokeTokenIn(old(grants), kid)
      ensures forall k :: (k in grants <==> k in old(grants) && old(grants)[k].kid != kid) && (k in grants ==> grants[k] == old(grants)[k])
      ensures n == |KeysOf(old(grants), kid)|
    {
      ghost var m := grants;
      var todo := if kid in byKid then byKid[kid] else {};
      ghost var gone: set<Bytes> := {};
      n := 0;
      while todo != {}
        invariant byKid == old(byKid)
        invariant gone !! todo && gone + todo == KeysOf(m, kid)
        invariant grants == m - gone
        invariant n == |gone|
        decreases todo
      {
        var k :| k in todo;
        OneMoreGone(m, kid, gone, k);
        todo := todo - {k};
        gone := gone + {k};
        if k in grants {
          grants := grants - {k};
          n := n + 1;
        }
      }
      AllGone(m, kid);
      DroppingKidKeepsIndex(byKid, m, kid);
      byKid := byKid - {kid};
    }

    method Sweep(now: int) returns (n: nat)
      requires Valid()
      modifies this
      ensures Valid() && grants == SweepIn(old(grants), now)
      ensures forall k :: (k in grants <==> k in old(grants) && now < old(grants)[k].exp) && (k in grants ==> grants[k] == old(grants)[k])
      ensures n == |old(grants)| - |grants|
    {
      n := 0;
      ghost var m := grants;
      var todo := grants.Keys;
      while todo != {}
        invariant Valid() && todo <= grants.Keys <= m.Keys
        invariant forall k :: k in grants ==> grants[k] == m[k]
        invariant forall k :: k in m && k !in grants ==> now >= m[k].exp
        invariant forall k :: k in grants && k !in todo ==> now < m[k].exp
        invariant n == |m| - |grants|
        decreases todo
      {
        var k :| k in todo;
        todo := todo - {k};
        var g := grants[k];
        if now >= g.exp {
          UnindexTracksDelete(byKid, grants, k);
          UnindexLocked(g.kid, k);
          assert (grants - {k}).Keys == grants.Keys - {k};
          grants := grants - {k};
          n := n + 1;
        }
      }
      assert grants == SweepIn(m, now);
    }
  }
}
