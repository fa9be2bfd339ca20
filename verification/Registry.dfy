/** The token registry: core/go/registry.go. */
module Registries {
  import opened ByteStrings
  import opened Knock

  datatype Token = Token(secret: Bytes, alg: Bytes, expires: int)

  /** Allow-lists are the kids mapped to true. */
  datatype Registry = Registry(tokens: map<Bytes, Token>, services: map<Bytes, set<Bytes>>)

  datatype AuthError = UnknownKid | BadAlg | TokenExpired | NotAllowed

  function AlgHmacSha256(): Bytes
  {
    Ascii("HMAC-SHA256")
  }

  /** "*" names any service as a key and any kid as an entry. */
  const WILDCARD: Bytes := ['*' as int]

  function Lookup(r: Registry, kid: Bytes): Option<Token>
  {
    if kid in r.tokens then Some(r.tokens[kid]) else None
  }

  predicate IsExpired(t: Token, now: int)
  {
    t.expires != 0 && now >= t.expires
  }

  function Fingerprint(c: Crypto, t: Option<Token>): Bytes
    requires c.Valid()
  {
    match t
    case None => []
    case Some(tok) => c.HexDigest(tok.secret)
  }

  function AllowKey(r: Registry, service: Bytes): Bytes
  {
    if service in r.services then service
    else if WILDCARD in r.services && |r.services| == 1 then WILDCARD
    else service
  }

  /** The kid is on the list of the service, or the list has "*"; a registry whose one list is under "*" gives
      it to every service. */
  predicate Listed(r: Registry, kid: Bytes, service: Bytes)
  {
    var any := Ascii("*");
    || (service in r.services && (kid in r.services[service] || any in r.services[service]))
    || (r.services.Keys == {any} && (kid in r.services[any] || any in r.services[any]))
  }

  predicate AllowedForService(r: Registry, kid: Bytes, service: Bytes): (allowed: bool)
    ensures allowed <==> Listed(r, kid, service)
  {
    OneKey(r.services, WILDCARD);
    assert Ascii("*") == WILDCARD;
    var key := AllowKey(r, service);
    key in r.services && (WILDCARD in r.services[key] || kid in r.services[key])
  }

  lemma OneKey<T>(m: map<Bytes, T>, key: Bytes)
    ensures key in m && |m| == 1 <==> m.Keys == {key}
  {
    assert |m| == |m.Keys|;
    if key in m && |m| == 1 {
      OnlyMember(m.Keys, key);
    }
  }

  function Authorize(r: Registry, kid: Bytes, service: Bytes, now: int): Result<Token, AuthError>
  {
    match Lookup(r, kid)
    case None => Err(UnknownKid)
    case Some(t) =>
      if t.alg != AlgHmacSha256() then Err(BadAlg)
      else if IsExpired(t, now) then Err(TokenExpired)
      else if !AllowedForService(r, kid, service) then Err(NotAllowed)
      else Ok(t)
  }

  /** The policy, written out: registered, under the one algorithm, with no expiry or before it, and listed. */
  predicate InGoodStanding(r: Registry, kid: Bytes, service: Bytes, now: int)
  {
    && kid in r.tokens
    && r.tokens[kid].alg == Ascii("HMAC-SHA256")
    && (r.tokens[kid].expires == 0 || now < r.tokens[kid].expires)
    && Listed(r, kid, service)
  }

  /** Authorize follows the policy, and otherwise names the first thing that fails it. */
  lemma AuthorizesExactly(r: Registry, kid: Bytes, service: Bytes, now: int)
    ensures Authorize(r, kid, service, now).Ok? <==> InGoodStanding(r, kid, service, now)
    ensures Authorize(r, kid, service, now).Ok? ==> Authorize(r, kid, service, now).value == r.tokens[kid]
    ensures Authorize(r, kid, service, now) == Err(UnknownKid) <==> kid !in r.tokens
    ensures Authorize(r, kid, service, now) == Err(BadAlg) <==> kid in r.tokens && r.tokens[kid].alg != Ascii("HMAC-SHA256")
    ensures Authorize(r, kid, service, now) == Err(TokenExpired)
       <==> kid in r.tokens && r.tokens[kid].alg == Ascii("HMAC-SHA256") && 0 != r.tokens[kid].expires <= now
  {
  }

  /** A registry with one allow-list under "*" gives every service that list; any other never falls back to it. */
  lemma SiteScopedRegistry(r: Registry, kid: Bytes, service: Bytes)
    ensures r.services.Keys == {WILDCARD} ==>
              (AllowedForService(r, kid, service) <==> {WILDCARD, kid} * r.services[WILDCARD] != {})
    ensures r.services.Keys != {WILDCARD} && service !in r.services ==> !AllowedForService(r, kid, service)
  {
    if r.services.Keys == {WILDCARD} {
      assert |r.services| == |r.services.Keys| == 1;
      var allow := r.services[WILDCARD];
      assert WILDCARD in allow ==> WILDCARD in {WILDCARD, kid} * allow;
      assert kid in allow ==> kid in {WILDCARD, kid} * allow;
    } else if WILDCARD in r.services && |r.services| == 1 {
      OnlyMember(r.services.Keys, WILDCARD);
    }
  }

  lemma OnlyMember(s: set<Bytes>, x: Bytes)
    requires x in s && |s| == 1
    ensures s == {x}
  {
    assert |s - {x}| == 0;
    assert s == {x} + (s - {x});
  }
}
