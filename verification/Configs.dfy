/** Configuration: authorizer/config.go. `finalize` rewrites the loaded object in place; Settings is
    the immutable view of it that requests hold. */
module Configs {
  import opened ByteStrings
  import opened Knock
  import opened Registries
  import opened GrantStores

  datatype ServiceConfig = ServiceConfig(tokens: seq<Bytes>, failureMode: Bytes, binding: Bytes, grantTtl: int)

  /** A token entry; its secret is what the base64url text decodes to, None if it does not decode. */
  datatype TokenConfig = TokenConfig(kid: Bytes, secret: Option<Bytes>, expires: int)

  datatype ConfigError = EmptyKid | DuplicateKid | SecretNotBase64 | SecretTooShort | NameCollision | BadMode

  // ---- canonical names ------------------------------------------------------

  /** How a configured name becomes the name services are filed under. */
  type Naming = Bytes -> Bytes

  /** No two configured names canonicalize alike. */
  predicate CollisionFree(canon: Naming, services: map<Bytes, ServiceConfig>)
  {
    forall a, b :: a in services && b in services && canon(a) == canon(b) ==> a == b
  }

  /** The same services, filed under their canonical names. */
  ghost predicate IsCanonicalForm(canon: Naming, filed: map<Bytes, ServiceConfig>, services: map<Bytes, ServiceConfig>)
  {
    && (forall n :: n in services ==> canon(n) in filed && filed[canon(n)] == services[n])
    && (forall c :: c in filed ==> exists n :: n in services && canon(n) == c)
  }

  /** Whatever order the map is walked in, there is one canonical form. */
  lemma CanonicalFormIsUnique(canon: Naming, a: map<Bytes, ServiceConfig>, b: map<Bytes, ServiceConfig>, services: map<Bytes, ServiceConfig>)
    requires IsCanonicalForm(canon, a, services) && IsCanonicalForm(canon, b, services)
    ensures a == b
  {
    forall c | c in a ensures c in b && a[c] == b[c] {
      var n :| n in services && canon(n) == c;
    }
    forall c | c in b ensures c in a {
      var n :| n in services && canon(n) == c;
    }
  }

  /** With a collision, what is filed under the shared name depends on the order of the walk. */
  lemma CollisionLeavesNoForm(canon: Naming, services: map<Bytes, ServiceConfig>, a: Bytes, b: Bytes, filed: map<Bytes, ServiceConfig>)
    requires a in services && b in services && canon(a) == canon(b) && services[a] != services[b]
    ensures !IsCanonicalForm(canon, filed, services)
  {
  }

  // ---- token and mode checks ------------------------------------------------

  function TokenFault(t: TokenConfig, seen: set<Bytes>): Option<ConfigError>
  {
    if t.kid == [] then Some(EmptyKid)
    else if t.kid in seen then Some(DuplicateKid)
    else
      match t.secret
      case None => Some(SecretNotBase64)
      case Some(s) => if |s| < 16 then Some(SecretTooShort) else None
  }

  function TokensFault(tokens: seq<TokenConfig>, seen: set<Bytes>): Option<ConfigError>
  {
    if tokens == [] then None
    else
      var f := TokenFault(tokens[0], seen);
      if f.Some? then f else TokensFault(tokens[1..], seen + {tokens[0].kid})
  }

  predicate GoodToken(t: TokenConfig)
  {
    t.kid != [] && t.secret.Some? && |t.secret.value| >= 16
  }

  predicate DistinctKids(tokens: seq<TokenConfig>)
  {
    forall i, j :: 0 <= i < j < |tokens| ==> tokens[i].kid != tokens[j].kid
  }

  /** The sequential check accepts exactly the lists of good tokens with distinct kids. */
  lemma {:induction false} TokensFaultMeans(tokens: seq<TokenConfig>, seen: set<Bytes>)
    ensures TokensFault(tokens, seen) == None
       <==> (forall i :: 0 <= i < |tokens| ==> GoodToken(tokens[i]) && tokens[i].kid !in seen) && DistinctKids(tokens)
  {
    if tokens != [] {
      var rest := tokens[1..];
      TokensFaultMeans(rest, seen + {tokens[0].kid});
      assert forall i :: 1 <= i < |tokens| ==> tokens[i] == rest[i - 1];
      assert forall i :: 0 <= i < |rest| ==> rest[i] == tokens[i + 1];
    }
  }

  function Interstitial(): Bytes { Ascii("interstitial") }

  function Stealth(): Bytes { Ascii("stealth") }

  function BindIp(): Bytes { Ascii("ip") }

  function BindIpCookie(): Bytes { Ascii("ip+cookie") }

  predicate GoodModes(s: ServiceConfig)
  {
    && (s.failureMode == [] || s.failureMode == Interstitial() || s.failureMode == Stealth())
    && (s.binding == [] || s.binding == BindIp() || s.binding == BindIpCookie())
  }

  // ---- the loaded object ----------------------------------------------------

  class Config {
    var services: map<Bytes, ServiceConfig>
    var tokens: seq<TokenConfig>
    var canonServices: map<Bytes, ServiceConfig>
    var ipv6Prefix: int
    var nonceTtl: int
    var grantTtl: int
    var enrollTtl: int

    constructor (services: map<Bytes, ServiceConfig>, tokens: seq<TokenConfig>, ipv6Prefix: int, nonceTtl: int, grantTtl: int, enrollTtl: int)
      ensures this.services == services && this.tokens == tokens && canonServices == map[]
      ensures this.ipv6Prefix == ipv6Prefix && this.nonceTtl == nonceTtl
      ensures this.grantTtl == grantTtl && this.enrollTtl == enrollTtl
    {
      this.services := services;
      this.tokens := tokens;
      canonServices := map[];
      this.ipv6Prefix := ipv6Prefix;
      this.nonceTtl := nonceTtl;
      this.grantTtl := grantTtl;
      this.enrollTtl := enrollTtl;
    }

    /** Defaults and clamps. */
    method ApplyDefaults()
      modifies this
      ensures services == old(services) && tokens == old(tokens) && canonServices == old(canonServices)
      ensures ipv6Prefix == if 1 <= old(ipv6Prefix) <= 128 then old(ipv6Prefix) else 128
      ensures nonceTtl == if old(nonceTtl) <= 0 then 60 else old(nonceTtl)
      ensures grantTtl == if old(grantTtl) <= 0 then 3600 else old(grantTtl)
      ensures old(enrollTtl) <= 0 ==> enrollTtl == 86400
      ensures 0 < old(enrollTtl) < 300 ==> enrollTtl == 300
      ensures 300 <= old(enrollTtl) <= 604800 ==> enrollTtl == old(enrollTtl)
      ensures 604800 < old(enrollTtl) ==> enrollTtl == 604800
    {
      if ipv6Prefix <= 0 || ipv6Prefix > 128 {
        ipv6Prefix := 128;
      }
      if nonceTtl <= 0 {
        nonceTtl := 60;
      }
      if grantTtl <= 0 {
        grantTtl := 3600;
      }
      if enrollTtl <= 0 {
        enrollTtl := 86400;
      }
      if enrollTtl < 300 {
        enrollTtl := 300;
      }
      if enrollTtl > 604800 {
        enrollTtl := 604800;
      }
    }

    /** Defaults, then every check; what is accepted is decided by the content alone, and the
        services end up filed under their canonical names. The source's naming is CanonServerName. */
    method Finalize(canon: Naming) returns (err: Option<ConfigError>)
      modifies this
      ensures services == old(services) && tokens == old(tokens)
      ensures ipv6Prefix == if 1 <= old(ipv6Prefix) <= 128 then old(ipv6Prefix) else 128
      ensures nonceTtl == if old(nonceTtl) <= 0 then 60 else old(nonceTtl)
      ensures grantTtl == if old(grantTtl) <= 0 then 3600 else old(grantTtl)
      ensures old(enrollTtl) <= 0 ==> enrollTtl == 86400
      ensures 0 < old(enrollTtl) < 300 ==> enrollTtl == 300
      ensures 300 <= old(enrollTtl) <= 604800 ==> enrollTtl == old(enrollTtl)
      ensures 604800 < old(enrollTtl) ==> enrollTtl == 604800
      ensures err == ConfigFault(canon, services, tokens)
      ensures err == None <==> Acceptable(canon, services, tokens)
      ensures err == None ==> IsCanonicalForm(canon, canonServices, services)
    {
      ApplyDefaults();
      AcceptsExactly(canon, services, tokens);
      var fault := CheckTokens(tokens);
      if fault.Some? {
        return fault;
      }
      var clash := FindCollision(canon, services);
      if clash {
        return Some(NameCollision);
      }
      canonServices := CanonicalForm(canon, services);
      var good := CheckModes(services);
      err := if good then None else Some(BadMode);
    }
  }

  /** What a configuration must be, written out: every token with a kid of its own and a decodable secret of at
      least 16 bytes, no two services under one canonical name, every mode one of those there are. */
  predicate Acceptable(canon: Naming, services: map<Bytes, ServiceConfig>, tokens: seq<TokenConfig>)
  {
    && (forall i :: 0 <= i < |tokens| ==> tokens[i].kid != [] && tokens[i].secret.Some? && |tokens[i].secret.value| >= 16)
    && (forall i, j :: 0 <= i < j < |tokens| ==> tokens[i].kid != tokens[j].kid)
    && (forall a, b :: a in services && b in services && a != b ==> canon(a) != canon(b))
    && (forall n :: n in services ==>
          && services[n].failureMode in {[], Ascii("interstitial"), Ascii("stealth")}
          && services[n].binding in {[], Ascii("ip"), Ascii("ip+cookie")})
  }

  lemma AcceptsExactly(canon: Naming, services: map<Bytes, ServiceConfig>, tokens: seq<TokenConfig>)
    ensures ConfigFault(canon, services, tokens) == None <==> Acceptable(canon, services, tokens)
  {
    TokensFaultMeans(tokens, {});
  }

  /** The first fault in the order the checks are made. */
  function ConfigFault(canon: Naming, services: map<Bytes, ServiceConfig>, tokens: seq<TokenConfig>): Option<ConfigError>
  {
    if TokensFault(tokens, {}).Some? then TokensFault(tokens, {})
    else if !CollisionFree(canon, services) then Some(NameCollision)
    else if exists n :: n in services && !GoodModes(services[n]) then Some(BadMode)
    else None
  }

  method CheckModes(services: map<Bytes, ServiceConfig>) returns (good: bool)
    ensures good <==> forall n :: n in services ==> GoodModes(services[n])
  {
    var todo := services.Keys;
    while todo != {}
      invariant todo <= services.Keys
      invariant forall n :: n in services && n !in todo ==> GoodModes(services[n])
      decreases todo
    {
      var n :| n in todo;
      todo := todo - {n};
      if !GoodModes(services[n]) {
        return false;
      }
    }
    good := true;
  }

  method CheckTokens(tokens: seq<TokenConfig>) returns (fault: Option<ConfigError>)
    ensures fault == TokensFault(tokens, {})
  {
    var seen: set<Bytes> := {};
    for i := 0 to |tokens|
      invariant TokensFault(tokens, {}) == TokensFault(tokens[i..], seen)
    {
      var f := TokenFault(tokens[i], seen);
      assert tokens[i..][1..] == tokens[i + 1..];
      if f.Some? {
        return f;
      }
      seen := seen + {tokens[i].kid};
    }
    fault := None;
  }

  method FindCollision(canon: Naming, services: map<Bytes, ServiceConfig>) returns (clash: bool)
    ensures clash <==> !CollisionFree(canon, services)
  {
    var byCanon: map<Bytes, Bytes> := map[];
    var todo := services.Keys;
    while todo != {}
      invariant todo <= services.Keys
      invariant forall n :: n in services && n !in todo ==> canon(n) in byCanon && byCanon[canon(n)] == n
      invariant forall c :: c in byCanon ==> byCanon[c] in services && byCanon[c] !in todo && canon(byCanon[c]) == c
      decreases todo
    {
      var name :| name in todo;
      todo := todo - {name};
      var c := canon(name);
      if c in byCanon {
        assert byCanon[c] != name;
        return true;
      }
      byCanon := byCanon[c := name];
    }
    clash := false;
  }

  method CanonicalForm(canon: Naming, services: map<Bytes, ServiceConfig>) returns (filed: map<Bytes, ServiceConfig>)
    requires CollisionFree(canon, services)
    ensures IsCanonicalForm(canon, filed, services)
  {
    filed := map[];
    var todo := services.Keys;
    while todo != {}
      invariant todo <= services.Keys
      invariant forall n :: n in services && n !in todo ==> canon(n) in filed && filed[canon(n)] == services[n]
      invariant forall c :: c in filed ==> exists n :: n in services && canon(n) == c
      decreases todo
    {
      var name :| name in todo;
      todo := todo - {name};
      filed := filed[canon(name) := services[name]];
    }
  }

  // ---- what requests hold ---------------------------------------------------

  datatype Settings = Settings(
    listen: Bytes, adminListen: Bytes, uriPrefix: Bytes,
    grantTtl: int, nonceTtl: I64, enrollTtl: int, v6Prefix: int,
    services: map<Bytes, ServiceConfig>, tokens: seq<TokenConfig>)

  const NO_SERVICE: ServiceConfig := ServiceConfig([], [], [], 0)

  function BindingOf(s: ServiceConfig): Binding
  {
    if s.binding == BindIpCookie() then ByIpCookie else ByIp
  }

  function GrantTtlOf(cfg: Settings, s: ServiceConfig): int
  {
    if s.grantTtl > 0 then s.grantTtl else cfg.grantTtl
  }

  function TokensOf(tokens: seq<TokenConfig>): Option<map<Bytes, Token>>
  {
    if tokens == [] then Some(map[])
    else
      var t := tokens[|tokens| - 1];
      match (TokensOf(tokens[..|tokens| - 1]), t.secret)
      case (Some(m), Some(s)) => Some(m[t.kid := Token(s, AlgHmacSha256(), t.expires)])
      case _ => None
  }

  /** The registry a configuration stands for; None if a secret does not decode. */
  function RegistryOf(cfg: Settings): Option<Registry>
  {
    match TokensOf(cfg.tokens)
    case None => None
    case Some(tokens) =>
      Some(Registry(tokens, map c | c in cfg.services :: set kid | kid in cfg.services[c].tokens))
  }

  method BuildRegistry(cfg: Settings) returns (r: Option<Registry>)
    ensures r == RegistryOf(cfg)
  {
    var tokens: map<Bytes, Token> := map[];
    for i := 0 to |cfg.tokens|
      invariant TokensOf(cfg.tokens[..i]) == Some(tokens)
    {
      var t := cfg.tokens[i];
      assert cfg.tokens[..i + 1][..i] == cfg.tokens[..i];
      var secret := t.secret;
      if secret.None? {
        assert TokensOf(cfg.tokens[..i + 1]) == None;
        BadSecretStays(cfg.tokens, i + 1);
        return None;
      }
      tokens := tokens[t.kid := Token(secret.value, AlgHmacSha256(), t.expires)];
    }
    assert cfg.tokens[..|cfg.tokens|] == cfg.tokens;
    var services: map<Bytes, set<Bytes>> := map[];
    var todo := cfg.services.Keys;
    while todo != {}
      invariant todo <= cfg.services.Keys && services.Keys == cfg.services.Keys - todo
      invariant forall c :: c in services ==> services[c] == set kid | kid in cfg.services[c].tokens
      decreases todo
    {
      var canon :| canon in todo;
      todo := todo - {canon};
      services := services[canon := set kid | kid in cfg.services[canon].tokens];
    }
    assert services == map c | c in cfg.services :: set kid | kid in cfg.services[c].tokens;
    r := Some(Registry(tokens, services));
  }

  lemma {:induction false} BadSecretStays(tokens: seq<TokenConfig>, n: nat)
    requires n <= |tokens| && TokensOf(tokens[..n]) == None
    ensures TokensOf(tokens) == None
    decreases |tokens|
  {
    if n < |tokens| {
      assert tokens[..|tokens| - 1][..n] == tokens[..n];
      BadSecretStays(tokens[..|tokens| - 1], n);
    } else {
      assert tokens[..n] == tokens;
    }
  }

  lemma {:induction false} TokensOfGood(tokens: seq<TokenConfig>)
    requires DistinctKids(tokens) && forall i :: 0 <= i < |tokens| ==> GoodToken(tokens[i])
    ensures TokensOf(tokens).Some?
    ensures var m := TokensOf(tokens).value;
            && (forall i :: 0 <= i < |tokens| ==> Filed(m, tokens[i]))
            && (forall kid :: kid in m ==> exists i :: 0 <= i < |tokens| && tokens[i].kid == kid)
  {
    if tokens != [] {
      var n := |tokens| - 1;
      TokensOfGood(tokens[..n]);
      var m, before := TokensOf(tokens).value, TokensOf(tokens[..n]).value;
      forall i | 0 <= i < |tokens| ensures Filed(m, tokens[i]) {
        if i < n {
          assert Filed(before, tokens[..n][i]);
        }
      }
      forall kid | kid in m ensures exists i :: 0 <= i < |tokens| && tokens[i].kid == kid {
        if kid == tokens[n].kid {
        } else {
          var i :| 0 <= i < |tokens[..n]| && tokens[..n][i].kid == kid;
          assert tokens[i].kid == kid;
        }
      }
    }
  }

  predicate Filed(m: map<Bytes, Token>, t: TokenConfig)
  {
    t.secret.Some? && t.kid in m && m[t.kid] == Token(t.secret.value, AlgHmacSha256(), t.expires)
  }

  /** A configuration that finalize accepts yields a registry that says exactly what it says: each
      token under its kid, and for each configured name the kids of its own allow-list. */
  lemma RegistrySaysTheConfig(canon: Naming, cfg: Settings, services: map<Bytes, ServiceConfig>, name: Bytes, kid: Bytes)
    requires TokensFault(cfg.tokens, {}) == None && IsCanonicalForm(canon, cfg.services, services) && name in services
    ensures RegistryOf(cfg).Some?
    ensures var r := RegistryOf(cfg).value;
            && (forall i :: 0 <= i < |cfg.tokens| ==> Filed(r.tokens, cfg.tokens[i]))
            && (kid in r.tokens <==> exists i :: 0 <= i < |cfg.tokens| && cfg.tokens[i].kid == kid)
            && (AllowedForService(r, kid, canon(name)) <==> kid in services[name].tokens || WILDCARD in services[name].tokens)
  {
    TokensFaultMeans(cfg.tokens, {});
    TokensOfGood(cfg.tokens);
    assert canon(name) in cfg.services;
  }
}
