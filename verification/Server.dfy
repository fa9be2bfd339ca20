/** The Authorizer's handlers over its three stores: authorizer/server.go and authorizer/admin.go. Each is
    proved to do, when nothing comes between, what the machine's steps do to the state it stands for. */
module Servers {
  import opened ByteStrings
  import opened Knock
  import opened Registries
  import opened GrantStores
  import opened SingleUseStores
  import opened Configs
  import opened Gate
  import opened GateInvariant
  import opened GateTheorems
  import opened Handlers
  import opened HonestKnock

  class Server {
    const env: Env
    const grants: GrantStore
    const nonces: NonceStore
    const codes: EnrollStore
    var cfg: Settings
    var reg: Registry
    var clock: I64
    /** Requests of others under way, and the record of the run: both only for the proof. */
    ghost var inflight: map<Rid, Pc>
    ghost var log: Log

    /** The kid index is exact, and the state satisfies the machine's invariant, as every state it reaches does. */
    ghost predicate Valid()
      reads this, grants, nonces, codes
    {
      env.Valid() && env.IssuesFresh() && grants.Valid() && Inv(env, View())
    }

    /** The state of the machine this object stands for. */
    ghost function View(): State
      reads this, grants, nonces, codes
    {
      State(clock, cfg, reg, grants.grants, nonces.spent, codes.codes, inflight, log)
    }

    constructor (env: Env, cfg: Settings, reg: Registry, clock: I64)
      requires env.Valid() && env.IssuesFresh()
      ensures Valid() && this.env == env && View() == Init(cfg, reg, clock)
      ensures fresh(grants) && fresh(nonces) && fresh(codes)
    {
      this.env := env;
      this.grants := new GrantStore();
      this.nonces := new NonceStore();
      this.codes := new EnrollStore();
      this.cfg := cfg;
      this.reg := reg;
      this.clock := clock;
      this.inflight := map[];
      this.log := [Reloaded(cfg, reg)];
      new;
      InitHolds(env, cfg, reg, clock);
    }

    /** resolve(): what the proxy boundary made of the request, looked up in the configuration. */
    method Resolve(seen: Option<Seen>) returns (c: Option<Ctx>)
      ensures c == if Usable(seen) then Some(Resolved(cfg, seen.value)) else None
    {
      if seen.None? || seen.value.service == [] || seen.value.ip == [] {
        return None;
      }
      var name := seen.value.service;
      if name in cfg.services {
        c := Some(Ctx(name, seen.value.ip, seen.value.uri, cfg.services[name], true));
      } else {
        c := Some(Ctx(name, seen.value.ip, seen.value.uri, NO_SERVICE, false));
      }
    }

    /** handleChallenge: a nonce is handed out exactly for a configured service, asked for rightly, when there
        is randomness and the address canonicalizes; it will be accepted for this service and address
        exactly while 0 <= now - ts < ttl. Nothing changes. */
    method HandleChallenge(seen: Option<Seen>, get: bool, withinRate: bool, random: Option<Bytes>) returns (nonce: Option<Bytes>)
      requires Valid()
      ensures nonce == ChallengeOutcome(env, View(), seen, get, withinRate, random)
      ensures nonce.Some? <==>
                && seen.Some? && seen.value.service in cfg.services && seen.value.service != [] && seen.value.ip != []
                && get && withinRate && random.Some?
                && env.issue(ToU64(clock), random.value, seen.value.service, seen.value.ip, cfg.v6Prefix).Some?
      ensures nonce.Some? && Small(seen.value.service) ==>
                forall now: I64, ttl: I64 ::
                  env.nonceOk(nonce.value, seen.value.service, seen.value.ip, now, ttl, cfg.v6Prefix) <==> Fresh(ToU64(clock), now, ttl)
    {
      var resolved := Resolve(seen);
      if resolved.None? || !resolved.value.known || !get {
        return None;
      }
      var c, conf := resolved.value, cfg;
      if !withinRate || random.None? {
        return None;
      }
      var ts := clock;
      nonce := env.issue(ToU64(ts), random.value, c.service, c.ip, conf.v6Prefix);
    }

    /** handleRespond; ok is the 204, and then the grant minted says what the knock proved. */
    method HandleRespond(k: KnockInput) returns (ok: bool)
      requires Valid()
      modifies this`log, grants, nonces
      ensures Valid() && View() == RespondOutcome(env, old(View()), k)
      ensures ok <==> log != old(log) && log[|log| - 1].Granted?
      ensures ok ==> MintedByKnock(env, log, |log| - 1)
      ensures ok <==> Sound(env, old(View()), k) && CanMint(old(View()), k)
      ensures ok ==> log[|log| - 1].grant == Earned(env, old(View()), k)
      ensures !ok ==> grants.grants == old(grants.grants)
      ensures nonces.spent != old(nonces.spent) <==> Sound(env, old(View()), k)
    {
      ghost var s := View();
      ok := Check(k);
      RespondMeans(env, s, View(), k);
    }

    /** The body of handleRespond, up to policy and proof. */
    method Check(k: KnockInput) returns (ok: bool)
      requires env.crypto.Valid() && grants.Valid()
      modifies this`log, grants, nonces
      ensures grants.Valid() && View() == RespondOutcome(env, old(View()), k)
      ensures ok <==> log != old(log) && log[|log| - 1].Granted?
      ensures ok ==> log[|log| - 1].source.FromKnock?
    {
      ok := false;
      var resolved := Resolve(k.seen);
      if resolved.None? || !resolved.value.known || !k.post || !k.withinRate {
        return;
      }
      var c, conf := resolved.value, cfg;
      var nonceRaw, tag := env.decode(k.body.nonce), env.decode(k.body.proof);
      if nonceRaw.None? || tag.None? || |nonceRaw.value| != NONCE_LEN || |tag.value| != 32 {
        return;
      }
      var now := clock;
      if !env.nonceOk(nonceRaw.value, c.service, c.ip, now, conf.nonceTtl, conf.v6Prefix) {
        return;
      }
      ok := Prove(c, conf, nonceRaw.value, tag.value, now, k);
    }

    /** The second half of handleRespond: policy and proof together, then burn, then mint. */
    method Prove(c: Ctx, conf: Settings, nonceRaw: Bytes, tag: Bytes, now: I64, k: KnockInput) returns (ok: bool)
      requires env.crypto.Valid() && grants.Valid() && |nonceRaw| == NONCE_LEN
      modifies this`log, grants, nonces
      ensures grants.Valid() && View() == ProveOutcome(env, old(View()), c, conf, k.body.kid, nonceRaw, tag, now, k)
      ensures if ok then log != old(log) && log[|log| - 1].Granted? && log[|log| - 1].source.FromKnock?
              else log == old(log) || !log[|log| - 1].Granted?
    {
      ok := false;
      var kid := k.body.kid;
      var auth := Authorize(reg, kid, c.service, now);
      var secret := if auth.Ok? then auth.value.secret else DUMMY_SECRET;
      var proofOk := env.proofOk(secret, c.service, kid, nonceRaw, tag);
      if auth.Err? || !proofOk {
        return;
      }
      ghost var proof := |log|;
      log := log + [Proved(c, conf, kid, nonceRaw, tag, now, auth.value, reg)];
      var id := NonceId(env, nonceRaw);
      var claimed := nonces.Claim(id, now, conf.nonceTtl);
      if !claimed {
        return;
      }
      ghost var claim := |log|;
      log := log + [Claimed(nonceRaw, id, now, conf.nonceTtl, proof)];
      ok := Mint(c, conf, now, auth.value, claim, k);
    }

    /** The end of handleRespond: a cookie where the service wants one, and the Put. */
    method Mint(c: Ctx, conf: Settings, now: I64, token: Token, ghost claim: nat, k: KnockInput) returns (ok: bool)
      requires env.crypto.Valid() && grants.Valid()
      modifies this`log, grants
      ensures grants.Valid() && View() == PutOutcome(env, old(View()), c, conf, k.body.kid, now, token, claim, k)
      ensures if ok then |log| == |old(log)| + 1 && log[|log| - 1].Granted? && log[|log| - 1].source.FromKnock? else log == old(log)
    {
      ok := false;
      var g := Grant(k.body.kid, c.service, c.ip, BindingOf(c.svc), [], now, now + GrantTtlOf(conf, c.svc), false,
                     Fingerprint(env.crypto, Some(token)));
      if g.binding == ByIpCookie {
        if k.random.None? {
          return;
        }
        g := g.(cookieHash := env.crypto.HexDigest(env.encode(k.random.value)));
      }
      assert g == Minted(env, c, conf, k.body.kid, now, token, if k.random.Some? then k.random.value else []);
      var oldHash: Bytes := [];
      if k.cookie != [] {
        oldHash := env.crypto.HexDigest(k.cookie);
      }
      grants.Put(g, [oldHash]);
      log := log + [Granted(g, [oldHash], FromKnock(claim))];
      ok := true;
    }

    /** handleAuthz; ok is the 204. One that is no carve-out is rightful, and was decided on the registry in force. */
    method HandleAuthz(peerTrusted: bool, seen: Option<Seen>, cookie: Bytes) returns (ok: bool)
      requires Valid()
      modifies this`log
      ensures Valid() && View() == AuthzOutcome(env, old(View()), peerTrusted, seen, cookie)
      ensures ok <==> log != old(log) && (log[|log| - 1].Admitted? || log[|log| - 1].Carved?)
      ensures ok ==> seen.Some?
      ensures ok && log[|log| - 1].Carved? ==> seen.value.uri in EndpointPaths(cfg.uriPrefix)
      ensures ok && log[|log| - 1].Admitted? ==>
                var e := log[|log| - 1];
                && Rightful(env, log, |log| - 1)
                && e.ctx.service == seen.value.service && e.ctx.ip == seen.value.ip
                && e.reg == reg && e.now == clock && e.cookie == cookie
      ensures ok && log[|log| - 1].Carved? <==>
                && peerTrusted && seen.Some? && seen.value.service != [] && seen.value.ip != []
                && seen.value.uri in EndpointPaths(cfg.uriPrefix)
      ensures forall g :: EndsInAccess(old(log), log, g)
                     <==> (&& peerTrusted && seen.Some? && Stored(grants.grants, KeyFor(g), g)
                           && OpensFor(env, old(View()), g, seen.value, cookie))
    {
      ghost var s := View();
      ok := Decide(peerTrusted, seen, cookie);
      AuthzIsRightful(env, s, View(), peerTrusted, seen, cookie);
      CarvesExactly(env, s, peerTrusted, seen, cookie);
      AdmitsExactly(env, s, View(), peerTrusted, seen, cookie);
    }

    /** The body of handleAuthz. */
    method Decide(peerTrusted: bool, seen: Option<Seen>, cookie: Bytes) returns (ok: bool)
      requires env.crypto.Valid() && grants.Valid()
      modifies this`log
      ensures View() == AuthzOutcome(env, old(View()), peerTrusted, seen, cookie)
      ensures ok <==> log != old(log) && (log[|log| - 1].Admitted? || log[|log| - 1].Carved?)
      ensures ok ==> seen.Some?
      ensures ok && log[|log| - 1].Carved? ==> IsEndpoint(cfg, seen.value.uri)
      ensures ok && log[|log| - 1].Admitted? ==>
                var e := log[|log| - 1];
                e.ctx.service == seen.value.service && e.ctx.ip == seen.value.ip && e.reg == reg && e.now == clock && e.cookie == cookie
    {
      ok := false;
      if !peerTrusted {
        return;
      }
      var resolved := Resolve(seen);
      if resolved.None? {
        return;
      }
      var c, conf := resolved.value, cfg;
      var p := conf.uriPrefix;
      if c.uri == p + Ascii("/challenge") || c.uri == p + Ascii("/respond") || c.uri == p + Ascii("/enroll") || c.uri == p + Ascii("/register") {
        log := log + [Carved(c, conf)];
        return true;
      }
      if !c.known {
        return;
      }
      var registry := reg;
      ghost var read := |log|;
      log := log + [RegistryRead(registry)];
      var now := clock;
      var g := grants.IsAllowed(env.crypto, c.service, c.ip, registry, now, cookie);
      if g.Some? {
        if BindingOf(c.svc) == ByIpCookie && g.value.binding != ByIpCookie {
          return;
        }
        log := log + [Admitted(c, registry, read, now, cookie, g.value)];
        ok := true;
      }
    }

    /** handleEnroll; what comes back is the kid, its secret and the origins of the code. */
    method HandleEnroll(e: EnrollInput) returns (r: Option<(Bytes, Bytes, seq<Bytes>)>)
      requires Valid()
      modifies this`log, codes
      ensures Valid() && View() == EnrollOutcome(old(View()), e)
      ensures r.Some? <==> log != old(log)
      ensures r.Some? ==> log[|log| - 1] == SecretSent(e.code, r.value.0, r.value.1, |old(log)| + 1)
      ensures r.Some? <==>
                && e.seen.Some? && e.seen.value.service in cfg.services && e.seen.value.service != [] && e.seen.value.ip != []
                && e.post && e.withinRate && e.code != []
                && e.code in old(codes.codes) && clock < old(codes.codes)[e.code].exp
                && old(codes.codes)[e.code].kid in reg.tokens
      ensures r.Some? ==>
                var entry := old(codes.codes)[e.code];
                && r.value == (entry.kid, reg.tokens[entry.kid].secret, entry.origins)
                && codes.codes == old(codes.codes) - {e.code}
      ensures r.None? ==> codes.codes == old(codes.codes)
    {
      ghost var s := View();
      r := Redeem(e);
      EnrollKeepsInv(env, s, e);
    }

    /** The body of handleEnroll. The two denials after the code is consumed are for requests and reloads that
        come between; undisturbed, they are not reached. */
    method Redeem(e: EnrollInput) returns (r: Option<(Bytes, Bytes, seq<Bytes>)>)
      modifies this`log, codes
      ensures View() == EnrollOutcome(old(View()), e)
      ensures r.Some? <==> log != old(log)
      ensures r.Some? ==> log[|log| - 1] == SecretSent(e.code, r.value.0, r.value.1, |old(log)| + 1)
      ensures r.Some? <==>
                && e.seen.Some? && e.seen.value.service in cfg.services && e.seen.value.service != [] && e.seen.value.ip != []
                && e.post && e.withinRate && e.code != []
                && e.code in old(codes.codes) && clock < old(codes.codes)[e.code].exp
                && old(codes.codes)[e.code].kid in reg.tokens
      ensures r.Some? ==>
                var entry := old(codes.codes)[e.code];
                r.value == (entry.kid, reg.tokens[entry.kid].secret, entry.origins) && codes.codes == old(codes.codes) - {e.code}
      ensures r.None? ==> codes.codes == old(codes.codes)
    {
      r := None;
      var resolved := Resolve(e.seen);
      if resolved.None? || !resolved.value.known || !e.post || !e.withinRate || e.code == [] {
        return;
      }
      var peek := codes.Peek(e.code, clock);
      if peek.None? || Lookup(reg, peek.value.kid).None? {
        return;
      }
      ghost var vet := |log|;
      log := log + [KidVetted(e.code, peek.value.kid)];
      var code := codes.Consume(e.code, clock);
      if code.None? {
        assert false;
      }
      ghost var taken := |log|;
      log := log + [CodeTaken(e.code, code.value, vet, clock)];
      var token := Lookup(reg, code.value.kid);
      if token.None? {
        assert false;
      }
      log := log + [SecretSent(e.code, code.value.kid, token.value.secret, taken)];
      r := Some((code.value.kid, token.value.secret, code.value.origins));
    }

    // ---- administration -----------------------------------------------------

    method AdminGrant(service: Bytes, ip: Bytes, ttlAsked: int, kidAsked: Bytes) returns (ok: bool)
      requires Valid()
      modifies this`log, grants
      ensures Valid() && View() == GrantOutcome(env, old(View()), service, ip, ttlAsked, kidAsked)
      ensures ok <==> Named(env, cfg, service, ip).Some?
    {
      ghost var s := View();
      ok := Vouch(service, ip, ttlAsked, kidAsked);
      GrantKeepsInv(env, s, service, ip, ttlAsked, kidAsked);
    }

    /** The body of AdminGrant. */
    method Vouch(service: Bytes, ip: Bytes, ttlAsked: int, kidAsked: Bytes) returns (ok: bool)
      requires env.Valid() && grants.Valid()
      modifies this`log, grants
      ensures grants.Valid() && View() == GrantOutcome(env, old(View()), service, ip, ttlAsked, kidAsked)
      ensures ok <==> Named(env, cfg, service, ip).Some?
    {
      var conf := cfg;
      var name, addr := env.canonName(service), env.canonIp(ip, conf.v6Prefix);
      if addr.None? || name == [] {
        return false;
      }
      var ttl := ttlAsked;
      if ttl <= 0 {
        ttl := conf.grantTtl;
      }
      var kid, manual := kidAsked, false;
      if kid == [] {
        kid, manual := ManualKid(), true;
      }
      var now := clock;
      ghost var timed := AdminTimed(name, addr.value, ttl, kid, manual, now);
      var g := Grant(kid, name, addr.value, ByIp, [], now, now + ttl, manual, Fingerprint(env.crypto, Lookup(reg, kid)));
      assert g == GrantOf(env, View(), timed);
      assert GrantOutcome(env, View(), service, ip, ttlAsked, kidAsked) == VouchOutcome(env, View(), timed);
      grants.Put(g, []);
      log := log + [Granted(g, [], FromAdmin)];
      ok := true;
    }

    /** None is the refusal of a name or address that does not canonicalize. */
    method AdminRevoke(service: Bytes, ip: Bytes) returns (removed: Option<bool>)
      requires Valid()
      modifies this`log, grants
      ensures Valid() && View() == RevokeOutcome(env, old(View()), service, ip)
      ensures removed.Some? <==> Named(env, cfg, service, ip).Some?
      ensures removed.Some? ==> (removed.value <==> |grants.grants| < |old(grants.grants)|)
      ensures removed.Some? <==> env.canonName(service) != [] && env.canonIp(ip, cfg.v6Prefix).Some?
      ensures removed.Some? ==>
                var (name, addr) := (env.canonName(service), env.canonIp(ip, cfg.v6Prefix).value);
                forall k :: k in grants.grants <==>
                              k in old(grants.grants) && !(old(grants.grants)[k].service == name && old(grants.grants)[k].ip == addr)
      ensures removed.None? ==> grants.grants == old(grants.grants)
    {
      RevokeKeepsInv(env, View(), service, ip);
      var name, addr := env.canonName(service), env.canonIp(ip, cfg.v6Prefix);
      if addr.None? || name == [] {
        return None;
      }
      ghost var before := grants.grants;
      var any := grants.Revoke(name, addr.value);
      RevokeShrinks(before, name, addr.value);
      log := log + [Revoked(name, addr.value)];
      removed := Some(any);
    }

    method AdminRevokeToken(kid: Bytes) returns (n: Option<nat>)
      requires Valid()
      modifies this`log, grants
      ensures Valid() && View() == Gate.AdminRevokeToken(old(View()), kid)
      ensures n == if kid == [] then None else Some(|KeysOf(old(grants.grants), kid)|)
      ensures kid != [] ==> forall k :: k in grants.grants <==> k in old(grants.grants) && old(grants.grants)[k].kid != kid
      ensures kid == [] ==> grants.grants == old(grants.grants)
    {
      RevokeTokenKeeps(env, View(), kid);
      if kid == [] {
        return None;
      }
      var removed := grants.RevokeToken(kid);
      log := log + [RevokedKid(kid)];
      n := Some(removed);
    }

    /** adminEnrollCode; random is what the generator gave, None when it failed. */
    method AdminEnrollCode(kid: Bytes, origins: seq<Bytes>, ttlAsked: int, random: Option<Bytes>) returns (code: Option<Bytes>)
      requires Valid()
      modifies this`log, codes
      ensures Valid() && View() == CodeOutcome(env, old(View()), kid, origins, ttlAsked, random)
      ensures code.Some? <==> kid in reg.tokens && random.Some?
      ensures code.Some? ==>
                && code.value == env.encode(random.value) && code.value in codes.codes
                && codes.codes == old(codes.codes)[code.value := codes.codes[code.value]]
                && var (entry, life) := (codes.codes[code.value], if ttlAsked <= 0 then cfg.enrollTtl else ttlAsked);
                   && entry.kid == kid && entry.origins == origins
                   && (300 <= life <= 604800 ==> entry.exp == clock + life)
                   && (life < 300 ==> entry.exp == clock + 300) && (life > 604800 ==> entry.exp == clock + 604800)
      ensures code.None? ==> codes.codes == old(codes.codes)
    {
      ghost var s := View();
      code := StoreCode(kid, origins, ttlAsked, random);
      CodeKeepsInv(env, s, kid, origins, ttlAsked, random);
    }

    /** The body of adminEnrollCode. */
    method StoreCode(kid: Bytes, origins: seq<Bytes>, ttlAsked: int, random: Option<Bytes>) returns (code: Option<Bytes>)
      modifies this`log, codes
      ensures View() == CodeOutcome(env, old(View()), kid, origins, ttlAsked, random)
      ensures code.Some? <==> kid in reg.tokens && random.Some?
      ensures code.Some? ==>
                && code.value == env.encode(random.value) && code.value in codes.codes
                && codes.codes == old(codes.codes)[code.value := codes.codes[code.value]]
                && var (entry, life) := (codes.codes[code.value], if ttlAsked <= 0 then cfg.enrollTtl else ttlAsked);
                   && entry.kid == kid && entry.origins == origins
                   && (300 <= life <= 604800 ==> entry.exp == clock + life)
                   && (life < 300 ==> entry.exp == clock + 300) && (life > 604800 ==> entry.exp == clock + 604800)
      ensures code.None? ==> codes.codes == old(codes.codes)
    {
      if Lookup(reg, kid).None? {
        return None;
      }
      var ttl := ttlAsked;
      if ttl <= 0 {
        ttl := cfg.enrollTtl;
      }
      if ttl < 300 {
        ttl := 300;
      }
      if ttl > 604800 {
        ttl := 604800;
      }
      if random.None? {
        return None;
      }
      var id := env.encode(random.value);
      var entry := EnrollCode(kid, origins, clock + ttl);
      codes.Put(id, entry);
      log := log + [CodePut(id, entry)];
      code := Some(id);
    }

    /** Configuration and registry are replaced together or not at all; the stores are left alone. */
    method Reload(conf: Settings) returns (ok: bool)
      requires Valid()
      modifies this`cfg, this`reg, this`log
      ensures Valid() && View() == Gate.Reload(old(View()), conf)
      ensures ok <==> RegistryOf(conf).Some? && conf.listen == old(cfg).listen && conf.adminListen == old(cfg).adminListen
      ensures ok ==> cfg == conf && RegistryOf(conf) == Some(reg)
      ensures !ok ==> cfg == old(cfg) && reg == old(reg)
    {
      ghost var s := View();
      ok := Swap(conf);
      ReloadKeeps(env, s, conf);
    }

    /** The body of Reload. */
    method Swap(conf: Settings) returns (ok: bool)
      modifies this`cfg, this`reg, this`log
      ensures View() == Gate.Reload(old(View()), conf)
      ensures ok <==> RegistryOf(conf).Some? && conf.listen == old(cfg).listen && conf.adminListen == old(cfg).adminListen
      ensures ok ==> cfg == conf && RegistryOf(conf) == Some(reg)
      ensures !ok ==> cfg == old(cfg) && reg == old(reg)
    {
      var built := BuildRegistry(conf);
      if built.None? || conf.listen != cfg.listen || conf.adminListen != cfg.adminListen {
        return false;
      }
      cfg, reg := conf, built.value;
      log := log + [Reloaded(cfg, reg)];
      ok := true;
    }

    /** One tick of the sweeper. */
    method SweepAll()
      requires Valid()
      modifies this`log, grants, nonces, codes
      ensures Valid() && View() == SweepOutcome(old(View()))
      ensures forall k :: k in grants.grants <==> k in old(grants.grants) && clock < old(grants.grants)[k].exp
      ensures forall k :: k in nonces.spent <==> k in old(nonces.spent) && clock < old(nonces.spent)[k]
      ensures forall k :: k in codes.codes <==> k in old(codes.codes) && clock < old(codes.codes)[k].exp
    {
      SweepKeepsInv(env, View());
      var now := clock;
      var g := grants.Sweep(now);
      log := log + [SweptGrants(now)];
      var n := nonces.Sweep(now);
      log := log + [SweptNonces(now)];
      var c := codes.Sweep(now);
      log := log + [SweptCodes(now)];
    }
  }

  lemma AuthzIsRightful(env: Env, s: State, s': State, peerTrusted: bool, seen: Option<Seen>, cookie: Bytes)
    requires env.Valid() && Inv(env, s) && s' == AuthzOutcome(env, s, peerTrusted, seen, cookie)
    ensures Inv(env, s')
    ensures s'.log != [] && s'.log[|s'.log| - 1].Admitted? ==> Rightful(env, s'.log, |s'.log| - 1)
  {
    AuthzKeepsInv(env, s, peerTrusted, seen, cookie);
    LastAccessIsRight(env, s'.log);
  }

  lemma LastAccessIsRight(env: Env, log: Log)
    requires env.Valid() && LogOk(env, log)
    ensures log != [] && log[|log| - 1].Admitted? ==> Rightful(env, log, |log| - 1)
  {
    if log != [] && log[|log| - 1].Admitted? {
      AdmittedMeans(env, log, |log| - 1);
    }
  }

  ghost predicate MintedByKnock(env: Env, log: Log, j: nat)
    requires env.crypto.Valid()
  {
    && j < |log| && log[j].Granted? && log[j].source.FromKnock?
    && var c := log[j].source.claim;
    && c < |log| && log[c].Claimed? && MintedBy(env, log, j, c, log[c].proof)
  }

  lemma RespondIsRightful(env: Env, s: State, s': State, k: KnockInput)
    requires env.Valid() && Inv(env, s) && s' == RespondOutcome(env, s, k)
    ensures Inv(env, s')
    ensures s'.log != [] && s'.log[|s'.log| - 1].Granted? && s'.log[|s'.log| - 1].source.FromKnock? ==>
              MintedByKnock(env, s'.log, |s'.log| - 1)
  {
    RespondKeepsInv(env, s, k);
    LastGrantIsRight(env, s'.log);
  }

  /** What the answer to a knock says, read off the state it leaves. */
  lemma RespondMeans(env: Env, s: State, s': State, k: KnockInput)
    requires env.Valid() && Inv(env, s) && s' == RespondOutcome(env, s, k)
    ensures Inv(env, s')
    ensures s'.log != [] && s'.log[|s'.log| - 1].Granted? && s'.log[|s'.log| - 1].source.FromKnock? ==>
              MintedByKnock(env, s'.log, |s'.log| - 1)
    ensures Sound(env, s, k) <==> s'.spent != s.spent
    ensures EndsInGrant(s.log, s'.log) <==> Sound(env, s, k) && CanMint(s, k)
    ensures EndsInGrant(s.log, s'.log) ==> s'.log[|s'.log| - 1].grant == Earned(env, s, k)
    ensures !EndsInGrant(s.log, s'.log) ==> s'.grants == s.grants
  {
    RespondIsRightful(env, s, s', k);
    KnockDoesExactly(env, s, k);
    if Sound(env, s, k) && CanMint(s, k) {
      SoundKnockGrants(env, s, k);
    }
  }

  lemma AdmitsExactly(env: Env, s: State, s': State, peerTrusted: bool, seen: Option<Seen>, cookie: Bytes)
    requires env.Valid() && Inv(env, s) && s' == AuthzOutcome(env, s, peerTrusted, seen, cookie)
    ensures forall g :: EndsInAccess(s.log, s'.log, g)
                   <==> peerTrusted && seen.Some? && Stored(s.grants, KeyFor(g), g) && OpensFor(env, s, g, seen.value, cookie)
  {
    forall g ensures EndsInAccess(s.log, s'.log, g)
                <==> peerTrusted && seen.Some? && Stored(s.grants, KeyFor(g), g) && OpensFor(env, s, g, seen.value, cookie)
    {
      if peerTrusted && seen.Some? {
        AuthzOpensExactly(env, s, seen.value, cookie, g);
      }
    }
  }

  lemma LastGrantIsRight(env: Env, log: Log)
    requires env.Valid() && LogOk(env, log)
    ensures log != [] && log[|log| - 1].Granted? && log[|log| - 1].source.FromKnock? ==> MintedByKnock(env, log, |log| - 1)
  {
    if log != [] && log[|log| - 1].Granted? && log[|log| - 1].source.FromKnock? {
      MintedRightly(env, log, |log| - 1);
    }
  }

  lemma RevokeShrinks(m: Grants, service: Bytes, ip: Bytes)
    ensures |RevokeIn(m, service, ip)| < |m| <==> exists k :: k in m && m[k].service == service && m[k].ip == ip
  {
    var left := RevokeIn(m, service, ip);
    assert left.Keys <= m.Keys;
    if k :| k in m && m[k].service == service && m[k].ip == ip {
      assert left.Keys <= m.Keys - {k};
      KeysBelow(left.Keys, m.Keys - {k});
    } else {
      assert left == m;
    }
  }

  lemma {:induction false} KeysBelow(a: set<Bytes>, b: set<Bytes>)
    requires a <= b
    ensures |a| <= |b|
  {
    if a != {} {
      var x :| x in a;
      KeysBelow(a - {x}, b - {x});
    }
  }
}
