/** The machine with the real encodings, and the other half of its promise: a device that holds a
    registered secret, and answers a challenge with it, is let in. */
module HonestKnock {
  import opened ByteStrings
  import opened Knock
  import opened Registries
  import opened GrantStores
  import opened GrantLaws
  import opened SingleUseStores
  import opened Configs
  import opened Gate
  import opened GateInvariant
  import opened GateTheorems
  import opened Handlers
  import Base64
  import ServerNames
  import IpAddresses

  function CanonAddress(ip: Bytes, v6Prefix: int): Option<Bytes>
  {
    match IpAddresses.CanonIp(ip, v6Prefix, 32)
    case Ok(text) => Some(text)
    case Err(_) => None
  }

  /** The machine's parameters as the Authorizer sets them; key is its nonce key. */
  function RealEnv(c: Crypto, key: Bytes): Env
  {
    Env(c, Base64.B64u, Base64.B64uDecode, ServerNames.CanonServerName, CanonAddress,
        (ts: U64, rand: Bytes, service: Bytes, ip: Bytes, p: int) => IssueNonce(c, key, ts, rand, service, ip, p),
        (nonce: Bytes, service: Bytes, ip: Bytes, now: I64, ttl: I64, p: int) => VerifyNonce(c, key, nonce, service, ip, now, ttl, p).Some?,
        (secret: Bytes, service: Bytes, kid: Bytes, nonce: Bytes, tag: Bytes) => VerifyProof(c, secret, service, kid, nonce, tag),
        nonce => if |nonce| == NONCE_LEN then Stamp(nonce) else 0)
  }

  /** Every theorem about the machine applies to it. */
  lemma RealEnvIsValid(c: Crypto, key: Bytes)
    requires c.Valid()
    ensures RealEnv(c, key).Valid() && RealEnv(c, key).IssuesFresh()
  {
    forall ts: U64, rand: Bytes, service: Bytes, ip: Bytes, p: int, now: I64, ttl: I64
      | Small(service) && IssueNonce(c, key, ts, rand, service, ip, p).Some?
      ensures VerifyNonce(c, key, IssueNonce(c, key, ts, rand, service, ip, p).value, service, ip, now, ttl, p).Some?
         <==> Fresh(ts, now, ttl)
    {
      NonceRoundTrip(c, key, ts, rand, service, ip, p, service, ip, p, now, ttl);
    }
  }

  // ---- which grant a request finds ------------------------------------------

  /** No device record stands in front of g for a request presenting this cookie. */
  predicate Unshadowed(c: Crypto, m: Grants, g: Grant, cookie: Bytes)
    requires c.Valid()
  {
    KeyFor(g) == GrantKey(g.service, g.ip) ==> cookie == [] || GrantKeyCookie(g.service, g.ip, c.HexDigest(cookie)) !in m
  }

  /** Exactly when the store answers with g: it holds it, g entitles the request, and nothing shadows it. */
  lemma AllowedExactly(c: Crypto, m: Grants, g: Grant, service: Bytes, ip: Bytes, reg: Registry, now: int, cookie: Bytes)
    requires c.Valid() && forall k :: k in m ==> k == KeyFor(m[k])
    ensures Allowed(c, m, service, ip, reg, now, cookie) == Some(g)
       <==> Stored(m, KeyFor(g), g) && Entitles(c, g, service, ip, reg, now, cookie) && Unshadowed(c, m, g, cookie)
  {
    HonouredIsEntitled(c, g, service, ip, reg, now, cookie);
    assert |GrantKeyCookie(service, ip, c.HexDigest(cookie))| > |GrantKey(service, ip)|;
  }

  // ---- which requests get in ------------------------------------------------

  /** What g needs of the state, besides standing, to open the gate to this request: a configured service, no
      endpoint path, a request it entitles, no shadow, and as strong a binding as the service asks. */
  predicate OpensFor(env: Env, s: State, g: Grant, seen: Seen, cookie: Bytes)
    requires env.crypto.Valid()
  {
    && seen.service != [] && seen.ip != [] && seen.service in s.cfg.services
    && seen.uri !in EndpointPaths(s.cfg.uriPrefix)
    && Entitles(env.crypto, g, seen.service, seen.ip, s.reg, s.clock, cookie)
    && Unshadowed(env.crypto, s.grants, g, cookie)
    && (s.cfg.services[seen.service].binding == Ascii("ip+cookie") ==> g.binding == ByIpCookie)
  }

  predicate EndsInAccess(before: Log, after: Log, g: Grant)
  {
    after != before && after != [] && after[|after| - 1].Admitted? && after[|after| - 1].grant == g
  }

  lemma LookupOpensExactly(env: Env, s: State, ctx: Ctx, reg: Registry, read: nat, cookie: Bytes, g: Grant)
    requires env.crypto.Valid() && forall k :: k in s.grants ==> k == KeyFor(s.grants[k])
    ensures EndsInAccess(s.log, LookupOutcome(env, s, ctx, reg, read, cookie).log, g)
       <==> (&& Stored(s.grants, KeyFor(g), g)
             && Entitles(env.crypto, g, ctx.service, ctx.ip, reg, s.clock, cookie)
             && Unshadowed(env.crypto, s.grants, g, cookie)
             && (ctx.svc.binding == Ascii("ip+cookie") ==> g.binding == ByIpCookie))
  {
    AllowedExactly(env.crypto, s.grants, g, ctx.service, ctx.ip, reg, s.clock, cookie);
  }

  lemma AuthzOpensExactly(env: Env, s: State, seen: Seen, cookie: Bytes, g: Grant)
    requires env.Valid() && Inv(env, s)
    ensures EndsInAccess(s.log, AuthzOutcome(env, s, true, Some(seen), cookie).log, g)
       <==> Stored(s.grants, KeyFor(g), g) && OpensFor(env, s, g, seen, cookie)
  {
    KeysFit(s.log);
    var ctx := Resolved(s.cfg, seen);
    var s' := s.Emit(RegistryRead(s.reg));
    LookupOpensExactly(env, s', ctx, s.reg, |s.log|, cookie, g);
  }

  /** And exactly when a request is let through without a grant: for an endpoint path, from a trusted peer. */
  lemma CarvesExactly(env: Env, s: State, peerTrusted: bool, seen: Option<Seen>, cookie: Bytes)
    requires env.crypto.Valid()
    ensures var s' := AuthzOutcome(env, s, peerTrusted, seen, cookie);
            && ((s'.log != s.log && s'.log[|s'.log| - 1].Carved?)
                <==> (&& peerTrusted && seen.Some? && seen.value.service != [] && seen.value.ip != []
                      && seen.value.uri in EndpointPaths(s.cfg.uriPrefix)))
            && (!peerTrusted || seen.None? ==> s' == s)
  {
    var uri := if seen.Some? then seen.value.uri else [];
    EndpointsAreFour(s.cfg, uri);
    if peerTrusted && Usable(seen) && !IsEndpoint(s.cfg, uri) {
      var ctx := Resolved(s.cfg, seen.value);
      LookupNeverCarves(env, s.Emit(RegistryRead(s.reg)), ctx, s.reg, |s.log|, cookie);
    }
  }

  lemma EndpointsAreFour(cfg: Settings, uri: Bytes)
    ensures IsEndpoint(cfg, uri) <==> uri in EndpointPaths(cfg.uriPrefix)
  {
  }

  lemma LookupNeverCarves(env: Env, s: State, ctx: Ctx, reg: Registry, read: nat, cookie: Bytes)
    requires env.crypto.Valid() && s.log != [] && !s.log[|s.log| - 1].Carved?
    ensures var s' := LookupOutcome(env, s, ctx, reg, read, cookie); s'.log != [] && !s'.log[|s'.log| - 1].Carved?
  {
  }

  function Then(t: Trace, more: seq<Action>): Trace
  {
    t.(actions := t.actions + more)
  }

  lemma ThenRuns(t: Trace, more: seq<Action>)
    requires t.Valid()
    ensures Then(t, more).End() == Run(t.env, t.End(), more)
  {
    RunConcat(t.env, Init(t.cfg, t.reg, t.clock), t.actions, more);
  }

  /** After any run whatever, a request is let in on g exactly when g stands and opens for it. */
  lemma OpensExactly(t: Trace, rid: Rid, seen: Seen, cookie: Bytes, g: Grant)
    requires t.Valid() && rid !in t.End().inflight
    ensures EndsInAccess(t.Log(), Then(t, AuthzSteps(rid, true, Some(seen), cookie)).Log(), g)
       <==> (exists j :: Stands(t.Log(), j, g)) && OpensFor(t.env, t.End(), g, seen, cookie)
  {
    TraceKeeps(t);
    ThenRuns(t, AuthzSteps(rid, true, Some(seen), cookie));
    AuthzRuns(t.env, t.End(), rid, true, Some(seen), cookie);
    AuthzOpensExactly(t.env, t.End(), seen, cookie, g);
    StoreHoldsWhatStands(t, KeyFor(g), g);
  }

  // ---- an honest knock ------------------------------------------------------

  /** The nonce and tag the body spells, when both are there and of the right length. */
  predicate Spells(env: Env, body: Body, nonce: Bytes, tag: Bytes)
  {
    env.decode(body.nonce) == Some(nonce) && env.decode(body.proof) == Some(tag) && |nonce| == 56 && |tag| == 32
  }

  /** The knock is well-formed, in time, and by a kid in good standing that knows its secret; and its nonce's
      random part is not on record as spent. */
  predicate Sound(env: Env, s: State, k: KnockInput)
  {
    && k.seen.Some? && k.post && k.withinRate
    && var (service, ip) := (k.seen.value.service, k.seen.value.ip);
    && service != [] && ip != [] && service in s.cfg.services
    && env.decode(k.body.nonce).Some? && env.decode(k.body.proof).Some?
    && var (nonce, tag) := (env.decode(k.body.nonce).value, env.decode(k.body.proof).value);
    && Spells(env, k.body, nonce, tag)
    && env.nonceOk(nonce, service, ip, s.clock, s.cfg.nonceTtl, s.cfg.v6Prefix)
    && InGoodStanding(s.reg, k.body.kid, service, s.clock)
    && env.proofOk(s.reg.tokens[k.body.kid].secret, service, k.body.kid, nonce, tag)
    && var id := env.encode(nonce[8..24]);
    && (id in s.spent ==> s.clock >= s.spent[id])
  }

  /** There is randomness to make a cookie of, where the service wants one. */
  predicate CanMint(s: State, k: KnockInput)
    requires k.seen.Some? && k.seen.value.service in s.cfg.services
  {
    s.cfg.services[k.seen.value.service].binding == Ascii("ip+cookie") ==> k.random.Some?
  }

  /** The log grew, and by a grant at the end. */
  predicate EndsInGrant(before: Log, after: Log)
  {
    after != before && after != [] && after[|after| - 1].Granted?
  }

  lemma ClaimsExactly(env: Env, s: State, ctx: Ctx, cfg: Settings, nonce: Bytes, token: Token, proof: nat, k: KnockInput)
    requires env.crypto.Valid() && |nonce| == NONCE_LEN && cfg.nonceTtl > 0
    ensures var s' := ClaimOutcome(env, s, ctx, cfg, k.body.kid, nonce, s.clock, token, proof, k);
            var claimable := Claimable(s.spent, NonceId(env, nonce), s.clock);
            var mints := claimable && (BindingOf(ctx.svc) == ByIpCookie ==> k.random.Some?);
            && s.log <= s'.log
            && (claimable <==> s'.spent != s.spent)
            && (mints ==> EndsInGrant(s.log, s'.log))
            && (!mints ==> s'.grants == s.grants && (s'.log == s.log || !s'.log[|s'.log| - 1].Granted?))
  {
    var id := NonceId(env, nonce);
    var m' := ClaimIn(s.spent, id, s.clock, cfg.nonceTtl);
    assert Claimable(s.spent, id, s.clock) ==> m'[id] > s.clock;
  }

  lemma ProvesExactly(env: Env, s: State, ctx: Ctx, k: KnockInput, nonce: Bytes, tag: Bytes)
    requires env.crypto.Valid() && |nonce| == NONCE_LEN && s.cfg.nonceTtl > 0
    ensures var s' := ProveOutcome(env, s, ctx, s.cfg, k.body.kid, nonce, tag, s.clock, k);
            var burns := && InGoodStanding(s.reg, k.body.kid, ctx.service, s.clock)
                         && env.proofOk(s.reg.tokens[k.body.kid].secret, ctx.service, k.body.kid, nonce, tag)
                         && Claimable(s.spent, NonceId(env, nonce), s.clock);
            var mints := burns && (BindingOf(ctx.svc) == ByIpCookie ==> k.random.Some?);
            && (burns <==> s'.spent != s.spent)
            && (mints <==> EndsInGrant(s.log, s'.log))
            && (!mints ==> s'.grants == s.grants)
  {
    var auth := Authorize(s.reg, k.body.kid, ctx.service, s.clock);
    if auth.Ok? {
      var e := Proved(ctx, s.cfg, k.body.kid, nonce, tag, s.clock, auth.value, s.reg);
      ClaimsExactly(env, s.Emit(e), ctx, s.cfg, nonce, auth.value, |s.log|, k);
    }
  }

  /** An undisturbed knock burns its nonce exactly when it is sound, and mints a grant exactly when there is
      also the randomness for one; otherwise it leaves the grants alone. */
  lemma KnockDoesExactly(env: Env, s: State, k: KnockInput)
    requires env.Valid()
    ensures var s' := RespondOutcome(env, s, k);
            && (Sound(env, s, k) <==> s'.spent != s.spent)
            && (Sound(env, s, k) && CanMint(s, k) <==> EndsInGrant(s.log, s'.log))
            && (!(Sound(env, s, k) && CanMint(s, k)) ==> s'.grants == s.grants)
  {
    if Usable(k.seen) && DecodeBody(env, k.body).Some? {
      var ctx := Resolved(s.cfg, k.seen.value);
      var (nonce, tag) := DecodeBody(env, k.body).value;
      if env.nonceOk(nonce, ctx.service, ctx.ip, s.clock, s.cfg.nonceTtl, s.cfg.v6Prefix) {
        assert Fresh(env.stamp(nonce), s.clock, s.cfg.nonceTtl);
        ProvesExactly(env, s, ctx, k, nonce, tag);
      }
    }
  }

  /** A refused knock burns its nonce exactly when all it lacked was randomness for its cookie. */
  lemma RefusedKnockBurnsExactly(env: Env, s: State, k: KnockInput)
    requires env.Valid() && !EndsInGrant(s.log, RespondOutcome(env, s, k).log)
    ensures RespondOutcome(env, s, k).spent != s.spent
       <==> Sound(env, s, k) && k.random.None? && s.cfg.services[k.seen.value.service].binding == Ascii("ip+cookie")
  {
    KnockDoesExactly(env, s, k);
  }

  /** The grant a sound knock earns: for its service and address, from now for the service's lifetime or the
      default one, under the fingerprint of the secret proved, and bound to a cookie where the service says so. */
  function Earned(env: Env, s: State, k: KnockInput): Grant
    requires env.crypto.Valid() && Sound(env, s, k)
  {
    var (service, ip, kid) := (k.seen.value.service, k.seen.value.ip, k.body.kid);
    var svc := s.cfg.services[service];
    var bound := svc.binding == Ascii("ip+cookie");
    Grant(kid, service, ip, if bound then ByIpCookie else ByIp,
          if bound then Hex(env.crypto.sha256(env.encode(if k.random.Some? then k.random.value else []))) else [],
          s.clock, s.clock + (if svc.grantTtl > 0 then svc.grantTtl else s.cfg.grantTtl), false,
          Hex(env.crypto.sha256(s.reg.tokens[kid].secret)))
  }

  lemma EarnedIsMinted(env: Env, s: State, k: KnockInput)
    requires env.crypto.Valid() && Sound(env, s, k)
    ensures Earned(env, s, k) == Minted(env, Resolved(s.cfg, k.seen.value), s.cfg, k.body.kid, s.clock, s.reg.tokens[k.body.kid],
                                        if k.random.Some? then k.random.value else [])
  {
  }

  /** What the device presents afterwards: the cookie it was given, or whatever it had. */
  function Presented(env: Env, ctx: Ctx, k: KnockInput): Bytes
  {
    if ctx.svc.binding == Ascii("ip+cookie") && k.random.Some? then env.encode(k.random.value) else k.cookie
  }

  lemma PutIsUnshadowed(c: Crypto, m: Grants, g: Grant, earlier: Bytes, cookie: Bytes)
    requires c.Valid() && (KeyFor(g) == GrantKey(g.service, g.ip) ==> g.cookieHash == [] && cookie == earlier)
    ensures Unshadowed(c, PutIn(m, g, [if earlier != [] then c.HexDigest(earlier) else []]), g, cookie)
  {
    var held := if earlier != [] then c.HexDigest(earlier) else [];
    PutOne(m, g, held);
    assert |GrantKeyCookie(g.service, g.ip, held)| > |GrantKey(g.service, g.ip)|;
  }

  /** The last three steps of a sound knock: proof, claim, Put. */
  lemma ProvedKnockPuts(env: Env, s: State, ctx: Ctx, k: KnockInput, nonce: Bytes, tag: Bytes)
    requires env.crypto.Valid() && |nonce| == NONCE_LEN && s.cfg.nonceTtl > 0
    requires InGoodStanding(s.reg, k.body.kid, ctx.service, s.clock)
    requires env.proofOk(s.reg.tokens[k.body.kid].secret, ctx.service, k.body.kid, nonce, tag)
    requires Claimable(s.spent, NonceId(env, nonce), s.clock) && (BindingOf(ctx.svc) == ByIpCookie ==> k.random.Some?)
    ensures var s' := ProveOutcome(env, s, ctx, s.cfg, k.body.kid, nonce, tag, s.clock, k);
            var g := Minted(env, ctx, s.cfg, k.body.kid, s.clock, s.reg.tokens[k.body.kid], if k.random.Some? then k.random.value else []);
            var held := if k.cookie != [] then env.crypto.HexDigest(k.cookie) else [];
            && s'.grants == PutIn(s.grants, g, [held])
            && s'.cfg == s.cfg && s'.reg == s.reg && s'.codes == s.codes && s'.clock == s.clock
            && |s'.log| == |s.log| + 3 && s'.log[|s.log| + 2] == Granted(g, [held], FromKnock(|s.log| + 1))
            && s'.spent == s.spent[NonceId(env, nonce) := s.clock + s.cfg.nonceTtl]
  {
    var (token, id) := (s.reg.tokens[k.body.kid], NonceId(env, nonce));
    var s1 := s.Emit(Proved(ctx, s.cfg, k.body.kid, nonce, tag, s.clock, token, s.reg));
    assert ProveOutcome(env, s, ctx, s.cfg, k.body.kid, nonce, tag, s.clock, k)
        == ClaimOutcome(env, s1, ctx, s.cfg, k.body.kid, nonce, s.clock, token, |s.log|, k);
  }

  lemma SoundKnockPuts(env: Env, s: State, k: KnockInput)
    requires env.Valid() && Sound(env, s, k) && CanMint(s, k)
    ensures var (g, s') := (Earned(env, s, k), RespondOutcome(env, s, k));
            var held := if k.cookie != [] then env.crypto.HexDigest(k.cookie) else [];
            && s'.grants == PutIn(s.grants, g, [held])
            && s'.cfg == s.cfg && s'.reg == s.reg && s'.codes == s.codes && s'.clock == s.clock
            && |s'.log| == |s.log| + 3 && s'.log[|s.log| + 2] == Granted(g, [held], FromKnock(|s.log| + 1))
            && s'.spent == s.spent[env.encode(env.decode(k.body.nonce).value[8..24]) := s.clock + s.cfg.nonceTtl]
  {
    var (nonce, tag) := DecodeBody(env, k.body).value;
    assert Fresh(env.stamp(nonce), s.clock, s.cfg.nonceTtl);
    EarnedIsMinted(env, s, k);
    ProvedKnockPuts(env, s, Resolved(s.cfg, k.seen.value), k, nonce, tag);
  }

  /** What a knock leaves: its grant put last, nothing in front of it for its own device, its nonce burned, and
      nothing else. */
  lemma SoundKnockGrants(env: Env, s: State, k: KnockInput)
    requires env.Valid() && Sound(env, s, k) && CanMint(s, k)
    ensures var (g, s') := (Earned(env, s, k), RespondOutcome(env, s, k));
            var held := if k.cookie != [] then env.crypto.HexDigest(k.cookie) else [];
            && s'.grants == PutIn(s.grants, g, [held])
            && s'.cfg == s.cfg && s'.reg == s.reg && s'.codes == s.codes && s'.clock == s.clock
            && |s'.log| == |s.log| + 3 && Stands(s'.log, |s.log| + 2, g)
            && s'.spent == s.spent[env.encode(env.decode(k.body.nonce).value[8..24]) := s.clock + s.cfg.nonceTtl]
            && Unshadowed(env.crypto, s'.grants, g, Presented(env, Resolved(s.cfg, k.seen.value), k))
  {
    var g := Earned(env, s, k);
    SoundKnockPuts(env, s, k);
    EarnedIsMinted(env, s, k);
    PutIsUnshadowed(env.crypto, s.grants, g, k.cookie, Presented(env, Resolved(s.cfg, k.seen.value), k));
  }

  /** What has not turned against g by now: it has not expired, its kid keeps its standing and the secret it
      was proved with, the service asks for no more than it did, and no device record shadows it. */
  predicate StillGood(env: Env, e: State, g: Grant, seen: Seen, secret: Bytes, cookie: Bytes)
    requires env.crypto.Valid()
  {
    && e.clock < g.exp
    && seen.service in e.cfg.services && seen.uri !in EndpointPaths(e.cfg.uriPrefix)
    && (e.cfg.services[seen.service].binding == Ascii("ip+cookie") ==> g.binding == ByIpCookie)
    && InGoodStanding(e.reg, g.kid, g.service, e.clock) && e.reg.tokens[g.kid].secret == secret
    && Unshadowed(env.crypto, e.grants, g, cookie)
  }

  /** The run with the knock k answered, and then anything. */
  function Onward(t: Trace, rid: Rid, k: KnockInput, rest: seq<Action>): Trace
  {
    Then(t, RespondSteps(rid, k) + rest)
  }

  /** Everything after the knock spared its grant and left it good. */
  predicate SparedAndGood(t: Trace, rid: Rid, k: KnockInput, rest: seq<Action>)
    requires t.env.crypto.Valid() && Sound(t.env, t.End(), k)
  {
    var (s, u, g) := (t.End(), Onward(t, rid, k, rest), Earned(t.env, t.End(), k));
    && SparedAfter(u.Log(), |s.log| + 2, g)
    && StillGood(t.env, u.End(), g, k.seen.value, s.reg.tokens[g.kid].secret, Presented(t.env, Resolved(s.cfg, k.seen.value), k))
  }

  /** The knock puts its grant, and what spares it leaves it standing. */
  lemma SoundKnockStands(t: Trace, rid: Rid, k: KnockInput, rest: seq<Action>)
    requires t.Valid() && Sound(t.env, t.End(), k) && CanMint(t.End(), k) && rid !in t.End().inflight
    requires var (u, g) := (Onward(t, rid, k, rest), Earned(t.env, t.End(), k));
             SparedAfter(u.Log(), |t.Log()| + 2, g)
    ensures Stands(Onward(t, rid, k, rest).Log(), |t.Log()| + 2, Earned(t.env, t.End(), k))
  {
    var s := t.End();
    ThenRuns(t, RespondSteps(rid, k) + rest);
    RunConcat(t.env, s, RespondSteps(rid, k), rest);
    RespondRuns(t.env, s, rid, k);
    SoundKnockGrants(t.env, s, k);
    RunGrows(t.env, RespondOutcome(t.env, s, k), rest);
    StandsOnward(RespondOutcome(t.env, s, k).log, Onward(t, rid, k, rest).Log(), |t.Log()| + 2, Earned(t.env, s, k));
  }

  lemma StandsOnward(before: Log, after: Log, j: nat, g: Grant)
    requires before <= after && |before| == j + 1 && Stands(before, j, g)
    requires SparedAfter(after, j, g)
    ensures Stands(after, j, g)
  {
  }

  /** The run with one more request, by the device that knocked. */
  function AskedAgain(t: Trace, rid: Rid, k: KnockInput, rest: seq<Action>, again: Rid): Trace
    requires t.env.crypto.Valid() && Usable(k.seen)
  {
    Then(Onward(t, rid, k, rest), AuthzSteps(again, true, k.seen, Presented(t.env, Resolved(t.End().cfg, k.seen.value), k)))
  }

  /** A sound knock opens the gate. Whatever happens afterwards, as long as it spares the grant and leaves it
      good, a request from that service and address gets in on it. */
  lemma SoundKnockOpens(t: Trace, rid: Rid, k: KnockInput, rest: seq<Action>, again: Rid)
    requires t.Valid() && Sound(t.env, t.End(), k) && CanMint(t.End(), k) && rid !in t.End().inflight
    requires k.random.Some? ==> t.env.encode(k.random.value) != []
    requires SparedAndGood(t, rid, k, rest) && again !in Onward(t, rid, k, rest).End().inflight
    ensures EndsInAccess(Onward(t, rid, k, rest).Log(), AskedAgain(t, rid, k, rest, again).Log(), Earned(t.env, t.End(), k))
  {
    var s, u := t.End(), Onward(t, rid, k, rest);
    SoundKnockStands(t, rid, k, rest);
    OpensExactly(u, again, k.seen.value, Presented(t.env, Resolved(s.cfg, k.seen.value), k), Earned(t.env, s, k));
  }

  // ---- down to the bytes ----------------------------------------------------

  /** The body a device builds from a challenge; any number of padding characters may follow its texts. */
  function HonestBody(c: Crypto, secret: Bytes, service: Bytes, kid: Bytes, nonce: Bytes, pad: nat): Body
  {
    Body(kid, Base64.B64u(nonce) + Base64.Padding(pad),
         Base64.B64u(BuildProof(c, secret, service, kid, nonce)) + Base64.Padding(pad))
  }

  /** A challenge answered in time, for the service and address it was issued to, passes every check. */
  lemma HonestBodyPasses(c: Crypto, key: Bytes, ts: U64, rand: Bytes, service: Bytes, ip: Bytes, p: int,
                         secret: Bytes, kid: Bytes, pad: nat, now: I64, ttl: I64)
    requires c.Valid() && Small(service) && IssueNonce(c, key, ts, rand, service, ip, p).Some? && Fresh(ts, now, ttl)
    ensures var env := RealEnv(c, key);
            var nonce := IssueNonce(c, key, ts, rand, service, ip, p).value;
            var tag := BuildProof(c, secret, service, kid, nonce);
            && |nonce| == NONCE_LEN
            && DecodeBody(env, HonestBody(c, secret, service, kid, nonce, pad)) == Some((nonce, tag))
            && env.nonceOk(nonce, service, ip, now, ttl, p)
            && env.proofOk(secret, service, kid, nonce, tag)
  {
    var nonce := IssueNonce(c, key, ts, rand, service, ip, p).value;
    var tag := BuildProof(c, secret, service, kid, nonce);
    NonceRoundTrip(c, key, ts, rand, service, ip, p, service, ip, p, now, ttl);
    Base64.RoundTrip(nonce, pad);
    Base64.RoundTrip(tag, pad);
  }

  /** What a challenge hands out is worth to any request at all, whatever the prefix by then: it verifies exactly
      for the same canonical service and address, while its window is open. */
  lemma ChallengeMeans(c: Crypto, key: Bytes, s: State, seen: Seen, get: bool, withinRate: bool, rand: Bytes,
                       service: Bytes, ip: Bytes, p: int, now: I64, ttl: I64)
    requires c.Valid() && Small(seen.service) && Small(service)
    requires ChallengeOutcome(RealEnv(c, key), s, Some(seen), get, withinRate, Some(rand)).Some?
    requires var (a, b) := (NonceMacInput(ToU64(s.clock), rand, seen.service, seen.ip, s.cfg.v6Prefix),
                            NonceMacInput(ToU64(s.clock), rand, service, ip, p));
             a.Some? && b.Some? ==> c.Separates(key, a.value, b.value)
    ensures var nonce := ChallengeOutcome(RealEnv(c, key), s, Some(seen), get, withinRate, Some(rand)).value;
            VerifyNonce(c, key, nonce, service, ip, now, ttl, p).Some?
            <==> (ServerNames.CanonServerName(seen.service) == ServerNames.CanonServerName(service)
                  && IpAddresses.CanonIp(seen.ip, s.cfg.v6Prefix, 32) == IpAddresses.CanonIp(ip, p, 32)
                  && Fresh(ToU64(s.clock), now, ttl))
  {
    NonceRoundTrip(c, key, ToU64(s.clock), rand, seen.service, seen.ip, s.cfg.v6Prefix, service, ip, p, now, ttl);
  }

  /** The device's request to /respond: the same target and client as its challenge, the body built from it. */
  function HonestKnockInput(c: Crypto, secret: Bytes, kid: Bytes, nonce: Bytes, pad: nat, seen: Seen, random: Option<Bytes>, cookie: Bytes): KnockInput
  {
    KnockInput(Some(seen), true, true, HonestBody(c, secret, seen.service, kid, nonce, pad), random, cookie)
  }

  /** From challenge to knock: a device that takes a challenge in state s, and answers it in state t with the
      secret its kid then has, while the nonce is fresh and unspent, knocks soundly. Between the two anything
      may have happened that keeps the service configured and the IPv6 prefix. */
  lemma HonestKnockIsSound(c: Crypto, key: Bytes, s: State, rand: Bytes, t: State, seen: Seen, kid: Bytes, pad: nat,
                           random: Option<Bytes>, cookie: Bytes)
    requires c.Valid() && Small(seen.service) && s.clock >= 0
    requires ChallengeOutcome(RealEnv(c, key), s, Some(seen), true, true, Some(rand)).Some?
    requires t.cfg.v6Prefix == s.cfg.v6Prefix && seen.service in t.cfg.services && Fresh(s.clock, t.clock, t.cfg.nonceTtl)
    requires InGoodStanding(t.reg, kid, seen.service, t.clock) && Claimable(t.spent, Base64.B64u(rand), t.clock)
    ensures var env := RealEnv(c, key);
            var nonce := ChallengeOutcome(env, s, Some(seen), true, true, Some(rand)).value;
            Sound(env, t, HonestKnockInput(c, t.reg.tokens[kid].secret, kid, nonce, pad, seen, random, cookie))
  {
    var secret := t.reg.tokens[kid].secret;
    RealEnvIsValid(c, key);
    HonestBodyPasses(c, key, s.clock, rand, seen.service, seen.ip, s.cfg.v6Prefix, secret, kid, pad, t.clock, t.cfg.nonceTtl);
    IssuedParts(c, key, s.clock, rand, seen.service, seen.ip, s.cfg.v6Prefix);
  }

  /** From challenge to access. Between challenge and answer anything may happen that keeps the service and the
      IPv6 prefix and leaves the nonce unspent; between answer and request, anything that spares the grant the
      answer earned and leaves it good: the device that answers, with the knock k, is let in. */
  lemma HonestDeviceGetsIn(c: Crypto, key: Bytes, s: State, rand: Bytes, t: Trace, rid: Rid, seen: Seen, kid: Bytes, pad: nat,
                           random: Bytes, held: Bytes, nonce: Bytes, k: KnockInput, rest: seq<Action>, again: Rid)
    requires c.Valid() && t.env == RealEnv(c, key) && Small(seen.service) && s.clock >= 0 && random != []
    requires ChallengeOutcome(t.env, s, Some(seen), true, true, Some(rand)) == Some(nonce)
    requires var e := t.End();
             && e.cfg.v6Prefix == s.cfg.v6Prefix && seen.service in e.cfg.services && Fresh(s.clock, e.clock, e.cfg.nonceTtl)
             && InGoodStanding(e.reg, kid, seen.service, e.clock) && Claimable(e.spent, Base64.B64u(rand), e.clock)
             && k == HonestKnockInput(c, e.reg.tokens[kid].secret, kid, nonce, pad, seen, Some(random), held)
    requires rid !in t.End().inflight && again !in Onward(t, rid, k, rest).End().inflight
    requires var (e, u) := (t.End(), Onward(t, rid, k, rest));
             var g := Minted(t.env, Resolved(e.cfg, seen), e.cfg, kid, e.clock, e.reg.tokens[kid], random);
             && SparedAfter(u.Log(), |t.Log()| + 2, g)
             && StillGood(t.env, u.End(), g, seen, e.reg.tokens[kid].secret, Presented(t.env, Resolved(e.cfg, seen), k))
    ensures Sound(t.env, t.End(), k)
    ensures EndsInAccess(Onward(t, rid, k, rest).Log(), AskedAgain(t, rid, k, rest, again).Log(), Earned(t.env, t.End(), k))
  {
    RealEnvIsValid(c, key);
    HonestKnockIsSound(c, key, s, rand, t.End(), seen, kid, pad, Some(random), held);
    TextNotEmpty(random);
    assert t.env.encode(random) == Base64.B64u(random);
    AnswerEarns(t.env, t.End(), k, seen, kid, random);
    assert SparedAndGood(t, rid, k, rest);
    SoundKnockOpens(t, rid, k, rest, again);
  }

  lemma AnswerEarns(env: Env, e: State, k: KnockInput, seen: Seen, kid: Bytes, random: Bytes)
    requires env.crypto.Valid() && Sound(env, e, k) && k.seen == Some(seen) && k.body.kid == kid && k.random == Some(random)
    ensures Earned(env, e, k) == Minted(env, Resolved(e.cfg, seen), e.cfg, kid, e.clock, e.reg.tokens[kid], random)
  {
    EarnedIsMinted(env, e, k);
  }

  lemma TextNotEmpty(b: Bytes)
    requires b != []
    ensures Base64.B64u(b) != []
  {
  }

  /** Why a refused knock need not leave its nonce alone: the honest knock of a device-bound service, when the
      generator fails after the claim, is denied and cannot be sent again. */
  lemma RngFailureBurnsNonce(c: Crypto, key: Bytes, env: Env, s: State, rand: Bytes, t: State, seen: Seen, kid: Bytes, pad: nat,
                             cookie: Bytes, nonce: Bytes, k: KnockInput)
    requires c.Valid() && env.crypto == c && env == RealEnv(c, key) && Small(seen.service) && s.clock >= 0
    requires ChallengeOutcome(env, s, Some(seen), true, true, Some(rand)) == Some(nonce)
    requires t.cfg.v6Prefix == s.cfg.v6Prefix && Fresh(s.clock, t.clock, t.cfg.nonceTtl)
    requires seen.service in t.cfg.services && AsksCookie(t.cfg.services[seen.service])
    requires InGoodStanding(t.reg, kid, seen.service, t.clock) && Claimable(t.spent, Base64.B64u(rand), t.clock)
    requires k == OffersTo(c, t, kid, nonce, pad, seen, cookie)
    ensures DeniedAndBurned(env, t, k, RespondOutcome(env, t, k))
  {
    RealEnvIsValid(c, key);
    HonestKnockIsSound(c, key, s, rand, t, seen, kid, pad, None, cookie);
    KnockDoesExactly(env, t, k);
    BurnedStaysBurned(env, t, k);
    KnockDoesExactly(env, RespondOutcome(env, t, k), k);
  }

  /** The service is configured to be bound to cookies. */
  predicate AsksCookie(svc: ServiceConfig)
  {
    svc.binding == Ascii("ip+cookie")
  }

  /** The honest answer, when no randomness is to be had for a cookie. */
  function OffersTo(c: Crypto, t: State, kid: Bytes, nonce: Bytes, pad: nat, seen: Seen, cookie: Bytes): KnockInput
  {
    HonestKnockInput(c, if kid in t.reg.tokens then t.reg.tokens[kid].secret else [], kid, nonce, pad, seen, None, cookie)
  }

  /** The knock was denied with its nonce spent, and sending it again does nothing. */
  predicate DeniedAndBurned(env: Env, t: State, k: KnockInput, t': State)
    requires env.crypto.Valid()
  {
    && !EndsInGrant(t.log, t'.log) && t'.grants == t.grants && t'.spent != t.spent
    && RespondOutcome(env, t', k).spent == t'.spent
  }

  lemma BurnedStaysBurned(env: Env, t: State, k: KnockInput)
    requires env.Valid() && Sound(env, t, k)
    ensures !Sound(env, RespondOutcome(env, t, k), k)
  {
    assert Fresh(env.stamp(DecodeBody(env, k.body).value.0), t.clock, t.cfg.nonceTtl);
  }
}
