/** What opens the gate besides a knock, and what an expiry takes away: an administrator's grant, an enrollment
    code, and the end of a token. Each is followed through any run, its conditions written out. */
module GateOpens {
  import opened ByteStrings
  import opened Knock
  import opened Registries
  import opened GrantStores
  import opened SingleUseStores
  import opened Configs
  import opened Gate
  import opened GateInvariant
  import opened GateTheorems
  import opened Handlers
  import opened HonestKnock

  // ---- an administrator's grant ---------------------------------------------

  /** The grant an administrator asks for: under the kid named, or, with none, a break-glass grant of the
      administrator's own; for the time asked, or the default one. */
  function AskedGrant(env: Env, s: State, name: Bytes, addr: Bytes, ttl: int, kid: Bytes): Grant
    requires env.crypto.Valid()
  {
    var who := if kid == [] then Ascii("__manual__") else kid;
    Grant(who, name, addr, ByIp, [], s.clock, s.clock + (if ttl <= 0 then s.cfg.grantTtl else ttl), kid == [],
          if who in s.reg.tokens then Hex(env.crypto.sha256(s.reg.tokens[who].secret)) else [])
  }

  /** What an administrator's grant needs later on, besides being spared: to be within its time, for a service
      that is configured and not bound to cookies, on no endpoint path, with no device record in front of it;
      and, only if it names a kid, that kid in good standing under the secret it had. */
  predicate StillOpens(env: Env, s: State, e: State, name: Bytes, addr: Bytes, ttl: int, kid: Bytes, uri: Bytes, cookie: Bytes)
    requires env.crypto.Valid()
  {
    && e.clock < s.clock + (if ttl <= 0 then s.cfg.grantTtl else ttl)
    && name in e.cfg.services && e.cfg.services[name].binding != Ascii("ip+cookie")
    && uri !in EndpointPaths(e.cfg.uriPrefix)
    && (cookie == [] || GrantKeyCookie(name, addr, env.crypto.HexDigest(cookie)) !in e.grants)
    && (kid != [] ==>
          && kid in s.reg.tokens && kid in e.reg.tokens && e.reg.tokens[kid].secret == s.reg.tokens[kid].secret
          && e.reg.tokens[kid].alg == Ascii("HMAC-SHA256") && Listed(e.reg, kid, name)
          && (e.reg.tokens[kid].expires == 0 || e.clock < e.reg.tokens[kid].expires))
  }

  lemma GrantOutcomeIs(env: Env, s: State, service: Bytes, ip: Bytes, ttl: int, kid: Bytes, addr: Bytes)
    requires env.crypto.Valid() && env.canonIp(ip, s.cfg.v6Prefix) == Some(addr) && env.canonName(service) != []
    ensures var g := AskedGrant(env, s, env.canonName(service), addr, ttl, kid);
            GrantOutcome(env, s, service, ip, ttl, kid) == s.(grants := PutIn(s.grants, g, [])).Emit(Granted(g, [], FromAdmin))
  {
  }

  lemma AdminGrantStands(t: Trace, rid: Rid, service: Bytes, ip: Bytes, ttl: int, kid: Bytes, addr: Bytes, rest: seq<Action>)
    requires t.Valid() && rid !in t.End().inflight
    requires t.env.canonIp(ip, t.End().cfg.v6Prefix) == Some(addr) && t.env.canonName(service) != []
    requires SparedAfter(Then(t, GrantSteps(rid, service, ip, ttl, kid) + rest).Log(), |t.Log()|,
                         AskedGrant(t.env, t.End(), t.env.canonName(service), addr, ttl, kid))
    ensures Stands(Then(t, GrantSteps(rid, service, ip, ttl, kid) + rest).Log(), |t.Log()|,
                   AskedGrant(t.env, t.End(), t.env.canonName(service), addr, ttl, kid))
  {
    var s, steps := t.End(), GrantSteps(rid, service, ip, ttl, kid);
    var g := AskedGrant(t.env, s, t.env.canonName(service), addr, ttl, kid);
    ThenRuns(t, steps + rest);
    RunConcat(t.env, s, steps, rest);
    GrantRuns(t.env, s, rid, service, ip, ttl, kid);
    GrantOutcomeIs(t.env, s, service, ip, ttl, kid, addr);
    RunGrows(t.env, GrantOutcome(t.env, s, service, ip, ttl, kid), rest);
    StandsOnward(GrantOutcome(t.env, s, service, ip, ttl, kid).log, Then(t, steps + rest).Log(), |t.Log()|, g);
  }

  lemma AskedGrantOpens(env: Env, s: State, e: State, name: Bytes, addr: Bytes, ttl: int, kid: Bytes, uri: Bytes, cookie: Bytes)
    requires env.crypto.Valid() && name != [] && addr != [] && StillOpens(env, s, e, name, addr, ttl, kid, uri, cookie)
    ensures OpensFor(env, e, AskedGrant(env, s, name, addr, ttl, kid), Seen(name, addr, uri), cookie)
  {
  }

  /** An administrator's grant opens the gate, whatever happens afterwards that spares it: with no kid named,
      whatever the registry then holds; with a kid, while that kid keeps its standing and its secret. */
  lemma AdminGrantOpens(t: Trace, rid: Rid, service: Bytes, ip: Bytes, ttl: int, kid: Bytes, name: Bytes, addr: Bytes, rest: seq<Action>,
                        u: Trace, uri: Bytes, cookie: Bytes, again: Rid)
    requires t.Valid() && rid !in t.End().inflight
    requires t.env.canonIp(ip, t.End().cfg.v6Prefix) == Some(addr) && t.env.canonName(service) == name
    requires name != [] && addr != []
    requires u == Then(t, GrantSteps(rid, service, ip, ttl, kid) + rest) && again !in u.End().inflight
    requires SparedAfter(u.Log(), |t.Log()|, AskedGrant(t.env, t.End(), name, addr, ttl, kid))
    requires StillOpens(t.env, t.End(), u.End(), name, addr, ttl, kid, uri, cookie)
    ensures EndsInAccess(u.Log(), Then(u, AuthzSteps(again, true, Some(Seen(name, addr, uri)), cookie)).Log(),
                         AskedGrant(t.env, t.End(), name, addr, ttl, kid))
  {
    AdminGrantStands(t, rid, service, ip, ttl, kid, addr, rest);
    AskedGrantOpens(t.env, t.End(), u.End(), name, addr, ttl, kid, uri, cookie);
    OpensExactly(u, again, Seen(name, addr, uri), cookie, AskedGrant(t.env, t.End(), name, addr, ttl, kid));
  }

  // ---- the end of a token ---------------------------------------------------

  predicate Expired(reg: Registry, kid: Bytes, now: int)
  {
    kid in reg.tokens && reg.tokens[kid].expires != 0 && reg.tokens[kid].expires <= now
  }

  /** From its expiry on, a token is worth nothing: no knock under it is accepted, and no grant it stands behind
      lets anyone in. */
  lemma ExpiredTokenIsRefused(t: Trace, rid: Rid, k: KnockInput, seen: Seen, cookie: Bytes, g: Grant)
    requires t.Valid() && rid !in t.End().inflight
    ensures Expired(t.End().reg, k.body.kid, t.End().clock) ==>
              var s' := Then(t, RespondSteps(rid, k)).End(); s'.grants == t.End().grants && s'.spent == t.End().spent
    ensures Expired(t.End().reg, g.kid, t.End().clock) && !g.manual ==>
              !EndsInAccess(t.Log(), Then(t, AuthzSteps(rid, true, Some(seen), cookie)).Log(), g)
  {
    ThenRuns(t, RespondSteps(rid, k));
    RespondRuns(t.env, t.End(), rid, k);
    KnockDoesExactly(t.env, t.End(), k);
    OpensExactly(t, rid, seen, cookie, g);
  }

  // ---- an enrollment code ---------------------------------------------------

  predicate EndsInSecret(before: Log, after: Log, code: Bytes, kid: Bytes, secret: Bytes)
  {
    && after != before && after != [] && after[|after| - 1].SecretSent?
    && after[|after| - 1].code == code && after[|after| - 1].kid == kid && after[|after| - 1].secret == secret
  }

  /** The request is one the endpoint considers, for a code that is there and has not expired. */
  predicate Redeems(s: State, e: EnrollInput, entry: EnrollCode)
  {
    && e.seen.Some? && e.seen.value.service != [] && e.seen.value.ip != [] && e.seen.value.service in s.cfg.services
    && e.post && e.withinRate && e.code != []
    && s.clock < entry.exp && entry.kid in s.reg.tokens
  }

  lemma EnrollDoesExactly(s: State, e: EnrollInput)
    ensures var s' := EnrollOutcome(s, e);
            if e.code in s.codes && Redeems(s, e, s.codes[e.code])
            then s'.codes == s.codes - {e.code}
                 && EndsInSecret(s.log, s'.log, e.code, s.codes[e.code].kid, s.reg.tokens[s.codes[e.code].kid].secret)
            else s' == s
  {
  }

  /** After any run whatever, an undisturbed request is answered with a kid's secret exactly when the code it
      presents stands with an entry for that kid, has not expired, and the kid holds that secret. */
  lemma EnrollAnswersExactly(t: Trace, rid: Rid, e: EnrollInput, kid: Bytes, secret: Bytes)
    requires t.Valid() && rid !in t.End().inflight
    ensures EndsInSecret(t.Log(), Then(t, EnrollSteps(rid, e, t.End().clock)).Log(), e.code, kid, secret)
       <==> exists entry: EnrollCode, k :: CodeStands(t.Log(), k, e.code, entry) && Redeems(t.End(), e, entry)
                                           && entry.kid == kid && t.End().reg.tokens[kid].secret == secret
  {
    var s := t.End();
    ThenRuns(t, EnrollSteps(rid, e, s.clock));
    EnrollRuns(t.env, s, rid, e);
    EnrollDoesExactly(s, e);
    if e.code in s.codes && Redeems(s, e, s.codes[e.code]) {
      StoreHoldsCodes(t, e.code, s.codes[e.code]);
      var k :| CodeStands(t.Log(), k, e.code, s.codes[e.code]);
    }
    forall entry, k | CodeStands(t.Log(), k, e.code, entry) ensures HoldsCode(s.codes, e.code, entry) {
      StoreHoldsCodes(t, e.code, entry);
    }
  }

  /** The lifetime of a code: what was asked, or the default, within five minutes and seven days. */
  function AskedLife(cfg: Settings, ttl: int): int
  {
    var life := if ttl <= 0 then cfg.enrollTtl else ttl;
    if life < 300 then 300 else if 604800 < life then 604800 else life
  }

  lemma CodeOutcomeIs(env: Env, s: State, kid: Bytes, origins: seq<Bytes>, ttl: int, random: Bytes)
    requires kid in s.reg.tokens
    ensures var (code, entry) := (env.encode(random), EnrollCode(kid, origins, s.clock + AskedLife(s.cfg, ttl)));
            CodeOutcome(env, s, kid, origins, ttl, Some(random)) == s.(codes := s.codes[code := entry]).Emit(CodePut(code, entry))
  {
  }

  predicate CodeSparedAfter(log: Log, k: int, code: Bytes, entry: EnrollCode)
  {
    forall m :: 0 <= m < |log| && k < m ==> SparesCode(log[m], code, entry)
  }

  lemma CodeStandsOnward(before: Log, after: Log, k: nat, code: Bytes, entry: EnrollCode)
    requires before <= after && |before| == k + 1 && before[k] == CodePut(code, entry) && CodeSparedAfter(after, k, code, entry)
    ensures CodeStands(after, k, code, entry)
  {
  }

  /** A code minted for a registered kid, neither taken nor replaced nor swept since, and presented before its
      time is up, is answered with the secret the kid then holds. */
  lemma MintedCodeIsAnswered(t: Trace, rid: Rid, kid: Bytes, origins: seq<Bytes>, ttl: int, random: Bytes, rest: seq<Action>,
                             u: Trace, e: EnrollInput, again: Rid)
    requires t.Valid() && rid !in t.End().inflight && kid in t.End().reg.tokens
    requires u == Then(t, CodeSteps(rid, kid, origins, ttl, Some(random)) + rest) && again !in u.End().inflight
    requires e.code == t.env.encode(random)
    requires var entry := EnrollCode(kid, origins, t.End().clock + AskedLife(t.End().cfg, ttl));
             CodeSparedAfter(u.Log(), |t.Log()|, e.code, entry) && Redeems(u.End(), e, entry)
    ensures EndsInSecret(u.Log(), Then(u, EnrollSteps(again, e, u.End().clock)).Log(), e.code, kid, u.End().reg.tokens[kid].secret)
  {
    var s, steps := t.End(), CodeSteps(rid, kid, origins, ttl, Some(random));
    var entry := EnrollCode(kid, origins, s.clock + AskedLife(s.cfg, ttl));
    ThenRuns(t, steps + rest);
    RunConcat(t.env, s, steps, rest);
    CodeRuns(t.env, s, rid, kid, origins, ttl, Some(random));
    CodeOutcomeIs(t.env, s, kid, origins, ttl, random);
    RunGrows(t.env, CodeOutcome(t.env, s, kid, origins, ttl, Some(random)), rest);
    CodeStandsOnward(CodeOutcome(t.env, s, kid, origins, ttl, Some(random)).log, u.Log(), |t.Log()|, e.code, entry);
    EnrollAnswersExactly(u, again, e, kid, u.End().reg.tokens[kid].secret);
  }
}
