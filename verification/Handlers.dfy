/** What each handler does when nothing comes between its pieces. An outcome function reads like the rest
    of the handler from one point on; the lemmas beside it show that the machine's steps, run back to back,
    come to the same. */
module Handlers {
  import opened ByteStrings
  import opened Knock
  import opened Registries
  import opened GrantStores
  import opened SingleUseStores
  import opened Configs
  import opened Gate
  import opened GateInvariant

  lemma OneStep(env: Env, s: State, a: Action, rest: seq<Action>)
    requires env.crypto.Valid()
    ensures Run(env, s, [a] + rest) == Run(env, Next(env, s, a), rest)
  {
    assert ([a] + rest)[1..] == rest;
  }

  lemma LastStep(env: Env, s: State, a: Action)
    requires env.crypto.Valid()
    ensures Run(env, s, [a]) == Next(env, s, a)
  {
  }

  lemma {:induction false} RunConcat(env: Env, s: State, a: seq<Action>, b: seq<Action>)
    requires env.crypto.Valid()
    ensures Run(env, s, a + b) == Run(env, Run(env, s, a), b)
    decreases |a|
  {
    if a == [] {
      assert a + b == b;
    } else {
      assert (a + b)[1..] == a[1..] + b;
      RunConcat(env, Next(env, s, a[0]), a[1..], b);
    }
  }

  lemma TwoSteps(env: Env, s: State, a: Action, t: State, b: Action)
    requires env.crypto.Valid() && Next(env, s, a) == t
    ensures Run(env, s, [a] + [b]) == Next(env, t, b)
  {
    OneStep(env, s, a, [b]);
    LastStep(env, t, b);
  }

  /** A step that only moves on a request already in flight. */
  predicate Continues(a: Action, rid: Rid)
  {
    match a
    case DoRespondConfig(r, _) => r == rid
    case DoRespondCheck(r, _) => r == rid
    case DoRespondProve(r) => r == rid
    case DoRespondClaim(r) => r == rid
    case DoRespondPut(r, _, _) => r == rid
    case DoAuthzConfig(r, _) => r == rid
    case DoAuthzRegistry(r) => r == rid
    case DoAuthzClock(r) => r == rid
    case DoAuthzLookup(r) => r == rid
    case DoEnrollPeek(r, _) => r == rid
    case DoEnrollVet(r) => r == rid
    case DoEnrollConsume(r, _) => r == rid
    case DoEnrollSend(r) => r == rid
    case DoAdminGrantClock(r) => r == rid
    case DoAdminGrantVouch(r) => r == rid
    case DoAdminGrantPut(r) => r == rid
    case DoAdminRevoke(r) => r == rid
    case DoAdminCodeConfig(r) => r == rid
    case DoAdminCodeClock(r) => r == rid
    case DoAdminCodePut(r, _) => r == rid
    case _ => false
  }

  /** An answered request is not moved on. */
  lemma {:induction false} Idle(env: Env, s: State, rid: Rid, steps: seq<Action>)
    requires env.crypto.Valid() && rid !in s.inflight
    requires forall i :: 0 <= i < |steps| ==> Continues(steps[i], rid)
    ensures Run(env, s, steps) == s
    decreases |steps|
  {
    if steps != [] {
      assert Continues(steps[0], rid);
      assert Next(env, s, steps[0]) == s;
      Idle(env, s, rid, steps[1..]);
    }
  }

  lemma GoGo(s: State, rid: Rid, p: Pc, q: Pc)
    requires rid !in s.inflight
    ensures s.Go(rid, p).Go(rid, q) == s.Go(rid, q)
    ensures s.Go(rid, p).Done(rid) == s
  {
    assert s.inflight[rid := p][rid := q] == s.inflight[rid := q];
    assert s.inflight[rid := p] - {rid} == s.inflight;
  }

  // ---- the knock ------------------------------------------------------------

  datatype KnockInput = KnockInput(seen: Option<Seen>, post: bool, withinRate: bool, body: Body, random: Option<Bytes>, cookie: Bytes)

  /** What is left once the nonce is claimed: a cookie where the service wants one, and the Put. */
  function PutOutcome(env: Env, s: State, ctx: Ctx, cfg: Settings, kid: Bytes, now: I64, token: Token, claim: nat, k: KnockInput): State
    requires env.crypto.Valid()
  {
    if BindingOf(ctx.svc) == ByIpCookie && k.random.None? then s
    else
      var g := Minted(env, ctx, cfg, kid, now, token, if k.random.Some? then k.random.value else []);
      var held := if k.cookie != [] then env.crypto.HexDigest(k.cookie) else [];
      s.(grants := PutIn(s.grants, g, [held])).Emit(Granted(g, [held], FromKnock(claim)))
  }

  /** What is left once the proof is accepted: burn the nonce, then mint. */
  function ClaimOutcome(env: Env, s: State, ctx: Ctx, cfg: Settings, kid: Bytes, nonce: Bytes, now: I64, token: Token, proof: nat, k: KnockInput): State
    requires env.crypto.Valid() && |nonce| == NONCE_LEN
  {
    var id := NonceId(env, nonce);
    if !Claimable(s.spent, id, now) then s
    else
      PutOutcome(env, s.(spent := ClaimIn(s.spent, id, now, cfg.nonceTtl)).Emit(Claimed(nonce, id, now, cfg.nonceTtl, proof)),
                 ctx, cfg, kid, now, token, |s.log|, k)
  }

  /** What is left once the nonce is found fresh: policy and proof, decided together. */
  function ProveOutcome(env: Env, s: State, ctx: Ctx, cfg: Settings, kid: Bytes, nonce: Bytes, tag: Bytes, now: I64, k: KnockInput): State
    requires env.crypto.Valid() && |nonce| == NONCE_LEN
  {
    var auth := Authorize(s.reg, kid, ctx.service, now);
    var secret := if auth.Ok? then auth.value.secret else DUMMY_SECRET;
    if auth.Err? || !env.proofOk(secret, ctx.service, kid, nonce, tag) then s
    else
      ClaimOutcome(env, s.Emit(Proved(ctx, cfg, kid, nonce, tag, now, auth.value, s.reg)),
                   ctx, cfg, kid, nonce, now, auth.value, |s.log|, k)
  }

  /** What is left once the configuration is read: decode the body, read the clock, check the nonce. */
  function CheckOutcome(env: Env, s: State, ctx: Ctx, cfg: Settings, k: KnockInput): State
    requires env.crypto.Valid()
  {
    match DecodeBody(env, k.body)
    case None => s
    case Some((nonce, tag)) =>
      if !env.nonceOk(nonce, ctx.service, ctx.ip, s.clock, cfg.nonceTtl, cfg.v6Prefix) then s
      else ProveOutcome(env, s, ctx, cfg, k.body.kid, nonce, tag, s.clock, k)
  }

  function RespondOutcome(env: Env, s: State, k: KnockInput): State
    requires env.crypto.Valid()
  {
    if !Usable(k.seen) then s
    else
      var ctx := Resolved(s.cfg, k.seen.value);
      if !ctx.known || !k.post || !k.withinRate then s else CheckOutcome(env, s, ctx, s.cfg, k)
  }

  function RespondSteps(rid: Rid, k: KnockInput): seq<Action>
  {
    [DoRespondStart(rid, k.seen, k.post)] + ([DoRespondConfig(rid, k.withinRate)] + ([DoRespondCheck(rid, k.body)] + ProveSteps(rid, k)))
  }

  function ProveSteps(rid: Rid, k: KnockInput): seq<Action>
  {
    [DoRespondProve(rid)] + ([DoRespondClaim(rid)] + [DoRespondPut(rid, k.random, k.cookie)])
  }

  lemma PutRuns(env: Env, s: State, rid: Rid, pc: Pc, k: KnockInput)
    requires env.crypto.Valid() && rid !in s.inflight && pc.RespondClaimed?
    ensures Run(env, s.Go(rid, pc), [DoRespondPut(rid, k.random, k.cookie)])
         == PutOutcome(env, s, pc.ctx, pc.cfg, pc.kid, pc.now, pc.token, pc.claim, k)
  {
    LastStep(env, s.Go(rid, pc), DoRespondPut(rid, k.random, k.cookie));
    GoGo(s, rid, pc, pc);
  }

  lemma ClaimRuns(env: Env, s: State, rid: Rid, pc: Pc, k: KnockInput)
    requires env.crypto.Valid() && rid !in s.inflight && pc.RespondProved? && |pc.nonce| == NONCE_LEN
    ensures Run(env, s.Go(rid, pc), [DoRespondClaim(rid)] + [DoRespondPut(rid, k.random, k.cookie)])
         == ClaimOutcome(env, s, pc.ctx, pc.cfg, pc.kid, pc.nonce, pc.now, pc.token, pc.proof, k)
  {
    var rest := [DoRespondPut(rid, k.random, k.cookie)];
    OneStep(env, s.Go(rid, pc), DoRespondClaim(rid), rest);
    var id := NonceId(env, pc.nonce);
    var next := RespondClaimed(pc.ctx, pc.cfg, pc.kid, pc.now, pc.token, |s.log|);
    GoGo(s, rid, pc, next);
    if Claimable(s.spent, id, pc.now) {
      var s' := s.(spent := ClaimIn(s.spent, id, pc.now, pc.cfg.nonceTtl)).Emit(Claimed(pc.nonce, id, pc.now, pc.cfg.nonceTtl, pc.proof));
      assert Next(env, s.Go(rid, pc), DoRespondClaim(rid)) == s'.Go(rid, next);
      PutRuns(env, s', rid, next, k);
    } else {
      Idle(env, s, rid, rest);
    }
  }

  lemma ProveRuns(env: Env, s: State, rid: Rid, pc: Pc, k: KnockInput)
    requires env.crypto.Valid() && rid !in s.inflight && pc.RespondFresh? && |pc.nonce| == NONCE_LEN
    ensures Run(env, s.Go(rid, pc), ProveSteps(rid, k))
         == ProveOutcome(env, s, pc.ctx, pc.cfg, pc.kid, pc.nonce, pc.tag, pc.now, k)
  {
    var rest := [DoRespondClaim(rid)] + [DoRespondPut(rid, k.random, k.cookie)];
    OneStep(env, s.Go(rid, pc), DoRespondProve(rid), rest);
    var auth := Authorize(s.reg, pc.kid, pc.ctx.service, pc.now);
    if auth.Ok? && env.proofOk(auth.value.secret, pc.ctx.service, pc.kid, pc.nonce, pc.tag) {
      var next := RespondProved(pc.ctx, pc.cfg, pc.kid, pc.nonce, pc.now, auth.value, |s.log|);
      var s' := s.Emit(Proved(pc.ctx, pc.cfg, pc.kid, pc.nonce, pc.tag, pc.now, auth.value, s.reg));
      GoGo(s, rid, pc, next);
      assert Next(env, s.Go(rid, pc), DoRespondProve(rid)) == s'.Go(rid, next);
      ClaimRuns(env, s', rid, next, k);
    } else {
      GoGo(s, rid, pc, pc);
      Idle(env, s, rid, rest);
    }
  }

  lemma CheckRuns(env: Env, s: State, rid: Rid, pc: Pc, k: KnockInput)
    requires env.crypto.Valid() && rid !in s.inflight && pc.RespondConfigured?
    ensures Run(env, s.Go(rid, pc), [DoRespondCheck(rid, k.body)] + ProveSteps(rid, k)) == CheckOutcome(env, s, pc.ctx, pc.cfg, k)
  {
    OneStep(env, s.Go(rid, pc), DoRespondCheck(rid, k.body), ProveSteps(rid, k));
    var decoded := DecodeBody(env, k.body);
    GoGo(s, rid, pc, pc);
    if decoded.Some? && env.nonceOk(decoded.value.0, pc.ctx.service, pc.ctx.ip, s.clock, pc.cfg.nonceTtl, pc.cfg.v6Prefix) {
      var next := RespondFresh(pc.ctx, pc.cfg, k.body.kid, decoded.value.0, decoded.value.1, s.clock);
      GoGo(s, rid, pc, next);
      assert Next(env, s.Go(rid, pc), DoRespondCheck(rid, k.body)) == s.Go(rid, next);
      ProveRuns(env, s, rid, next, k);
    } else {
      assert Next(env, s.Go(rid, pc), DoRespondCheck(rid, k.body)) == s;
      Idle(env, s, rid, ProveSteps(rid, k));
    }
  }

  /** An undisturbed knock is its six steps run back to back. */
  lemma RespondRuns(env: Env, s: State, rid: Rid, k: KnockInput)
    requires env.crypto.Valid() && rid !in s.inflight
    ensures Run(env, s, RespondSteps(rid, k)) == RespondOutcome(env, s, k)
  {
    var checks := [DoRespondCheck(rid, k.body)] + ProveSteps(rid, k);
    var rest := [DoRespondConfig(rid, k.withinRate)] + checks;
    OneStep(env, s, DoRespondStart(rid, k.seen, k.post), rest);
    if Usable(k.seen) && Resolved(s.cfg, k.seen.value).known && k.post {
      var ctx := Resolved(s.cfg, k.seen.value);
      var resolved, configured := RespondResolved(ctx), RespondConfigured(ctx, s.cfg);
      OneStep(env, s.Go(rid, resolved), DoRespondConfig(rid, k.withinRate), checks);
      GoGo(s, rid, resolved, configured);
      if k.withinRate {
        CheckRuns(env, s, rid, configured, k);
      } else {
        Idle(env, s, rid, checks);
      }
    } else {
      Idle(env, s, rid, rest);
    }
  }

  // ---- forward-auth ---------------------------------------------------------

  function AuthzOutcome(env: Env, s: State, peerTrusted: bool, seen: Option<Seen>, cookie: Bytes): State
    requires env.crypto.Valid()
  {
    if !peerTrusted || !Usable(seen) then s
    else
      var ctx := Resolved(s.cfg, seen.value);
      if IsEndpoint(s.cfg, ctx.uri) then s.Emit(Carved(ctx, s.cfg))
      else if !ctx.known then s
      else LookupOutcome(env, s.Emit(RegistryRead(s.reg)), ctx, s.reg, |s.log|, cookie)
  }

  function LookupOutcome(env: Env, s: State, ctx: Ctx, reg: Registry, read: nat, cookie: Bytes): State
    requires env.crypto.Valid()
  {
    match Allowed(env.crypto, s.grants, ctx.service, ctx.ip, reg, s.clock, cookie)
    case None => s
    case Some(g) =>
      if BindingOf(ctx.svc) == ByIpCookie && g.binding != ByIpCookie then s
      else s.Emit(Admitted(ctx, reg, read, s.clock, cookie, g))
  }

  function AuthzSteps(rid: Rid, peerTrusted: bool, seen: Option<Seen>, cookie: Bytes): seq<Action>
  {
    [DoAuthzStart(rid, peerTrusted, seen)] + ([DoAuthzConfig(rid, cookie)] + LookupSteps(rid))
  }

  function LookupSteps(rid: Rid): seq<Action>
  {
    [DoAuthzRegistry(rid)] + ([DoAuthzClock(rid)] + [DoAuthzLookup(rid)])
  }

  lemma TimedLookupRuns(env: Env, s: State, rid: Rid, pc: Pc)
    requires env.crypto.Valid() && rid !in s.inflight && pc.AuthzTimed? && pc.now == s.clock
    ensures Next(env, s.Go(rid, pc), DoAuthzLookup(rid)) == LookupOutcome(env, s, pc.ctx, pc.reg, pc.read, pc.cookie)
  {
    GoGo(s, rid, pc, pc);
  }

  lemma LookupRuns(env: Env, s: State, rid: Rid, pc: Pc)
    requires env.crypto.Valid() && rid !in s.inflight && pc.AuthzConfigured?
    ensures Run(env, s.Go(rid, pc), LookupSteps(rid))
         == LookupOutcome(env, s.Emit(RegistryRead(s.reg)), pc.ctx, s.reg, |s.log|, pc.cookie)
  {
    var s' := s.Emit(RegistryRead(s.reg));
    var registered := AuthzRegistered(pc.ctx, pc.cookie, s.reg, |s.log|);
    var timed := AuthzTimed(pc.ctx, pc.cookie, s.reg, |s.log|, s.clock);
    OneStep(env, s.Go(rid, pc), DoAuthzRegistry(rid), [DoAuthzClock(rid)] + [DoAuthzLookup(rid)]);
    GoGo(s, rid, pc, registered);
    assert Next(env, s.Go(rid, pc), DoAuthzRegistry(rid)) == s'.Go(rid, registered);
    OneStep(env, s'.Go(rid, registered), DoAuthzClock(rid), [DoAuthzLookup(rid)]);
    GoGo(s', rid, registered, timed);
    assert Next(env, s'.Go(rid, registered), DoAuthzClock(rid)) == s'.Go(rid, timed);
    LastStep(env, s'.Go(rid, timed), DoAuthzLookup(rid));
    TimedLookupRuns(env, s', rid, timed);
  }

  lemma AuthzRuns(env: Env, s: State, rid: Rid, peerTrusted: bool, seen: Option<Seen>, cookie: Bytes)
    requires env.crypto.Valid() && rid !in s.inflight
    ensures Run(env, s, AuthzSteps(rid, peerTrusted, seen, cookie)) == AuthzOutcome(env, s, peerTrusted, seen, cookie)
  {
    var rest := [DoAuthzConfig(rid, cookie)] + LookupSteps(rid);
    OneStep(env, s, DoAuthzStart(rid, peerTrusted, seen), rest);
    if peerTrusted && Usable(seen) {
      var ctx := Resolved(s.cfg, seen.value);
      var resolved, configured := AuthzResolved(ctx), AuthzConfigured(ctx, cookie);
      OneStep(env, s.Go(rid, resolved), DoAuthzConfig(rid, cookie), LookupSteps(rid));
      GoGo(s, rid, resolved, configured);
      if IsEndpoint(s.cfg, ctx.uri) {
        Idle(env, s.Emit(Carved(ctx, s.cfg)), rid, LookupSteps(rid));
      } else if !ctx.known {
        Idle(env, s, rid, LookupSteps(rid));
      } else {
        LookupRuns(env, s, rid, configured);
      }
    } else {
      Idle(env, s, rid, rest);
    }
  }

  // ---- enrollment -----------------------------------------------------------

  datatype EnrollInput = EnrollInput(seen: Option<Seen>, post: bool, withinRate: bool, code: Bytes)

  function EnrollOutcome(s: State, e: EnrollInput): State
  {
    if !Usable(e.seen) || !Resolved(s.cfg, e.seen.value).known || !e.post || !e.withinRate || e.code == [] then s
    else
      match Live(s.codes, e.code, s.clock)
      case None => s
      case Some(c) => if Lookup(s.reg, c.kid).None? then s else SpendOutcome(s, e.code, c)
  }

  /** Nothing coming between, the code vetted is the code consumed and its kid still there. */
  function SpendOutcome(s: State, code: Bytes, c: EnrollCode): State
    requires c.kid in s.reg.tokens
  {
    s.(codes := s.codes - {code})
     .Emit(KidVetted(code, c.kid)).Emit(CodeTaken(code, c, |s.log|, s.clock))
     .Emit(SecretSent(code, c.kid, s.reg.tokens[c.kid].secret, |s.log| + 1))
  }

  function EnrollSteps(rid: Rid, e: EnrollInput, at: I64): seq<Action>
  {
    [DoEnrollStart(rid, e.seen, e.post, e.withinRate, e.code)] + ([DoEnrollPeek(rid, at)] + SpendSteps(rid, at))
  }

  function SpendSteps(rid: Rid, at: I64): seq<Action>
  {
    [DoEnrollVet(rid)] + ([DoEnrollConsume(rid, at)] + [DoEnrollSend(rid)])
  }

  lemma ConsumeStep(env: Env, s: State, rid: Rid, pc: Pc, c: EnrollCode)
    requires env.crypto.Valid() && rid !in s.inflight && pc.EnrollVetted? && Live(s.codes, pc.code, s.clock) == Some(c)
    ensures Next(env, s.Go(rid, pc), DoEnrollConsume(rid, s.clock))
         == s.(codes := s.codes - {pc.code}).Emit(CodeTaken(pc.code, c, pc.vet, s.clock)).Go(rid, EnrollConsumed(pc.code, c, |s.log|))
  {
    GoGo(s, rid, pc, EnrollConsumed(pc.code, c, |s.log|));
  }

  lemma SendStep(env: Env, s: State, rid: Rid, pc: Pc)
    requires env.crypto.Valid() && rid !in s.inflight && pc.EnrollConsumed? && pc.entry.kid in s.reg.tokens
    ensures Next(env, s.Go(rid, pc), DoEnrollSend(rid))
         == s.Emit(SecretSent(pc.code, pc.entry.kid, s.reg.tokens[pc.entry.kid].secret, pc.taken))
  {
    GoGo(s, rid, pc, pc);
  }

  lemma TakingRuns(env: Env, s: State, rid: Rid, pc: Pc, c: EnrollCode)
    requires env.crypto.Valid() && rid !in s.inflight && pc.EnrollVetted?
    requires Live(s.codes, pc.code, s.clock) == Some(c) && c.kid in s.reg.tokens
    ensures Run(env, s.Go(rid, pc), [DoEnrollConsume(rid, s.clock)] + [DoEnrollSend(rid)])
         == s.(codes := s.codes - {pc.code}).Emit(CodeTaken(pc.code, c, pc.vet, s.clock))
             .Emit(SecretSent(pc.code, c.kid, s.reg.tokens[c.kid].secret, |s.log|))
  {
    var consumed := EnrollConsumed(pc.code, c, |s.log|);
    var s' := s.(codes := s.codes - {pc.code}).Emit(CodeTaken(pc.code, c, pc.vet, s.clock));
    ConsumeStep(env, s, rid, pc, c);
    SendStep(env, s', rid, consumed);
    TwoSteps(env, s.Go(rid, pc), DoEnrollConsume(rid, s.clock), s'.Go(rid, consumed), DoEnrollSend(rid));
  }

  lemma VetStep(env: Env, s: State, rid: Rid, pc: Pc)
    requires env.crypto.Valid() && rid !in s.inflight && pc.EnrollPeeked?
    ensures Next(env, s.Go(rid, pc), DoEnrollVet(rid))
         == if pc.kid in s.reg.tokens then s.Emit(KidVetted(pc.code, pc.kid)).Go(rid, EnrollVetted(pc.code, |s.log|)) else s
  {
    GoGo(s, rid, pc, EnrollVetted(pc.code, |s.log|));
  }

  lemma SpendRuns(env: Env, s: State, rid: Rid, code: Bytes, c: EnrollCode)
    requires env.crypto.Valid() && rid !in s.inflight && Live(s.codes, code, s.clock) == Some(c)
    ensures Run(env, s.Go(rid, EnrollPeeked(code, c.kid)), SpendSteps(rid, s.clock))
         == if c.kid in s.reg.tokens then SpendOutcome(s, code, c) else s
  {
    var peeked, vetted := EnrollPeeked(code, c.kid), EnrollVetted(code, |s.log|);
    VetStep(env, s, rid, peeked);
    OneStep(env, s.Go(rid, peeked), DoEnrollVet(rid), [DoEnrollConsume(rid, s.clock)] + [DoEnrollSend(rid)]);
    if c.kid in s.reg.tokens {
      TakingRuns(env, s.Emit(KidVetted(code, c.kid)), rid, vetted, c);
    } else {
      Idle(env, s, rid, [DoEnrollConsume(rid, s.clock)] + [DoEnrollSend(rid)]);
    }
  }

  lemma PeekRuns(env: Env, s: State, rid: Rid, code: Bytes)
    requires env.crypto.Valid() && rid !in s.inflight
    ensures Run(env, s.Go(rid, EnrollAdmitted(code)), [DoEnrollPeek(rid, s.clock)] + SpendSteps(rid, s.clock))
         == match Live(s.codes, code, s.clock)
            case None => s
            case Some(c) => if c.kid in s.reg.tokens then SpendOutcome(s, code, c) else s
  {
    var admitted := EnrollAdmitted(code);
    PeekStep(env, s, rid, code);
    OneStep(env, s.Go(rid, admitted), DoEnrollPeek(rid, s.clock), SpendSteps(rid, s.clock));
    match Live(s.codes, code, s.clock)
    case None => Idle(env, s, rid, SpendSteps(rid, s.clock));
    case Some(c) => SpendRuns(env, s, rid, code, c);
  }

  lemma PeekStep(env: Env, s: State, rid: Rid, code: Bytes)
    requires env.crypto.Valid() && rid !in s.inflight
    ensures Next(env, s.Go(rid, EnrollAdmitted(code)), DoEnrollPeek(rid, s.clock))
         == match Live(s.codes, code, s.clock)
            case None => s
            case Some(c) => s.Go(rid, EnrollPeeked(code, c.kid))
  {
    var live := Live(s.codes, code, s.clock);
    GoGo(s, rid, EnrollAdmitted(code), if live.Some? then EnrollPeeked(code, live.value.kid) else EnrollAdmitted(code));
  }

  lemma EnrollStartStep(env: Env, s: State, rid: Rid, e: EnrollInput)
    requires env.crypto.Valid() && rid !in s.inflight
    ensures Next(env, s, DoEnrollStart(rid, e.seen, e.post, e.withinRate, e.code))
         == if Usable(e.seen) && Resolved(s.cfg, e.seen.value).known && e.post && e.withinRate && e.code != []
            then s.Go(rid, EnrollAdmitted(e.code)) else s
  {
  }

  lemma EnrollRuns(env: Env, s: State, rid: Rid, e: EnrollInput)
    requires env.crypto.Valid() && rid !in s.inflight
    ensures Run(env, s, EnrollSteps(rid, e, s.clock)) == EnrollOutcome(s, e)
  {
    var rest := [DoEnrollPeek(rid, s.clock)] + SpendSteps(rid, s.clock);
    EnrollStartStep(env, s, rid, e);
    OneStep(env, s, DoEnrollStart(rid, e.seen, e.post, e.withinRate, e.code), rest);
    if Usable(e.seen) && Resolved(s.cfg, e.seen.value).known && e.post && e.withinRate && e.code != [] {
      PeekRuns(env, s, rid, e.code);
    } else {
      Idle(env, s, rid, rest);
    }
  }

  // ---- administration -------------------------------------------------------

  function GrantOf(env: Env, s: State, pc: Pc): Grant
    requires env.crypto.Valid() && pc.AdminTimed?
  {
    Grant(pc.kid, pc.service, pc.ip, ByIp, [], pc.now, pc.now + pc.ttl, pc.manual, Fingerprint(env.crypto, Lookup(s.reg, pc.kid)))
  }

  function VouchOutcome(env: Env, s: State, pc: Pc): State
    requires env.crypto.Valid() && pc.AdminTimed?
  {
    var g := GrantOf(env, s, pc);
    s.(grants := PutIn(s.grants, g, [])).Emit(Granted(g, [], FromAdmin))
  }

  function GrantOutcome(env: Env, s: State, service: Bytes, ip: Bytes, ttl: int, kid: Bytes): State
    requires env.crypto.Valid()
  {
    match Named(env, s.cfg, service, ip)
    case None => s
    case Some((name, addr)) =>
      VouchOutcome(env, s, AdminTimed(name, addr, if ttl <= 0 then s.cfg.grantTtl else ttl,
                                      if kid == [] then ManualKid() else kid, kid == [], s.clock))
  }

  lemma GrantRuns(env: Env, s: State, rid: Rid, service: Bytes, ip: Bytes, ttl: int, kid: Bytes)
    requires env.crypto.Valid() && rid !in s.inflight
    ensures Run(env, s, GrantSteps(rid, service, ip, ttl, kid)) == GrantOutcome(env, s, service, ip, ttl, kid)
  {
    OneStep(env, s, DoAdminGrantStart(rid, service, ip, ttl, kid), TimeSteps(rid));
    match Named(env, s.cfg, service, ip)
    case None => Idle(env, s, rid, TimeSteps(rid));
    case Some((name, addr)) =>
      TimeRuns(env, s, rid, AdminGranting(name, addr, if ttl <= 0 then s.cfg.grantTtl else ttl,
                                          if kid == [] then ManualKid() else kid, kid == []));
  }

  function GrantSteps(rid: Rid, service: Bytes, ip: Bytes, ttl: int, kid: Bytes): seq<Action>
  {
    [DoAdminGrantStart(rid, service, ip, ttl, kid)] + TimeSteps(rid)
  }

  function TimeSteps(rid: Rid): seq<Action>
  {
    [DoAdminGrantClock(rid)] + VouchSteps(rid)
  }

  function VouchSteps(rid: Rid): seq<Action>
  {
    [DoAdminGrantVouch(rid)] + [DoAdminGrantPut(rid)]
  }

  lemma TimeRuns(env: Env, s: State, rid: Rid, pc: Pc)
    requires env.crypto.Valid() && rid !in s.inflight && pc.AdminGranting?
    ensures Run(env, s.Go(rid, pc), TimeSteps(rid))
         == VouchOutcome(env, s, AdminTimed(pc.service, pc.ip, pc.ttl, pc.kid, pc.manual, s.clock))
  {
    var timed := AdminTimed(pc.service, pc.ip, pc.ttl, pc.kid, pc.manual, s.clock);
    OneStep(env, s.Go(rid, pc), DoAdminGrantClock(rid), VouchSteps(rid));
    GoGo(s, rid, pc, timed);
    assert Next(env, s.Go(rid, pc), DoAdminGrantClock(rid)) == s.Go(rid, timed);
    VouchRuns(env, s, rid, timed);
  }

  lemma VouchStep(env: Env, s: State, rid: Rid, pc: Pc)
    requires env.crypto.Valid() && rid !in s.inflight && pc.AdminTimed?
    ensures Next(env, s.Go(rid, pc), DoAdminGrantVouch(rid)) == s.Go(rid, AdminVouched(GrantOf(env, s, pc)))
  {
    GoGo(s, rid, pc, AdminVouched(GrantOf(env, s, pc)));
  }

  lemma GrantPutStep(env: Env, s: State, rid: Rid, g: Grant)
    requires env.crypto.Valid() && rid !in s.inflight
    ensures Next(env, s.Go(rid, AdminVouched(g)), DoAdminGrantPut(rid)) == s.(grants := PutIn(s.grants, g, [])).Emit(Granted(g, [], FromAdmin))
  {
    GoGo(s, rid, AdminVouched(g), AdminVouched(g));
  }

  lemma VouchRuns(env: Env, s: State, rid: Rid, pc: Pc)
    requires env.crypto.Valid() && rid !in s.inflight && pc.AdminTimed?
    ensures Run(env, s.Go(rid, pc), VouchSteps(rid)) == VouchOutcome(env, s, pc)
  {
    var g := GrantOf(env, s, pc);
    VouchStep(env, s, rid, pc);
    GrantPutStep(env, s, rid, g);
    TwoSteps(env, s.Go(rid, pc), DoAdminGrantVouch(rid), s.Go(rid, AdminVouched(g)), DoAdminGrantPut(rid));
  }

  function RevokeOutcome(env: Env, s: State, service: Bytes, ip: Bytes): State
  {
    match Named(env, s.cfg, service, ip)
    case None => s
    case Some((name, addr)) => s.(grants := RevokeIn(s.grants, name, addr)).Emit(Revoked(name, addr))
  }

  lemma RevokeStartStep(env: Env, s: State, rid: Rid, service: Bytes, ip: Bytes)
    requires env.crypto.Valid() && rid !in s.inflight
    ensures Next(env, s, DoAdminRevokeStart(rid, service, ip))
         == match Named(env, s.cfg, service, ip)
            case None => s
            case Some((name, addr)) => s.Go(rid, AdminRevoking(name, addr))
  {
  }

  lemma RevokeStep(env: Env, s: State, rid: Rid, pc: Pc)
    requires env.crypto.Valid() && rid !in s.inflight && pc.AdminRevoking?
    ensures Next(env, s.Go(rid, pc), DoAdminRevoke(rid))
         == s.(grants := RevokeIn(s.grants, pc.service, pc.ip)).Emit(Revoked(pc.service, pc.ip))
  {
    GoGo(s, rid, pc, pc);
  }

  lemma RevokeRuns(env: Env, s: State, rid: Rid, service: Bytes, ip: Bytes)
    requires env.crypto.Valid() && rid !in s.inflight
    ensures Run(env, s, [DoAdminRevokeStart(rid, service, ip)] + [DoAdminRevoke(rid)]) == RevokeOutcome(env, s, service, ip)
  {
    RevokeStartStep(env, s, rid, service, ip);
    match Named(env, s.cfg, service, ip)
    case None =>
      OneStep(env, s, DoAdminRevokeStart(rid, service, ip), [DoAdminRevoke(rid)]);
      Idle(env, s, rid, [DoAdminRevoke(rid)]);
    case Some((name, addr)) =>
      RevokeStep(env, s, rid, AdminRevoking(name, addr));
      TwoSteps(env, s, DoAdminRevokeStart(rid, service, ip), s.Go(rid, AdminRevoking(name, addr)), DoAdminRevoke(rid));
  }

  function CodeOutcome(env: Env, s: State, kid: Bytes, origins: seq<Bytes>, ttl: int, random: Option<Bytes>): State
  {
    if Lookup(s.reg, kid).None? then s else StoreOutcome(env, s, kid, origins, CodeTtl(s.cfg, ttl), random)
  }

  function StoreOutcome(env: Env, s: State, kid: Bytes, origins: seq<Bytes>, ttl: int, random: Option<Bytes>): State
  {
    if random.None? then s
    else
      var (code, entry) := (env.encode(random.value), EnrollCode(kid, origins, s.clock + ttl));
      s.(codes := s.codes[code := entry]).Emit(CodePut(code, entry))
  }

  function CodeSteps(rid: Rid, kid: Bytes, origins: seq<Bytes>, ttl: int, random: Option<Bytes>): seq<Action>
  {
    [DoAdminCodeStart(rid, kid, origins, ttl)] + ([DoAdminCodeConfig(rid)] + CodeTimeSteps(rid, random))
  }

  function CodeTimeSteps(rid: Rid, random: Option<Bytes>): seq<Action>
  {
    [DoAdminCodeClock(rid)] + [DoAdminCodePut(rid, random)]
  }

  lemma CodeClockStep(env: Env, s: State, rid: Rid, pc: Pc)
    requires env.crypto.Valid() && rid !in s.inflight && pc.AdminCodeConfigured?
    ensures Next(env, s.Go(rid, pc), DoAdminCodeClock(rid)) == s.Go(rid, AdminCodeReady(EnrollCode(pc.kid, pc.origins, s.clock + pc.ttl)))
  {
    GoGo(s, rid, pc, AdminCodeReady(EnrollCode(pc.kid, pc.origins, s.clock + pc.ttl)));
  }

  lemma CodePutStep(env: Env, s: State, rid: Rid, pc: Pc, random: Option<Bytes>)
    requires env.crypto.Valid() && rid !in s.inflight && pc.AdminCodeReady?
    ensures Next(env, s.Go(rid, pc), DoAdminCodePut(rid, random))
         == if random.None? then s
            else s.(codes := s.codes[env.encode(random.value) := pc.entry]).Emit(CodePut(env.encode(random.value), pc.entry))
  {
    GoGo(s, rid, pc, pc);
  }

  lemma CodeTimeRuns(env: Env, s: State, rid: Rid, pc: Pc, random: Option<Bytes>)
    requires env.crypto.Valid() && rid !in s.inflight && pc.AdminCodeConfigured?
    ensures Run(env, s.Go(rid, pc), CodeTimeSteps(rid, random)) == StoreOutcome(env, s, pc.kid, pc.origins, pc.ttl, random)
  {
    var ready := AdminCodeReady(EnrollCode(pc.kid, pc.origins, s.clock + pc.ttl));
    CodeClockStep(env, s, rid, pc);
    CodePutStep(env, s, rid, ready, random);
    TwoSteps(env, s.Go(rid, pc), DoAdminCodeClock(rid), s.Go(rid, ready), DoAdminCodePut(rid, random));
  }

  lemma CodeStartStep(env: Env, s: State, rid: Rid, kid: Bytes, origins: seq<Bytes>, ttl: int)
    requires env.crypto.Valid() && rid !in s.inflight
    ensures Next(env, s, DoAdminCodeStart(rid, kid, origins, ttl))
         == if Lookup(s.reg, kid).None? then s else s.Go(rid, AdminCoding(kid, origins, ttl))
  {
  }

  lemma CodeConfigStep(env: Env, s: State, rid: Rid, pc: Pc)
    requires env.crypto.Valid() && rid !in s.inflight && pc.AdminCoding?
    ensures Next(env, s.Go(rid, pc), DoAdminCodeConfig(rid)) == s.Go(rid, AdminCodeConfigured(pc.kid, pc.origins, CodeTtl(s.cfg, pc.ttl)))
  {
    GoGo(s, rid, pc, AdminCodeConfigured(pc.kid, pc.origins, CodeTtl(s.cfg, pc.ttl)));
  }

  lemma CodeConfigRuns(env: Env, s: State, rid: Rid, pc: Pc, random: Option<Bytes>)
    requires env.crypto.Valid() && rid !in s.inflight && pc.AdminCoding?
    ensures Run(env, s.Go(rid, pc), [DoAdminCodeConfig(rid)] + CodeTimeSteps(rid, random))
         == StoreOutcome(env, s, pc.kid, pc.origins, CodeTtl(s.cfg, pc.ttl), random)
  {
    CodeConfigStep(env, s, rid, pc);
    OneStep(env, s.Go(rid, pc), DoAdminCodeConfig(rid), CodeTimeSteps(rid, random));
    CodeTimeRuns(env, s, rid, AdminCodeConfigured(pc.kid, pc.origins, CodeTtl(s.cfg, pc.ttl)), random);
  }

  lemma CodeRuns(env: Env, s: State, rid: Rid, kid: Bytes, origins: seq<Bytes>, ttl: int, random: Option<Bytes>)
    requires env.crypto.Valid() && rid !in s.inflight
    ensures Run(env, s, CodeSteps(rid, kid, origins, ttl, random)) == CodeOutcome(env, s, kid, origins, ttl, random)
  {
    var rest := [DoAdminCodeConfig(rid)] + CodeTimeSteps(rid, random);
    CodeStartStep(env, s, rid, kid, origins, ttl);
    OneStep(env, s, DoAdminCodeStart(rid, kid, origins, ttl), rest);
    if Lookup(s.reg, kid).None? {
      Idle(env, s, rid, rest);
    } else {
      CodeConfigRuns(env, s, rid, AdminCoding(kid, origins, ttl), random);
    }
  }

  // ---- sweeping -------------------------------------------------------------

  function SweepOutcome(s: State): State
  {
    var at := s.clock;
    s.(grants := SweepIn(s.grants, at), spent := SweepSpent(s.spent, at), codes := SweepCodes(s.codes, at))
     .Emit(SweptGrants(at)).Emit(SweptNonces(at)).Emit(SweptCodes(at))
  }

  function SweepSteps(at: I64): seq<Action>
  {
    [DoSweepGrants(at)] + ([DoSweepNonces(at)] + [DoSweepCodes(at)])
  }

  lemma SweepStep(env: Env, s: State)
    requires env.crypto.Valid()
    ensures Next(env, s, DoSweepGrants(s.clock)) == s.(grants := SweepIn(s.grants, s.clock)).Emit(SweptGrants(s.clock))
    ensures Next(env, s, DoSweepNonces(s.clock)) == s.(spent := SweepSpent(s.spent, s.clock)).Emit(SweptNonces(s.clock))
    ensures Next(env, s, DoSweepCodes(s.clock)) == s.(codes := SweepCodes(s.codes, s.clock)).Emit(SweptCodes(s.clock))
  {
  }

  lemma SweepRuns(env: Env, s: State)
    requires env.crypto.Valid()
    ensures Run(env, s, SweepSteps(s.clock)) == SweepOutcome(s)
  {
    var t := s.clock;
    var s1 := s.(grants := SweepIn(s.grants, t)).Emit(SweptGrants(t));
    var s2 := s1.(spent := SweepSpent(s.spent, t)).Emit(SweptNonces(t));
    OneStep(env, s, DoSweepGrants(t), [DoSweepNonces(t)] + [DoSweepCodes(t)]);
    SweepStep(env, s);
    SweepStep(env, s1);
    SweepStep(env, s2);
    OneStep(env, s1, DoSweepNonces(t), [DoSweepCodes(t)]);
    LastStep(env, s2, DoSweepCodes(t));
  }

  // ---- undisturbed handlers keep the invariant ------------------------------

  lemma {:induction false} Beyond(s: set<Rid>) returns (n: Rid)
    ensures forall x :: x in s ==> x < n
  {
    n := 0;
    if s != {} {
      var x :| x in s;
      var m := Beyond(s - {x});
      n := if m > x then m else x + 1;
      assert forall y :: y in s ==> y == x || y in s - {x};
    }
  }

  /** There is always a name for one more request. */
  lemma FreshRid(s: State) returns (rid: Rid)
    ensures rid !in s.inflight
  {
    rid := Beyond(s.inflight.Keys);
  }

  lemma RespondKeepsInv(env: Env, s: State, k: KnockInput)
    requires env.Valid() && Inv(env, s)
    ensures Inv(env, RespondOutcome(env, s, k))
  {
    var rid := FreshRid(s);
    RespondRuns(env, s, rid, k);
    RunKeeps(env, s, RespondSteps(rid, k));
  }

  lemma AuthzKeepsInv(env: Env, s: State, peerTrusted: bool, seen: Option<Seen>, cookie: Bytes)
    requires env.Valid() && Inv(env, s)
    ensures Inv(env, AuthzOutcome(env, s, peerTrusted, seen, cookie))
  {
    var rid := FreshRid(s);
    AuthzRuns(env, s, rid, peerTrusted, seen, cookie);
    RunKeeps(env, s, AuthzSteps(rid, peerTrusted, seen, cookie));
  }

  lemma EnrollKeepsInv(env: Env, s: State, e: EnrollInput)
    requires env.Valid() && Inv(env, s)
    ensures Inv(env, EnrollOutcome(s, e))
  {
    var rid := FreshRid(s);
    EnrollRuns(env, s, rid, e);
    RunKeeps(env, s, EnrollSteps(rid, e, s.clock));
  }

  lemma GrantKeepsInv(env: Env, s: State, service: Bytes, ip: Bytes, ttl: int, kid: Bytes)
    requires env.Valid() && Inv(env, s)
    ensures Inv(env, GrantOutcome(env, s, service, ip, ttl, kid))
  {
    var rid := FreshRid(s);
    GrantRuns(env, s, rid, service, ip, ttl, kid);
    RunKeeps(env, s, GrantSteps(rid, service, ip, ttl, kid));
  }

  lemma RevokeKeepsInv(env: Env, s: State, service: Bytes, ip: Bytes)
    requires env.Valid() && Inv(env, s)
    ensures Inv(env, RevokeOutcome(env, s, service, ip))
  {
    var rid := FreshRid(s);
    RevokeRuns(env, s, rid, service, ip);
    RunKeeps(env, s, [DoAdminRevokeStart(rid, service, ip)] + [DoAdminRevoke(rid)]);
  }

  lemma CodeKeepsInv(env: Env, s: State, kid: Bytes, origins: seq<Bytes>, ttl: int, random: Option<Bytes>)
    requires env.Valid() && Inv(env, s)
    ensures Inv(env, CodeOutcome(env, s, kid, origins, ttl, random))
  {
    var rid := FreshRid(s);
    CodeRuns(env, s, rid, kid, origins, ttl, random);
    RunKeeps(env, s, CodeSteps(rid, kid, origins, ttl, random));
  }

  lemma SweepKeepsInv(env: Env, s: State)
    requires env.Valid() && Inv(env, s)
    ensures Inv(env, SweepOutcome(s))
  {
    SweepRuns(env, s);
    RunKeeps(env, s, SweepSteps(s.clock));
  }
}
