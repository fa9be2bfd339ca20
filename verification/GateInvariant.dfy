/** What every step of the gate keeps. The log remembers what a run did; everything the stores and the
    requests in flight hold is accounted for by it. */
module GateInvariant {
  import opened ByteStrings
  import opened Knock
  import opened Registries
  import opened GrantStores
  import opened SingleUseStores
  import opened Configs
  import opened Gate

  // ---- what the log says ----------------------------------------------------

  /** What the handlers read and write, apart from the configuration. */
  datatype Stores = Stores(reg: Registry, grants: Grants, spent: Spent, codes: Codes)

  function Held(s: State): Stores
  {
    Stores(s.reg, s.grants, s.spent, s.codes)
  }

  const NOTHING: Stores := Stores(Registry(map[], map[]), map[], map[], map[])

  /** The stores as the log so far leaves them. */
  function Replay(log: Log): Stores
  {
    if log == [] then NOTHING else ReplayOne(Replay(log[..|log| - 1]), log[|log| - 1])
  }

  function ReplayOne(st: Stores, e: Event): Stores
  {
    match e
    case Reloaded(_, reg) => st.(reg := reg)
    case Granted(g, olds, _) => st.(grants := PutIn(st.grants, g, olds))
    case Revoked(service, ip) => st.(grants := RevokeIn(st.grants, service, ip))
    case RevokedKid(kid) => st.(grants := RevokeTokenIn(st.grants, kid))
    case SweptGrants(at) => st.(grants := SweepIn(st.grants, at))
    case Claimed(_, id, now, ttl, _) => st.(spent := st.spent[id := now + ttl])
    case SweptNonces(at) => st.(spent := SweepSpent(st.spent, at))
    case CodePut(code, entry) => st.(codes := st.codes[code := entry])
    case CodeTaken(code, _, _, _) => st.(codes := st.codes - {code})
    case CodeDropped(code, _, _) => st.(codes := st.codes - {code})
    case SweptCodes(at) => st.(codes := SweepCodes(st.codes, at))
    case _ => st
  }

  lemma ReplaySnoc(log: Log, e: Event)
    ensures Replay(log + [e]) == ReplayOne(Replay(log), e)
  {
    assert (log + [e])[..|log|] == log;
  }

  /** The configuration was in force at some time: from start-up, or from a reload. */
  predicate Loaded(log: Log, cfg: Settings)
  {
    exists i :: 0 <= i < |log| && LoadsAt(log, i, cfg)
  }

  predicate LoadsAt(log: Log, i: nat, cfg: Settings)
    requires i < |log|
  {
    log[i].Reloaded? && log[i].cfg == cfg
  }

  predicate VettedAt(log: Log, v: nat, code: Bytes)
  {
    v < |log| && log[v].KidVetted? && log[v].code == code
  }

  predicate TakenAt(log: Log, t: nat, code: Bytes)
  {
    t < |log| && log[t].CodeTaken? && log[t].code == code
  }

  predicate ClaimUnused(log: Log, claim: nat)
  {
    forall i :: 0 <= i < |log| && log[i].Granted? ==> log[i].source != FromKnock(claim)
  }

  predicate TakingUnused(log: Log, taken: nat)
  {
    forall i :: 0 <= i < |log| && log[i].SecretSent? ==> log[i].taken != taken
  }

  // ---- what each event rests on ---------------------------------------------

  /** The knock proved at place p is the one in hand. */
  predicate ProofAt(log: Log, p: nat, ctx: Ctx, cfg: Settings, kid: Bytes, now: I64, token: Token)
  {
    && p < |log| && log[p].Proved?
    && log[p].ctx == ctx && log[p].cfg == cfg && log[p].kid == kid && log[p].now == now && log[p].token == token
  }

  /** A proof is accepted with a fresh nonce of ours, under the registry in force, by a kid in good standing. */
  predicate ProvedRightly(env: Env, log: Log, e: Event)
    requires e.Proved?
  {
    && env.nonceOk(e.nonce, e.ctx.service, e.ctx.ip, e.now, e.cfg.nonceTtl, e.cfg.v6Prefix)
    && Loaded(log, e.cfg)
    && e.reg == Replay(log).reg
    && Authorize(e.reg, e.kid, e.ctx.service, e.now) == Ok(e.token)
    && env.proofOk(e.token.secret, e.ctx.service, e.kid, e.nonce, e.tag)
  }

  /** A claim burns the nonce a proof was accepted with, which was claimable until then. */
  predicate ClaimedRightly(env: Env, log: Log, e: Event)
    requires e.Claimed?
  {
    && e.proof < |log| && log[e.proof].Proved?
    && log[e.proof].nonce == e.nonce && log[e.proof].now == e.now && log[e.proof].cfg.nonceTtl == e.ttl
    && |e.nonce| == NONCE_LEN && e.id == NonceId(env, e.nonce)
    && Claimable(Replay(log).spent, e.id, e.now)
  }

  /** A knock's grant is minted from its own claim, once, and says what was proved. */
  ghost predicate GrantedRightly(env: Env, log: Log, e: Event)
    requires e.Granted? && env.crypto.Valid()
  {
    match e.source
    case FromAdmin => e.grant.binding == ByIp
    case FromKnock(c) =>
      && c < |log| && log[c].Claimed? && ClaimUnused(log, c)
      && var p := log[c].proof;
      && p < |log| && log[p].Proved?
      && exists id :: e.grant == Minted(env, log[p].ctx, log[p].cfg, log[p].kid, log[p].now, log[p].token, id)
  }

  /** A 204 rests on a stored grant, honoured against the registry the request read. */
  predicate AdmittedRightly(env: Env, log: Log, e: Event)
    requires e.Admitted? && env.crypto.Valid()
  {
    && e.read < |log| && log[e.read] == RegistryRead(e.reg)
    && Allowed(env.crypto, Replay(log).grants, e.ctx.service, e.ctx.ip, e.reg, e.now, e.cookie) == Some(e.grant)
    && (BindingOf(e.ctx.svc) == ByIpCookie ==> e.grant.binding == ByIpCookie)
  }

  ghost predicate Justified(env: Env, log: Log, e: Event)
    requires env.crypto.Valid()
  {
    match e
    case Proved(_, _, _, _, _, _, _, _) => ProvedRightly(env, log, e)
    case Claimed(_, _, _, _, _) => ClaimedRightly(env, log, e)
    case Granted(_, _, _) => GrantedRightly(env, log, e)
    case RegistryRead(reg) => reg == Replay(log).reg
    case Carved(ctx, cfg) => IsEndpoint(cfg, ctx.uri)
    case Admitted(_, _, _, _, _, _) => AdmittedRightly(env, log, e)
    case KidVetted(_, kid) => kid in Replay(log).reg.tokens
    case CodeTaken(code, entry, vet, at) =>
      VettedAt(log, vet, code) && code in Replay(log).codes && Replay(log).codes[code] == entry && at < entry.exp
    case CodeDropped(code, vet, at) =>
      VettedAt(log, vet, code) && (code in Replay(log).codes ==> Replay(log).codes[code].exp <= at)
    case SecretSent(code, kid, secret, taken) =>
      && TakenAt(log, taken, code) && TakingUnused(log, taken) && log[taken].entry.kid == kid
      && kid in Replay(log).reg.tokens && Replay(log).reg.tokens[kid].secret == secret
    case _ => true
  }

  ghost predicate LogOk(env: Env, log: Log)
    requires env.crypto.Valid()
  {
    forall i :: 0 <= i < |log| ==> Justified(env, log[..i], log[i])
  }

  lemma LogGrows(env: Env, log: Log, e: Event)
    requires env.crypto.Valid() && LogOk(env, log) && Justified(env, log, e)
    ensures LogOk(env, log + [e])
  {
    var log' := log + [e];
    forall i | 0 <= i < |log'| ensures Justified(env, log'[..i], log'[i]) {
      if i < |log| {
        assert log'[..i] == log[..i];
      } else {
        assert log'[..i] == log;
      }
    }
  }

  // ---- what each request in flight rests on ---------------------------------

  predicate PcOk(env: Env, pc: Pc, log: Log)
  {
    match pc
    case RespondConfigured(_, cfg) => Loaded(log, cfg)
    case RespondFresh(ctx, cfg, _, nonce, _, now) =>
      Loaded(log, cfg) && env.nonceOk(nonce, ctx.service, ctx.ip, now, cfg.nonceTtl, cfg.v6Prefix)
    case RespondProved(ctx, cfg, kid, nonce, now, token, proof) =>
      ProofAt(log, proof, ctx, cfg, kid, now, token) && log[proof].nonce == nonce && |nonce| == NONCE_LEN
    case RespondClaimed(ctx, cfg, kid, now, token, claim) =>
      && claim < |log| && log[claim].Claimed? && ClaimUnused(log, claim)
      && ProofAt(log, log[claim].proof, ctx, cfg, kid, now, token)
    case AuthzRegistered(_, _, reg, read) => read < |log| && log[read] == RegistryRead(reg)
    case AuthzTimed(_, _, reg, read, _) => read < |log| && log[read] == RegistryRead(reg)
    case EnrollVetted(code, vet) => VettedAt(log, vet, code)
    case EnrollConsumed(code, entry, taken) => TakenAt(log, taken, code) && TakingUnused(log, taken) && log[taken].entry == entry
    case AdminVouched(g) => g.binding == ByIp
    case _ => true
  }

  /** No two requests hold the same claim, or the same taking of a code. */
  predicate Apart(p: Pc, q: Pc)
  {
    && (p.RespondClaimed? && q.RespondClaimed? ==> p.claim != q.claim)
    && (p.EnrollConsumed? && q.EnrollConsumed? ==> p.taken != q.taken)
  }

  predicate InflightOk(env: Env, inflight: map<Rid, Pc>, log: Log)
  {
    && (forall r :: r in inflight ==> PcOk(env, inflight[r], log))
    && (forall r, q :: r in inflight && q in inflight && r != q ==> Apart(inflight[r], inflight[q]))
  }

  /** The log is sound, the stores are what it makes them, and it accounts for every request in flight. */
  ghost predicate Inv(env: Env, s: State)
    requires env.crypto.Valid()
  {
    && LogOk(env, s.log)
    && Held(s) == Replay(s.log)
    && Loaded(s.log, s.cfg)
    && InflightOk(env, s.inflight, s.log)
  }

  // ---- what an appended event leaves standing -------------------------------

  /** The event uses up neither a claim nor a taking this request holds. */
  predicate LeavesAlone(e: Event, pc: Pc)
  {
    && (e.Granted? && pc.RespondClaimed? ==> e.source != FromKnock(pc.claim))
    && (e.SecretSent? && pc.EnrollConsumed? ==> e.taken != pc.taken)
  }

  predicate LeavesAllAlone(e: Event, inflight: map<Rid, Pc>)
  {
    forall r :: r in inflight ==> LeavesAlone(e, inflight[r])
  }

  lemma LoadedStays(log: Log, cfg: Settings, e: Event)
    requires Loaded(log, cfg)
    ensures Loaded(log + [e], cfg)
  {
    var i :| 0 <= i < |log| && LoadsAt(log, i, cfg);
    assert LoadsAt(log + [e], i, cfg);
  }

  lemma PcSurvives(env: Env, pc: Pc, log: Log, e: Event)
    requires PcOk(env, pc, log) && LeavesAlone(e, pc)
    ensures PcOk(env, pc, log + [e])
  {
    if pc.RespondConfigured? || pc.RespondFresh? {
      LoadedStays(log, pc.cfg, e);
    }
  }

  lemma InflightSurvives(env: Env, inflight: map<Rid, Pc>, log: Log, e: Event)
    requires InflightOk(env, inflight, log) && LeavesAllAlone(e, inflight)
    ensures InflightOk(env, inflight, log + [e])
  {
    forall r | r in inflight ensures PcOk(env, inflight[r], log + [e]) {
      assert LeavesAlone(e, inflight[r]);
      PcSurvives(env, inflight[r], log, e);
    }
  }

  /** What a request uses up on finishing, no other request holds. */
  lemma FinishingFreesOthers(env: Env, inflight: map<Rid, Pc>, log: Log, rid: Rid, e: Event)
    requires InflightOk(env, inflight, log) && rid in inflight
    requires e.Granted? && e.source.FromKnock? ==> inflight[rid].RespondClaimed? && inflight[rid].claim == e.source.claim
    requires e.SecretSent? ==> inflight[rid].EnrollConsumed? && inflight[rid].taken == e.taken
    ensures LeavesAllAlone(e, inflight - {rid})
  {
    forall r | r in inflight - {rid} ensures LeavesAlone(e, inflight[r]) {
      assert Apart(inflight[r], inflight[rid]);
    }
  }

  // ---- the three kinds of step ----------------------------------------------

  /** A request moves on. */
  lemma Moves(env: Env, s: State, rid: Rid, pc: Pc)
    requires env.crypto.Valid() && Inv(env, s) && PcOk(env, pc, s.log)
    requires forall q :: q in s.inflight && q != rid ==> Apart(pc, s.inflight[q])
    ensures Inv(env, s.Go(rid, pc))
  {
  }

  /** A request is answered. */
  lemma Finishes(env: Env, s: State, rid: Rid)
    requires env.crypto.Valid() && Inv(env, s)
    ensures Inv(env, s.Done(rid))
  {
  }

  /** Something happens: the stores change as the event says, and nothing else does. */
  lemma Happens(env: Env, s: State, s': State, e: Event)
    requires env.crypto.Valid() && Inv(env, s) && Justified(env, s.log, e) && LeavesAllAlone(e, s.inflight)
    requires s'.log == s.log + [e] && s'.inflight == s.inflight && Held(s') == ReplayOne(Held(s), e)
    requires s'.cfg == s.cfg || LoadsAt(s'.log, |s.log|, s'.cfg)
    ensures Inv(env, s')
  {
    LogGrows(env, s.log, e);
    ReplaySnoc(s.log, e);
    InflightSurvives(env, s.inflight, s.log, e);
    LoadedStays(s.log, s.cfg, e);
  }

  // ---- the knock ------------------------------------------------------------

  lemma ProofIsRight(env: Env, s: State, pc: Pc, token: Token)
    requires env.crypto.Valid() && Inv(env, s) && pc.RespondFresh? && PcOk(env, pc, s.log)
    requires Authorize(s.reg, pc.kid, pc.ctx.service, pc.now) == Ok(token)
    requires env.proofOk(token.secret, pc.ctx.service, pc.kid, pc.nonce, pc.tag)
    ensures ProvedRightly(env, s.log, Proved(pc.ctx, pc.cfg, pc.kid, pc.nonce, pc.tag, pc.now, token, s.reg))
  {
  }

  /** A proof accepted and its event. */
  lemma Proves(env: Env, s: State, rid: Rid, pc: Pc, token: Token)
    requires env.Valid() && Inv(env, s) && pc.RespondFresh? && PcOk(env, pc, s.log)
    requires Authorize(s.reg, pc.kid, pc.ctx.service, pc.now) == Ok(token)
    requires env.proofOk(token.secret, pc.ctx.service, pc.kid, pc.nonce, pc.tag)
    ensures Inv(env, s.Emit(Proved(pc.ctx, pc.cfg, pc.kid, pc.nonce, pc.tag, pc.now, token, s.reg))
                      .Go(rid, RespondProved(pc.ctx, pc.cfg, pc.kid, pc.nonce, pc.now, token, |s.log|)))
  {
    var e := Proved(pc.ctx, pc.cfg, pc.kid, pc.nonce, pc.tag, pc.now, token, s.reg);
    ProofIsRight(env, s, pc, token);
    Happens(env, s, s.Emit(e), e);
    Moves(env, s.Emit(e), rid, RespondProved(pc.ctx, pc.cfg, pc.kid, pc.nonce, pc.now, token, |s.log|));
  }

  lemma ProveIs(env: Env, s: State, rid: Rid)
    requires env.crypto.Valid() && rid in s.inflight && s.inflight[rid].RespondFresh?
    ensures var pc := s.inflight[rid];
            var auth := Authorize(s.reg, pc.kid, pc.ctx.service, pc.now);
            NextKnock(env, s, DoRespondProve(rid))
            == if auth.Ok? && env.proofOk(auth.value.secret, pc.ctx.service, pc.kid, pc.nonce, pc.tag)
               then s.Emit(Proved(pc.ctx, pc.cfg, pc.kid, pc.nonce, pc.tag, pc.now, auth.value, s.reg))
                     .Go(rid, RespondProved(pc.ctx, pc.cfg, pc.kid, pc.nonce, pc.now, auth.value, |s.log|))
               else s.Done(rid)
  {
  }

  lemma ProveKeeps(env: Env, s: State, rid: Rid)
    requires env.Valid() && Inv(env, s)
    ensures Inv(env, NextKnock(env, s, DoRespondProve(rid)))
  {
    if rid in s.inflight && s.inflight[rid].RespondFresh? {
      var pc := s.inflight[rid];
      assert PcOk(env, pc, s.log);
      ProveIs(env, s, rid);
      var auth := Authorize(s.reg, pc.kid, pc.ctx.service, pc.now);
      if auth.Ok? && env.proofOk(auth.value.secret, pc.ctx.service, pc.kid, pc.nonce, pc.tag) {
        Proves(env, s, rid, pc, auth.value);
      } else {
        Finishes(env, s, rid);
      }
    }
  }

  lemma ClaimIsRight(env: Env, s: State, pc: Pc)
    requires env.crypto.Valid() && Inv(env, s) && pc.RespondProved? && PcOk(env, pc, s.log)
    requires Claimable(s.spent, NonceId(env, pc.nonce), pc.now)
    ensures Justified(env, s.log, Claimed(pc.nonce, NonceId(env, pc.nonce), pc.now, pc.cfg.nonceTtl, pc.proof))
  {
  }

  lemma ClaimedPcIsRight(env: Env, log: Log, pc: Pc, e: Event)
    requires pc.RespondProved? && PcOk(env, pc, log) && ClaimUnused(log + [e], |log|)
    requires e == Claimed(pc.nonce, NonceId(env, pc.nonce), pc.now, pc.cfg.nonceTtl, pc.proof)
    ensures PcOk(env, RespondClaimed(pc.ctx, pc.cfg, pc.kid, pc.now, pc.token, |log|), log + [e])
  {
  }

  lemma BurnIs(s: State, s': State, e: Event)
    requires e.Claimed? && Claimable(s.spent, e.id, e.now)
    requires s' == s.(spent := ClaimIn(s.spent, e.id, e.now, e.ttl)).Emit(e)
    ensures s'.log == s.log + [e] && s'.inflight == s.inflight && s'.cfg == s.cfg && Held(s') == ReplayOne(Held(s), e)
  {
  }

  /** A claim and its event. */
  lemma Burns(env: Env, s: State, s': State, e: Event)
    requires env.crypto.Valid() && Inv(env, s) && e.Claimed? && Justified(env, s.log, e)
    requires Claimable(s.spent, e.id, e.now)
    requires s' == s.(spent := ClaimIn(s.spent, e.id, e.now, e.ttl)).Emit(e)
    ensures Inv(env, s')
  {
    BurnIs(s, s', e);
    Happens(env, s, s', e);
  }

  lemma Claims(env: Env, s: State, rid: Rid, pc: Pc, e: Event)
    requires env.crypto.Valid() && Inv(env, s) && pc.RespondProved? && PcOk(env, pc, s.log)
    requires e == Claimed(pc.nonce, NonceId(env, pc.nonce), pc.now, pc.cfg.nonceTtl, pc.proof)
    requires Claimable(s.spent, e.id, e.now)
    ensures Inv(env, s.(spent := ClaimIn(s.spent, e.id, e.now, e.ttl)).Emit(e)
                      .Go(rid, RespondClaimed(pc.ctx, pc.cfg, pc.kid, pc.now, pc.token, |s.log|)))
  {
    var next := RespondClaimed(pc.ctx, pc.cfg, pc.kid, pc.now, pc.token, |s.log|);
    ClaimIsRight(env, s, pc);
    Burns(env, s, s.(spent := ClaimIn(s.spent, e.id, e.now, e.ttl)).Emit(e), e);
    NewClaimIsUnused(env, s.log, e);
    NoneAhead(env, s, |s.log|);
    ClaimedPcIsRight(env, s.log, pc, e);
    Moves(env, s.(spent := ClaimIn(s.spent, e.id, e.now, e.ttl)).Emit(e), rid, next);
  }

  lemma ClaimKeeps(env: Env, s: State, rid: Rid)
    requires env.Valid() && Inv(env, s)
    ensures Inv(env, NextKnock(env, s, DoRespondClaim(rid)))
  {
    if rid in s.inflight && s.inflight[rid].RespondProved? && |s.inflight[rid].nonce| == NONCE_LEN {
      var pc := s.inflight[rid];
      var id := NonceId(env, pc.nonce);
      if Claimable(s.spent, id, pc.now) {
        Claims(env, s, rid, pc, Claimed(pc.nonce, id, pc.now, pc.cfg.nonceTtl, pc.proof));
      } else {
        Finishes(env, s, rid);
      }
    }
  }

  lemma NewClaimIsUnused(env: Env, log: Log, e: Event)
    requires env.crypto.Valid() && LogOk(env, log) && !e.Granted? && !e.SecretSent?
    ensures ClaimUnused(log + [e], |log|) && TakingUnused(log + [e], |log|)
  {
    forall i | 0 <= i < |log| ensures log[i].Granted? ==> log[i].source != FromKnock(|log|)
                              ensures log[i].SecretSent? ==> log[i].taken != |log| {
      assert Justified(env, log[..i], log[i]);
    }
  }

  lemma MintIsRight(env: Env, log: Log, pc: Pc, id: Bytes, olds: seq<Bytes>)
    requires env.crypto.Valid() && pc.RespondClaimed? && PcOk(env, pc, log)
    ensures GrantedRightly(env, log, Granted(Minted(env, pc.ctx, pc.cfg, pc.kid, pc.now, pc.token, id), olds, FromKnock(pc.claim)))
  {
    var p := log[pc.claim].proof;
    assert Minted(env, pc.ctx, pc.cfg, pc.kid, pc.now, pc.token, id)
        == Minted(env, log[p].ctx, log[p].cfg, log[p].kid, log[p].now, log[p].token, id);
  }

  lemma PutIs(env: Env, s: State, rid: Rid, random: Option<Bytes>, cookie: Bytes)
    requires env.crypto.Valid() && rid in s.inflight && s.inflight[rid].RespondClaimed?
    ensures var pc := s.inflight[rid];
            var id := if random.Some? then random.value else [];
            var g := Minted(env, pc.ctx, pc.cfg, pc.kid, pc.now, pc.token, id);
            var held := if cookie != [] then env.crypto.HexDigest(cookie) else [];
            NextKnock(env, s, DoRespondPut(rid, random, cookie))
            == if BindingOf(pc.ctx.svc) == ByIpCookie && random.None? then s.Done(rid)
               else s.Done(rid).(grants := PutIn(s.grants, g, [held])).Emit(Granted(g, [held], FromKnock(pc.claim)))
  {
  }

  lemma PutKeeps(env: Env, s: State, rid: Rid, random: Option<Bytes>, cookie: Bytes)
    requires env.Valid() && Inv(env, s)
    ensures Inv(env, NextKnock(env, s, DoRespondPut(rid, random, cookie)))
  {
    if rid in s.inflight && s.inflight[rid].RespondClaimed? {
      var pc := s.inflight[rid];
      var id := if random.Some? then random.value else [];
      var g := Minted(env, pc.ctx, pc.cfg, pc.kid, pc.now, pc.token, id);
      var held := if cookie != [] then env.crypto.HexDigest(cookie) else [];
      PutIs(env, s, rid, random, cookie);
      Finishes(env, s, rid);
      MintKeeps(env, s, rid, g, id, held);
    }
  }

  lemma MintKeeps(env: Env, s: State, rid: Rid, g: Grant, id: Bytes, held: Bytes)
    requires env.crypto.Valid() && Inv(env, s) && rid in s.inflight && s.inflight[rid].RespondClaimed?
    requires var pc := s.inflight[rid]; g == Minted(env, pc.ctx, pc.cfg, pc.kid, pc.now, pc.token, id)
    ensures Inv(env, s.Done(rid).(grants := PutIn(s.grants, g, [held])).Emit(Granted(g, [held], FromKnock(s.inflight[rid].claim))))
  {
    var pc := s.inflight[rid];
    var e := Granted(g, [held], FromKnock(pc.claim));
    assert PcOk(env, pc, s.log);
    MintIsRight(env, s.log, pc, id, [held]);
    FinishingFreesOthers(env, s.inflight, s.log, rid, e);
    Finishes(env, s, rid);
    Happens(env, s.Done(rid), s.Done(rid).(grants := PutIn(s.grants, g, [held])).Emit(e), e);
  }

  // ---- forward-auth ---------------------------------------------------------

  lemma Admits(env: Env, s: State, rid: Rid, pc: Pc, g: Grant)
    requires env.Valid() && Inv(env, s) && pc.AuthzTimed? && PcOk(env, pc, s.log)
    requires Allowed(env.crypto, s.grants, pc.ctx.service, pc.ctx.ip, pc.reg, pc.now, pc.cookie) == Some(g)
    requires BindingOf(pc.ctx.svc) == ByIpCookie ==> g.binding == ByIpCookie
    ensures Inv(env, s.Done(rid).Emit(Admitted(pc.ctx, pc.reg, pc.read, pc.now, pc.cookie, g)))
  {
    var e := Admitted(pc.ctx, pc.reg, pc.read, pc.now, pc.cookie, g);
    assert s.grants == Replay(s.log).grants;
    assert AdmittedRightly(env, s.log, e);
    Finishes(env, s, rid);
    Happens(env, s.Done(rid), s.Done(rid).Emit(e), e);
  }

  lemma LookupKeeps(env: Env, s: State, rid: Rid)
    requires env.Valid() && Inv(env, s)
    ensures Inv(env, NextAuthz(env, s, DoAuthzLookup(rid)))
  {
    if rid in s.inflight && s.inflight[rid].AuthzTimed? {
      var pc := s.inflight[rid];
      assert PcOk(env, pc, s.log);
      match Allowed(env.crypto, s.grants, pc.ctx.service, pc.ctx.ip, pc.reg, pc.now, pc.cookie)
      case None => Finishes(env, s, rid);
      case Some(g) =>
        if BindingOf(pc.ctx.svc) == ByIpCookie && g.binding != ByIpCookie {
          Finishes(env, s, rid);
        } else {
          Admits(env, s, rid, pc, g);
        }
    }
  }

  lemma Reads(env: Env, s: State, rid: Rid, pc: Pc)
    requires env.crypto.Valid() && Inv(env, s) && pc.AuthzConfigured?
    ensures Inv(env, s.Emit(RegistryRead(s.reg)).Go(rid, AuthzRegistered(pc.ctx, pc.cookie, s.reg, |s.log|)))
  {
    var e := RegistryRead(s.reg);
    Happens(env, s, s.Emit(e), e);
    Moves(env, s.Emit(e), rid, AuthzRegistered(pc.ctx, pc.cookie, s.reg, |s.log|));
  }

  lemma RegistryReadKeeps(env: Env, s: State, rid: Rid)
    requires env.Valid() && Inv(env, s)
    ensures Inv(env, NextAuthz(env, s, DoAuthzRegistry(rid)))
  {
    if rid in s.inflight && s.inflight[rid].AuthzConfigured? {
      var pc := s.inflight[rid];
      var next := AuthzRegistered(pc.ctx, pc.cookie, s.reg, |s.log|);
      Reads(env, s, rid, pc);
      assert AuthzRegistry(s, rid, pc) == s.Emit(RegistryRead(s.reg)).Go(rid, next);
    }
  }

  // ---- enrollment -----------------------------------------------------------

  lemma VetKeeps(env: Env, s: State, rid: Rid)
    requires env.Valid() && Inv(env, s)
    ensures Inv(env, NextEnroll(s, DoEnrollVet(rid)))
  {
    if rid in s.inflight && s.inflight[rid].EnrollPeeked? {
      var pc := s.inflight[rid];
      if Lookup(s.reg, pc.kid).None? {
        Finishes(env, s, rid);
      } else {
        var e := KidVetted(pc.code, pc.kid);
        var next := EnrollVetted(pc.code, |s.log|);
        Happens(env, s, s.Emit(e), e);
        Moves(env, s.Emit(e), rid, next);
        assert EnrollVet(s, rid, pc) == s.Emit(e).Go(rid, next);
      }
    }
  }

  lemma Consumes(env: Env, s: State, rid: Rid, pc: Pc, entry: EnrollCode, at: I64)
    requires env.crypto.Valid() && Inv(env, s) && pc.EnrollVetted? && PcOk(env, pc, s.log)
    requires pc.code in s.codes && s.codes[pc.code] == entry && at < entry.exp
    ensures Inv(env, s.(codes := s.codes - {pc.code}).Emit(CodeTaken(pc.code, entry, pc.vet, at))
                      .Go(rid, EnrollConsumed(pc.code, entry, |s.log|)))
  {
    var e := CodeTaken(pc.code, entry, pc.vet, at);
    var s' := s.(codes := s.codes - {pc.code}).Emit(e);
    assert s.codes == Replay(s.log).codes;
    Happens(env, s, s', e);
    NewClaimIsUnused(env, s.log, e);
    NoneAhead(env, s, |s.log|);
    Moves(env, s', rid, EnrollConsumed(pc.code, entry, |s.log|));
  }

  lemma Drops(env: Env, s: State, rid: Rid, pc: Pc, at: I64)
    requires env.crypto.Valid() && Inv(env, s) && pc.EnrollVetted? && PcOk(env, pc, s.log)
    requires pc.code in s.codes ==> s.codes[pc.code].exp <= at
    ensures Inv(env, s.(codes := s.codes - {pc.code}).Done(rid).Emit(CodeDropped(pc.code, pc.vet, at)))
  {
    var e := CodeDropped(pc.code, pc.vet, at);
    assert s.codes == Replay(s.log).codes;
    Finishes(env, s, rid);
    Happens(env, s.Done(rid), s.(codes := s.codes - {pc.code}).Done(rid).Emit(e), e);
  }

  lemma ConsumeKeeps(env: Env, s: State, rid: Rid, at: I64)
    requires env.Valid() && Inv(env, s)
    ensures Inv(env, NextEnroll(s, DoEnrollConsume(rid, at)))
  {
    if rid in s.inflight && s.inflight[rid].EnrollVetted? {
      var pc := s.inflight[rid];
      assert PcOk(env, pc, s.log);
      match Live(s.codes, pc.code, at)
      case None => Drops(env, s, rid, pc, at);
      case Some(entry) => Consumes(env, s, rid, pc, entry, at);
    }
  }

  /** No request in flight holds a claim or a taking the log does not have yet. */
  lemma NoneAhead(env: Env, s: State, n: nat)
    requires env.crypto.Valid() && Inv(env, s) && n >= |s.log|
    ensures forall q :: q in s.inflight && s.inflight[q].RespondClaimed? ==> s.inflight[q].claim != n
    ensures forall q :: q in s.inflight && s.inflight[q].EnrollConsumed? ==> s.inflight[q].taken != n
  {
    forall q | q in s.inflight
      ensures s.inflight[q].RespondClaimed? ==> s.inflight[q].claim != n
      ensures s.inflight[q].EnrollConsumed? ==> s.inflight[q].taken != n
    {
      assert PcOk(env, s.inflight[q], s.log);
    }
  }

  lemma Sends(env: Env, s: State, rid: Rid, pc: Pc, secret: Bytes)
    requires env.crypto.Valid() && Inv(env, s) && rid in s.inflight && s.inflight[rid] == pc && pc.EnrollConsumed?
    requires pc.entry.kid in s.reg.tokens && s.reg.tokens[pc.entry.kid].secret == secret
    ensures Inv(env, s.Done(rid).Emit(SecretSent(pc.code, pc.entry.kid, secret, pc.taken)))
  {
    var e := SecretSent(pc.code, pc.entry.kid, secret, pc.taken);
    assert PcOk(env, pc, s.log);
    Finishes(env, s, rid);
    FinishingFreesOthers(env, s.inflight, s.log, rid, e);
    Happens(env, s.Done(rid), s.Done(rid).Emit(e), e);
  }

  lemma SendKeeps(env: Env, s: State, rid: Rid)
    requires env.Valid() && Inv(env, s)
    ensures Inv(env, NextEnroll(s, DoEnrollSend(rid)))
  {
    if rid in s.inflight && s.inflight[rid].EnrollConsumed? {
      var pc := s.inflight[rid];
      match Lookup(s.reg, pc.entry.kid)
      case None => Finishes(env, s, rid);
      case Some(t) => Sends(env, s, rid, pc, t.secret);
    }
  }

  // ---- administration and housekeeping --------------------------------------

  lemma RevokeKeeps(env: Env, s: State, service: Bytes, ip: Bytes)
    requires env.crypto.Valid() && Inv(env, s)
    ensures Inv(env, s.(grants := RevokeIn(s.grants, service, ip)).Emit(Revoked(service, ip)))
  {
    Happens(env, s, s.(grants := RevokeIn(s.grants, service, ip)).Emit(Revoked(service, ip)), Revoked(service, ip));
  }

  lemma RevokeTokenKeeps(env: Env, s: State, kid: Bytes)
    requires env.Valid() && Inv(env, s)
    ensures Inv(env, AdminRevokeToken(s, kid))
  {
    if kid != [] {
      Happens(env, s, AdminRevokeToken(s, kid), RevokedKid(kid));
    }
  }

  lemma CodePutKeeps(env: Env, s: State, code: Bytes, entry: EnrollCode)
    requires env.crypto.Valid() && Inv(env, s)
    ensures Inv(env, s.(codes := s.codes[code := entry]).Emit(CodePut(code, entry)))
  {
    Happens(env, s, s.(codes := s.codes[code := entry]).Emit(CodePut(code, entry)), CodePut(code, entry));
  }

  lemma ReloadKeeps(env: Env, s: State, cfg: Settings)
    requires env.crypto.Valid() && Inv(env, s)
    ensures Inv(env, Reload(s, cfg))
  {
    var s' := Reload(s, cfg);
    if s' != s {
      Happens(env, s, s', Reloaded(cfg, s'.reg));
    }
  }

  lemma SweepGrantsKeeps(env: Env, s: State, at: I64)
    requires env.crypto.Valid() && Inv(env, s)
    ensures Inv(env, NextHouse(s, DoSweepGrants(at)))
  {
    if at <= s.clock {
      Happens(env, s, NextHouse(s, DoSweepGrants(at)), SweptGrants(at));
    }
  }

  lemma SweepNoncesKeeps(env: Env, s: State, at: I64)
    requires env.crypto.Valid() && Inv(env, s)
    ensures Inv(env, NextHouse(s, DoSweepNonces(at)))
  {
    if at <= s.clock {
      Happens(env, s, NextHouse(s, DoSweepNonces(at)), SweptNonces(at));
    }
  }

  lemma SweepCodesKeeps(env: Env, s: State, at: I64)
    requires env.crypto.Valid() && Inv(env, s)
    ensures Inv(env, NextHouse(s, DoSweepCodes(at)))
  {
    if at <= s.clock {
      Happens(env, s, NextHouse(s, DoSweepCodes(at)), SweptCodes(at));
    }
  }

  // ---- every step -----------------------------------------------------------

  lemma CheckKeeps(env: Env, s: State, rid: Rid, body: Body)
    requires env.Valid() && Inv(env, s)
    ensures Inv(env, NextKnock(env, s, DoRespondCheck(rid, body)))
  {
    if rid in s.inflight && s.inflight[rid].RespondConfigured? {
      var pc := s.inflight[rid];
      assert PcOk(env, pc, s.log);
      var decoded := DecodeBody(env, body);
      Finishes(env, s, rid);
      if decoded.Some? {
        var (nonce, tag) := decoded.value;
        if env.nonceOk(nonce, pc.ctx.service, pc.ctx.ip, s.clock, pc.cfg.nonceTtl, pc.cfg.v6Prefix) {
          Moves(env, s, rid, RespondFresh(pc.ctx, pc.cfg, body.kid, nonce, tag, s.clock));
        }
      }
    }
  }

  /** The cases of a step that change no log and no store. */
  lemma MovesOrFinishes(env: Env, s: State, s': State, rid: Rid)
    requires env.crypto.Valid() && Inv(env, s)
    requires s' == s || s' == s.Done(rid) || (exists pc :: Light(pc) && s' == s.Go(rid, pc))
    ensures Inv(env, s')
  {
    Finishes(env, s, rid);
    if s' != s && s' != s.Done(rid) {
      var pc :| Light(pc) && s' == s.Go(rid, pc);
      Moves(env, s, rid, pc);
    }
  }

  /** A request that has read nothing yet that the log would have to account for. */
  predicate Light(pc: Pc)
  {
    || pc.RespondResolved? || pc.AuthzResolved? || pc.AuthzConfigured?
    || pc.EnrollAdmitted? || pc.EnrollPeeked? || pc.AdminGranting? || pc.AdminTimed?
    || pc.AdminRevoking? || pc.AdminCoding? || pc.AdminCodeConfigured? || pc.AdminCodeReady?
  }

  lemma RespondStartKeeps(env: Env, s: State, rid: Rid, seen: Option<Seen>, post: bool)
    requires env.Valid() && Inv(env, s)
    ensures Inv(env, NextKnock(env, s, DoRespondStart(rid, seen, post)))
  {
    if rid !in s.inflight && Usable(seen) {
      assert Light(RespondResolved(Resolved(s.cfg, seen.value)));
    }
    MovesOrFinishes(env, s, RespondStart(s, rid, seen, post), rid);
  }

  lemma RespondConfigKeeps(env: Env, s: State, rid: Rid, withinRate: bool)
    requires env.Valid() && Inv(env, s)
    ensures Inv(env, NextKnock(env, s, DoRespondConfig(rid, withinRate)))
  {
    if rid in s.inflight && s.inflight[rid].RespondResolved? {
      Finishes(env, s, rid);
      Moves(env, s, rid, RespondConfigured(s.inflight[rid].ctx, s.cfg));
    }
  }

  lemma KnockChecksKeep(env: Env, s: State, a: Action)
    requires env.Valid() && Inv(env, s) && (a.DoRespondStart? || a.DoRespondConfig? || a.DoRespondCheck?)
    ensures Inv(env, NextKnock(env, s, a))
  {
    match a
    case DoRespondStart(rid, seen, post) => RespondStartKeeps(env, s, rid, seen, post);
    case DoRespondConfig(rid, withinRate) => RespondConfigKeeps(env, s, rid, withinRate);
    case DoRespondCheck(rid, body) => CheckKeeps(env, s, rid, body);
  }

  lemma KnockKeeps(env: Env, s: State, a: Action)
    requires env.Valid() && Inv(env, s)
    ensures Inv(env, NextKnock(env, s, a))
  {
    if a.DoRespondStart? || a.DoRespondConfig? || a.DoRespondCheck? {
      KnockChecksKeep(env, s, a);
    } else {
      match a
      case DoRespondProve(rid) => ProveKeeps(env, s, rid);
      case DoRespondClaim(rid) => ClaimKeeps(env, s, rid);
      case DoRespondPut(rid, random, cookie) => PutKeeps(env, s, rid, random, cookie);
      case _ =>
    }
  }

  lemma CarveKeeps(env: Env, s: State, rid: Rid, cookie: Bytes)
    requires env.Valid() && Inv(env, s)
    ensures Inv(env, NextAuthz(env, s, DoAuthzConfig(rid, cookie)))
  {
    if rid in s.inflight && s.inflight[rid].AuthzResolved? {
      var ctx := s.inflight[rid].ctx;
      if IsEndpoint(s.cfg, ctx.uri) {
        Finishes(env, s, rid);
        Happens(env, s.Done(rid), s.Done(rid).Emit(Carved(ctx, s.cfg)), Carved(ctx, s.cfg));
      } else {
        assert Light(AuthzConfigured(ctx, cookie));
        MovesOrFinishes(env, s, AuthzConfig(s, rid, ctx, cookie), rid);
      }
    }
  }

  lemma ClockKeeps(env: Env, s: State, rid: Rid)
    requires env.Valid() && Inv(env, s)
    ensures Inv(env, NextAuthz(env, s, DoAuthzClock(rid)))
  {
    if rid in s.inflight && s.inflight[rid].AuthzRegistered? {
      var pc := s.inflight[rid];
      assert PcOk(env, pc, s.log);
      Moves(env, s, rid, AuthzTimed(pc.ctx, pc.cookie, pc.reg, pc.read, s.clock));
    }
  }

  lemma AuthzStartKeeps(env: Env, s: State, rid: Rid, peerTrusted: bool, seen: Option<Seen>)
    requires env.Valid() && Inv(env, s)
    ensures Inv(env, NextAuthz(env, s, DoAuthzStart(rid, peerTrusted, seen)))
  {
    if Usable(seen) {
      assert Light(AuthzResolved(Resolved(s.cfg, seen.value)));
    }
    MovesOrFinishes(env, s, AuthzStart(s, rid, peerTrusted, seen), rid);
  }

  lemma AuthzReadsKeep(env: Env, s: State, a: Action)
    requires env.Valid() && Inv(env, s) && (a.DoAuthzRegistry? || a.DoAuthzClock? || a.DoAuthzLookup?)
    ensures Inv(env, NextAuthz(env, s, a))
  {
    match a
    case DoAuthzRegistry(rid) => RegistryReadKeeps(env, s, rid);
    case DoAuthzClock(rid) => ClockKeeps(env, s, rid);
    case DoAuthzLookup(rid) => LookupKeeps(env, s, rid);
  }

  lemma AuthzKeeps(env: Env, s: State, a: Action)
    requires env.Valid() && Inv(env, s)
    ensures Inv(env, NextAuthz(env, s, a))
  {
    if a.DoAuthzRegistry? || a.DoAuthzClock? || a.DoAuthzLookup? {
      AuthzReadsKeep(env, s, a);
    } else {
      match a
      case DoAuthzStart(rid, peerTrusted, seen) => AuthzStartKeeps(env, s, rid, peerTrusted, seen);
      case DoAuthzConfig(rid, cookie) => CarveKeeps(env, s, rid, cookie);
      case _ =>
    }
  }

  lemma EnrollStartKeeps(env: Env, s: State, rid: Rid, seen: Option<Seen>, post: bool, withinRate: bool, code: Bytes)
    requires env.Valid() && Inv(env, s)
    ensures Inv(env, NextEnroll(s, DoEnrollStart(rid, seen, post, withinRate, code)))
  {
    assert Light(EnrollAdmitted(code));
    MovesOrFinishes(env, s, EnrollStart(s, rid, seen, post, withinRate, code), rid);
  }

  lemma PeekKeeps(env: Env, s: State, rid: Rid, at: I64)
    requires env.Valid() && Inv(env, s)
    ensures Inv(env, NextEnroll(s, DoEnrollPeek(rid, at)))
  {
    if rid in s.inflight && s.inflight[rid].EnrollAdmitted? {
      var live := Live(s.codes, s.inflight[rid].code, at);
      assert live.Some? ==> Light(EnrollPeeked(s.inflight[rid].code, live.value.kid));
      MovesOrFinishes(env, s, NextEnroll(s, DoEnrollPeek(rid, at)), rid);
    }
  }

  lemma EnrollChecksKeep(env: Env, s: State, a: Action)
    requires env.Valid() && Inv(env, s) && (a.DoEnrollStart? || a.DoEnrollPeek? || a.DoEnrollVet?)
    ensures Inv(env, NextEnroll(s, a))
  {
    match a
    case DoEnrollStart(rid, seen, post, withinRate, code) => EnrollStartKeeps(env, s, rid, seen, post, withinRate, code);
    case DoEnrollPeek(rid, at) => PeekKeeps(env, s, rid, at);
    case DoEnrollVet(rid) => VetKeeps(env, s, rid);
  }

  lemma EnrollKeeps(env: Env, s: State, a: Action)
    requires env.Valid() && Inv(env, s)
    ensures Inv(env, NextEnroll(s, a))
  {
    if a.DoEnrollStart? || a.DoEnrollPeek? || a.DoEnrollVet? {
      EnrollChecksKeep(env, s, a);
    } else {
      match a
      case DoEnrollConsume(rid, at) => ConsumeKeeps(env, s, rid, at);
      case DoEnrollSend(rid) => SendKeeps(env, s, rid);
      case _ =>
    }
  }

  lemma VouchKeeps(env: Env, s: State, rid: Rid)
    requires env.Valid() && Inv(env, s)
    ensures Inv(env, NextAdmin(env, s, DoAdminGrantVouch(rid)))
  {
    if rid in s.inflight && s.inflight[rid].AdminTimed? {
      var pc := s.inflight[rid];
      Moves(env, s, rid, AdminVouched(Grant(pc.kid, pc.service, pc.ip, ByIp, [], pc.now, pc.now + pc.ttl, pc.manual,
                                            Fingerprint(env.crypto, Lookup(s.reg, pc.kid)))));
    }
  }

  lemma AdminStores(env: Env, s: State, rid: Rid, g: Grant)
    requires env.crypto.Valid() && Inv(env, s) && g.binding == ByIp
    ensures Inv(env, s.Done(rid).(grants := PutIn(s.grants, g, [])).Emit(Granted(g, [], FromAdmin)))
  {
    Finishes(env, s, rid);
    Happens(env, s.Done(rid), s.Done(rid).(grants := PutIn(s.grants, g, [])).Emit(Granted(g, [], FromAdmin)), Granted(g, [], FromAdmin));
  }

  lemma AdminPutKeeps(env: Env, s: State, rid: Rid)
    requires env.Valid() && Inv(env, s)
    ensures Inv(env, NextAdmin(env, s, DoAdminGrantPut(rid)))
  {
    if rid in s.inflight && s.inflight[rid].AdminVouched? {
      assert PcOk(env, s.inflight[rid], s.log);
      AdminStores(env, s, rid, s.inflight[rid].grant);
    }
  }

  lemma GrantStartKeeps(env: Env, s: State, rid: Rid, service: Bytes, ip: Bytes, ttl: int, kid: Bytes)
    requires env.Valid() && Inv(env, s)
    ensures Inv(env, NextAdmin(env, s, DoAdminGrantStart(rid, service, ip, ttl, kid)))
  {
    MovesOrFinishes(env, s, AdminGrantStart(env, s, rid, service, ip, ttl, kid), rid);
  }

  lemma GrantClockKeeps(env: Env, s: State, rid: Rid)
    requires env.Valid() && Inv(env, s)
    ensures Inv(env, NextAdmin(env, s, DoAdminGrantClock(rid)))
  {
    MovesOrFinishes(env, s, NextAdmin(env, s, DoAdminGrantClock(rid)), rid);
  }

  lemma RevokeStartKeeps(env: Env, s: State, rid: Rid, service: Bytes, ip: Bytes)
    requires env.Valid() && Inv(env, s)
    ensures Inv(env, NextAdmin(env, s, DoAdminRevokeStart(rid, service, ip)))
  {
    MovesOrFinishes(env, s, AdminRevokeStart(env, s, rid, service, ip), rid);
  }

  lemma RevokeDoneKeeps(env: Env, s: State, rid: Rid)
    requires env.Valid() && Inv(env, s)
    ensures Inv(env, NextAdmin(env, s, DoAdminRevoke(rid)))
  {
    if rid in s.inflight && s.inflight[rid].AdminRevoking? {
      Finishes(env, s, rid);
      RevokeKeeps(env, s.Done(rid), s.inflight[rid].service, s.inflight[rid].ip);
    }
  }

  lemma AdminGrantKeeps(env: Env, s: State, a: Action)
    requires env.Valid() && Inv(env, s)
    requires a.DoAdminGrantStart? || a.DoAdminGrantClock? || a.DoAdminGrantVouch? || a.DoAdminGrantPut?
    ensures Inv(env, NextAdmin(env, s, a))
  {
    match a
    case DoAdminGrantStart(rid, service, ip, ttl, kid) => GrantStartKeeps(env, s, rid, service, ip, ttl, kid);
    case DoAdminGrantClock(rid) => GrantClockKeeps(env, s, rid);
    case DoAdminGrantVouch(rid) => VouchKeeps(env, s, rid);
    case DoAdminGrantPut(rid) => AdminPutKeeps(env, s, rid);
  }

  lemma AdminKeeps(env: Env, s: State, a: Action)
    requires env.Valid() && Inv(env, s)
    ensures Inv(env, NextAdmin(env, s, a))
  {
    if a.DoAdminGrantStart? || a.DoAdminGrantClock? || a.DoAdminGrantVouch? || a.DoAdminGrantPut? {
      AdminGrantKeeps(env, s, a);
    } else {
      match a
      case DoAdminRevokeStart(rid, service, ip) => RevokeStartKeeps(env, s, rid, service, ip);
      case DoAdminRevoke(rid) => RevokeDoneKeeps(env, s, rid);
      case DoAdminRevokeToken(kid) => RevokeTokenKeeps(env, s, kid);
      case _ =>
    }
  }

  lemma CodeStartKeeps(env: Env, s: State, rid: Rid, kid: Bytes, origins: seq<Bytes>, ttl: int)
    requires env.Valid() && Inv(env, s)
    ensures Inv(env, NextCode(env, s, DoAdminCodeStart(rid, kid, origins, ttl)))
  {
    assert Light(AdminCoding(kid, origins, ttl));
    MovesOrFinishes(env, s, NextCode(env, s, DoAdminCodeStart(rid, kid, origins, ttl)), rid);
  }

  lemma CodeMovesKeep(env: Env, s: State, rid: Rid, a: Action)
    requires env.Valid() && Inv(env, s) && (a == DoAdminCodeConfig(rid) || a == DoAdminCodeClock(rid))
    ensures Inv(env, NextCode(env, s, a))
  {
    MovesOrFinishes(env, s, NextCode(env, s, a), rid);
  }

  lemma CodeStoreKeeps(env: Env, s: State, rid: Rid, random: Option<Bytes>)
    requires env.Valid() && Inv(env, s)
    ensures Inv(env, NextCode(env, s, DoAdminCodePut(rid, random)))
  {
    if rid in s.inflight && s.inflight[rid].AdminCodeReady? {
      Finishes(env, s, rid);
      if random.Some? {
        CodePutKeeps(env, s.Done(rid), env.encode(random.value), s.inflight[rid].entry);
      }
    }
  }

  lemma CodeKeeps(env: Env, s: State, a: Action)
    requires env.Valid() && Inv(env, s)
    ensures Inv(env, NextCode(env, s, a))
  {
    match a
    case DoAdminCodeStart(rid, kid, origins, ttl) => CodeStartKeeps(env, s, rid, kid, origins, ttl);
    case DoAdminCodeConfig(rid) => CodeMovesKeep(env, s, rid, a);
    case DoAdminCodeClock(rid) => CodeMovesKeep(env, s, rid, a);
    case DoAdminCodePut(rid, random) => CodeStoreKeeps(env, s, rid, random);
    case _ =>
  }

  lemma HouseKeeps(env: Env, s: State, a: Action)
    requires env.Valid() && Inv(env, s)
    ensures Inv(env, NextHouse(s, a))
  {
    match a
    case DoReload(cfg) => ReloadKeeps(env, s, cfg);
    case DoSweepGrants(at) => SweepGrantsKeeps(env, s, at);
    case DoSweepNonces(at) => SweepNoncesKeeps(env, s, at);
    case DoSweepCodes(at) => SweepCodesKeeps(env, s, at);
    case _ =>
  }

  /** Every step keeps the invariant. */
  lemma NextKeeps(env: Env, s: State, a: Action)
    requires env.Valid() && Inv(env, s)
    ensures Inv(env, Next(env, s, a))
  {
    KnockKeeps(env, s, a);
    AuthzKeeps(env, s, a);
    EnrollKeeps(env, s, a);
    AdminKeeps(env, s, a);
    HouseKeeps(env, s, a);
    CodeKeeps(env, s, a);
  }

  lemma InitHolds(env: Env, cfg: Settings, reg: Registry, clock: I64)
    requires env.crypto.Valid()
    ensures Inv(env, Init(cfg, reg, clock))
  {
    var log := Init(cfg, reg, clock).log;
    assert log == [] + [Reloaded(cfg, reg)];
    ReplaySnoc([], Reloaded(cfg, reg));
    assert LoadsAt(log, 0, cfg);
  }

  /** So does every run. */
  lemma {:induction false} RunKeeps(env: Env, s: State, actions: seq<Action>)
    requires env.Valid() && Inv(env, s)
    ensures Inv(env, Run(env, s, actions))
    decreases |actions|
  {
    if actions != [] {
      NextKeeps(env, s, actions[0]);
      RunKeeps(env, Next(env, s, actions[0]), actions[1..]);
    }
  }
}
