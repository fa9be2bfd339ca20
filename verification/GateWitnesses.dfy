/** Runs of the machine, with the real encodings, for every key and every hash: two in which a nonce is claimed
    twice, so neither condition of single use can be dropped, and a refused knock that burns its nonce. */
module GateWitnesses {
  import opened ByteStrings
  import opened Knock
  import opened IpAddresses
  import opened IpRoundTrip
  import opened Registries
  import opened GrantStores
  import opened SingleUseStores
  import opened Configs
  import opened Gate
  import opened GateInvariant
  import opened GateTheorems
  import opened Handlers
  import opened HonestKnock

  // ---- pieces of a knock ----------------------------------------------------

  function Begin(rid: Rid, seen: Seen): seq<Action>
  {
    [DoRespondStart(rid, Some(seen), true)] + [DoRespondConfig(rid, true)]
  }

  lemma Begins(env: Env, s: State, rid: Rid, seen: Seen)
    requires env.crypto.Valid() && rid !in s.inflight && Usable(Some(seen)) && Resolved(s.cfg, seen).known
    ensures Run(env, s, Begin(rid, seen)) == s.Go(rid, RespondConfigured(Resolved(s.cfg, seen), s.cfg))
  {
    var resolved := RespondResolved(Resolved(s.cfg, seen));
    GoGo(s, rid, resolved, RespondConfigured(Resolved(s.cfg, seen), s.cfg));
    TwoSteps(env, s, DoRespondStart(rid, Some(seen), true), s.Go(rid, resolved), DoRespondConfig(rid, true));
  }

  function Prove(rid: Rid, body: Body): seq<Action>
  {
    [DoRespondCheck(rid, body)] + [DoRespondProve(rid)]
  }

  /** The request's knock passes every check before the claim. */
  predicate Passes(env: Env, s: State, pc: Pc, body: Body, nonce: Bytes, tag: Bytes, token: Token)
  {
    && pc.RespondConfigured? && DecodeBody(env, body) == Some((nonce, tag))
    && env.nonceOk(nonce, pc.ctx.service, pc.ctx.ip, s.clock, pc.cfg.nonceTtl, pc.cfg.v6Prefix)
    && Authorize(s.reg, body.kid, pc.ctx.service, s.clock) == Ok(token)
    && env.proofOk(token.secret, pc.ctx.service, body.kid, nonce, tag)
  }

  lemma CheckStep(env: Env, s: State, rid: Rid, body: Body, nonce: Bytes, tag: Bytes, token: Token)
    requires env.crypto.Valid() && rid in s.inflight && Passes(env, s, s.inflight[rid], body, nonce, tag, token)
    ensures var pc := s.inflight[rid];
            Next(env, s, DoRespondCheck(rid, body)) == s.Go(rid, RespondFresh(pc.ctx, pc.cfg, body.kid, nonce, tag, s.clock))
  {
  }

  /** Nothing else moved: the same clock, configuration and registry, and every other request where it was. */
  predicate OnlyMoves(s: State, s': State, rid: Rid)
  {
    && s'.clock == s.clock && s'.cfg == s.cfg && s'.reg == s.reg
    && s'.inflight.Keys == s.inflight.Keys + {rid}
    && (forall r :: r in s.inflight && r != rid ==> s'.inflight[r] == s.inflight[r])
    && |s'.log| == |s.log| + 1 && s.log <= s'.log
  }

  /** The request's proof has been accepted at s's clock, and it is about to claim. */
  predicate HasProved(s: State, s': State, rid: Rid, cfg: Settings, nonce: Bytes)
  {
    && OnlyMoves(s, s', rid) && s'.spent == s.spent && s'.log[|s.log|].Proved?
    && s'.inflight[rid].RespondProved? && s'.inflight[rid].nonce == nonce
    && s'.inflight[rid].now == s.clock && s'.inflight[rid].cfg == cfg
  }

  predicate HasClaimed(env: Env, s: State, s': State, rid: Rid, pc: Pc)
    requires pc.RespondProved? && |pc.nonce| == NONCE_LEN
  {
    && OnlyMoves(s, s', rid) && s'.spent == s.spent[NonceId(env, pc.nonce) := pc.now + pc.cfg.nonceTtl]
    && s'.log[|s.log|].Claimed? && s'.log[|s.log|].nonce == pc.nonce
  }

  lemma ProveStep(env: Env, s: State, rid: Rid, nonce: Bytes, token: Token)
    requires env.crypto.Valid() && rid in s.inflight && s.inflight[rid].RespondFresh?
    requires var pc := s.inflight[rid];
             && pc.nonce == nonce && Authorize(s.reg, pc.kid, pc.ctx.service, pc.now) == Ok(token) && pc.now == s.clock
             && env.proofOk(token.secret, pc.ctx.service, pc.kid, pc.nonce, pc.tag)
    ensures HasProved(s, Next(env, s, DoRespondProve(rid)), rid, s.inflight[rid].cfg, nonce)
  {
  }

  lemma Proves(env: Env, s: State, rid: Rid, body: Body, nonce: Bytes, tag: Bytes, token: Token)
    requires env.crypto.Valid() && rid in s.inflight && Passes(env, s, s.inflight[rid], body, nonce, tag, token)
    ensures HasProved(s, Run(env, s, Prove(rid, body)), rid, s.inflight[rid].cfg, nonce)
  {
    var pc := s.inflight[rid];
    var s1 := s.Go(rid, RespondFresh(pc.ctx, pc.cfg, body.kid, nonce, tag, s.clock));
    CheckStep(env, s, rid, body, nonce, tag, token);
    TwoSteps(env, s, DoRespondCheck(rid, body), s1, DoRespondProve(rid));
    ProveStep(env, s1, rid, nonce, token);
  }

  lemma ClaimStep(env: Env, s: State, rid: Rid)
    requires env.crypto.Valid() && rid in s.inflight && s.inflight[rid].RespondProved? && |s.inflight[rid].nonce| == NONCE_LEN
    requires Claimable(s.spent, NonceId(env, s.inflight[rid].nonce), s.inflight[rid].now)
    ensures HasClaimed(env, s, Next(env, s, DoRespondClaim(rid)), rid, s.inflight[rid])
  {
  }

  // ---- what a run shows -----------------------------------------------------

  /** The nonce claimed at place i is claimed again at place j. */
  predicate ClaimedTwice(log: Log, i: nat, j: nat)
  {
    i < j < |log| && log[i].Claimed? && log[j].Claimed? && log[i].nonce == log[j].nonce
  }

  /** No reload lengthens the nonce lifetime. */
  predicate NeverLengthened(log: Log)
  {
    forall i, j :: 0 <= i < j < |log| && log[i].Reloaded? && log[j].Reloaded? ==> log[j].cfg.nonceTtl <= log[i].cfg.nonceTtl
  }

  /** The ingredients of a run: a configuration with its registry, and a knock that is good at two clock readings. */
  datatype Play = Play(env: Env, cfg: Settings, reg: Registry, clock: I64, seen: Seen,
                       body: Body, nonce: Bytes, tag: Bytes, token: Token)
  {
    ghost predicate Valid()
    {
      && env.Valid() && RegistryOf(cfg) == Some(reg)
      && Usable(Some(seen)) && seen.service in cfg.services
      && DecodeBody(env, body) == Some((nonce, tag))
      && env.proofOk(token.secret, seen.service, body.kid, nonce, tag)
    }

    predicate GoodAt(now: I64, ttl: I64)
    {
      && env.nonceOk(nonce, seen.service, seen.ip, now, ttl, cfg.v6Prefix)
      && Authorize(reg, body.kid, seen.service, now) == Ok(token)
    }

    function Ctx0(): Ctx
    {
      Resolved(cfg, seen)
    }
  }

  // ---- a shortened lifetime -------------------------------------------------

  function Shortened(p: Play, short: I64): Settings
  {
    p.cfg.(nonceTtl := short)
  }

  /** Request 1 reads the configuration; a reload shortens the lifetime; request 2 claims the nonce; when its
      record has run out, request 1 claims it again. */
  function LongerTtlRun(p: Play, short: I64): seq<Action>
    requires short >= 0
  {
    Begin(1, p.seen) + ([DoReload(Shortened(p, short))] + (Begin(2, p.seen) + (Prove(2, p.body) + ClaimTwice(p, short))))
  }

  function ClaimTwice(p: Play, short: I64): seq<Action>
    requires short >= 0
  {
    [DoRespondClaim(2)] + ([DoTick(short)] + (Prove(1, p.body) + [DoRespondClaim(1)]))
  }

  lemma RegistryIgnoresTtl(cfg: Settings, ttl: I64)
    ensures RegistryOf(cfg.(nonceTtl := ttl)) == RegistryOf(cfg)
  {
  }

  /** Request 2 is about to claim under the short lifetime, request 1 still holds the long one. */
  predicate ReadyToClaim(p: Play, s: State, short: I64)
  {
    && s.clock == p.clock && s.reg == p.reg && s.spent == map[]
    && 1 in s.inflight && s.inflight[1] == RespondConfigured(p.Ctx0(), p.cfg)
    && 2 in s.inflight && s.inflight[2].RespondProved? && s.inflight[2].nonce == p.nonce
    && s.inflight[2].now == p.clock && s.inflight[2].cfg.nonceTtl == short
  }

  lemma ClaimsAgain(p: Play, s: State, short: I64)
    requires p.Valid() && 0 < short < p.cfg.nonceTtl && p.clock + short <= MAX_I64
    requires p.GoodAt(p.clock + short, p.cfg.nonceTtl) && ReadyToClaim(p, s, short)
    ensures var s' := Run(p.env, s, ClaimTwice(p, short));
            && |s'.log| == |s.log| + 3 && s.log <= s'.log && s'.log[|s.log| + 1].Proved?
            && ClaimedTwice(s'.log, |s.log|, |s.log| + 2)
  {
    var env := p.env;
    var again := Prove(1, p.body) + [DoRespondClaim(1)];
    ClaimStep(env, s, 2);
    var s1 := Next(env, s, DoRespondClaim(2));
    OneStep(env, s, DoRespondClaim(2), [DoTick(short)] + again);
    var s2 := s1.(clock := s1.clock + short);
    TickStep(env, s1, short);
    OneStep(env, s1, DoTick(short), again);
    Proves(env, s2, 1, p.body, p.nonce, p.tag, p.token);
    RunConcat(env, s2, Prove(1, p.body), [DoRespondClaim(1)]);
    var s3 := Run(env, s2, Prove(1, p.body));
    LastStep(env, s3, DoRespondClaim(1));
    ClaimStep(env, s3, 1);
  }

  lemma SecondRequest(p: Play, s: State, short: I64)
    requires p.Valid() && 0 < short < p.cfg.nonceTtl && p.GoodAt(p.clock, short)
    requires s.cfg == Shortened(p, short) && s.reg == p.reg && s.clock == p.clock && s.spent == map[]
    requires s.inflight == map[1 := RespondConfigured(p.Ctx0(), p.cfg)]
    ensures var s' := Run(p.env, s, Begin(2, p.seen) + Prove(2, p.body));
            ReadyToClaim(p, s', short) && |s'.log| == |s.log| + 1 && s.log <= s'.log && s'.log[|s.log|].Proved?
  {
    var s1 := s.Go(2, RespondConfigured(p.Ctx0(), Shortened(p, short)));
    Begins(p.env, s, 2, p.seen);
    RunConcat(p.env, s, Begin(2, p.seen), Prove(2, p.body));
    Proves(p.env, s1, 2, p.body, p.nonce, p.tag, p.token);
  }

  lemma TickStep(env: Env, s: State, seconds: nat)
    requires env.crypto.Valid() && s.clock + seconds <= MAX_I64
    ensures Next(env, s, DoTick(seconds)) == s.(clock := s.clock + seconds)
  {
  }

  lemma ReloadStep(env: Env, s: State, cfg: Settings, reg: Registry)
    requires env.crypto.Valid() && RegistryOf(cfg) == Some(reg)
    requires cfg.listen == s.cfg.listen && cfg.adminListen == s.cfg.adminListen
    ensures Next(env, s, DoReload(cfg)) == s.(cfg := cfg, reg := reg).Emit(Reloaded(cfg, reg))
  {
  }

  /** The state after the reload. */
  function Reloaded1(p: Play, short: I64): State
  {
    var s := Init(p.cfg, p.reg, p.clock).Go(1, RespondConfigured(p.Ctx0(), p.cfg));
    s.(cfg := Shortened(p, short), reg := p.reg).Emit(Reloaded(Shortened(p, short), p.reg))
  }

  lemma FirstRequest(p: Play, short: I64)
    requires p.Valid()
    ensures Run(p.env, Init(p.cfg, p.reg, p.clock), Begin(1, p.seen) + [DoReload(Shortened(p, short))]) == Reloaded1(p, short)
  {
    var s0 := Init(p.cfg, p.reg, p.clock);
    Begins(p.env, s0, 1, p.seen);
    RunConcat(p.env, s0, Begin(1, p.seen), [DoReload(Shortened(p, short))]);
    RegistryIgnoresTtl(p.cfg, short);
    var s1 := s0.Go(1, RespondConfigured(p.Ctx0(), p.cfg));
    LastStep(p.env, s1, DoReload(Shortened(p, short)));
    ReloadStep(p.env, s1, Shortened(p, short), p.reg);
  }

  lemma LongerTtlRunParts(p: Play, short: I64)
    requires short >= 0
    ensures LongerTtlRun(p, short)
         == (Begin(1, p.seen) + [DoReload(Shortened(p, short))]) + ((Begin(2, p.seen) + Prove(2, p.body)) + ClaimTwice(p, short))
  {
  }

  /** The run does what it says. */
  lemma LongerTtlClaimsTwice(p: Play, short: I64)
    requires p.Valid() && 0 < short < p.cfg.nonceTtl && p.clock + short <= MAX_I64
    requires p.GoodAt(p.clock, short) && p.GoodAt(p.clock + short, p.cfg.nonceTtl)
    ensures var t := Trace(p.env, p.cfg, p.reg, p.clock, LongerTtlRun(p, short));
            ClaimedTwice(t.Log(), 3, 5) && NeverLengthened(t.Log())
  {
    var s0, s1 := Init(p.cfg, p.reg, p.clock), Reloaded1(p, short);
    var middle := Begin(2, p.seen) + Prove(2, p.body);
    LongerTtlRunParts(p, short);
    FirstRequest(p, short);
    RunConcat(p.env, s0, Begin(1, p.seen) + [DoReload(Shortened(p, short))], middle + ClaimTwice(p, short));
    AfterTheReload(p, s1, short);
  }

  lemma AfterTheReload(p: Play, s: State, short: I64)
    requires p.Valid() && 0 < short < p.cfg.nonceTtl && p.clock + short <= MAX_I64
    requires p.GoodAt(p.clock, short) && p.GoodAt(p.clock + short, p.cfg.nonceTtl)
    requires s == Reloaded1(p, short)
    ensures var log := Run(p.env, s, (Begin(2, p.seen) + Prove(2, p.body)) + ClaimTwice(p, short)).log;
            ClaimedTwice(log, 3, 5) && NeverLengthened(log)
  {
    var middle := Begin(2, p.seen) + Prove(2, p.body);
    SecondRequest(p, s, short);
    RunConcat(p.env, s, middle, ClaimTwice(p, short));
    var s1 := Run(p.env, s, middle);
    ClaimsAgain(p, s1, short);
    SixEvents(s.log, s1.log, Run(p.env, s1, ClaimTwice(p, short)).log, p.cfg, Shortened(p, short), p.reg);
  }

  lemma SixEvents(a: Log, b: Log, c: Log, cfg: Settings, shorter: Settings, reg: Registry)
    requires a == [Reloaded(cfg, reg), Reloaded(shorter, reg)] && shorter.nonceTtl <= cfg.nonceTtl
    requires |b| == 3 && a <= b && b[2].Proved?
    requires |c| == 6 && b <= c && c[4].Proved? && ClaimedTwice(c, 3, 5)
    ensures NeverLengthened(c)
  {
    assert c[0] == b[0] == a[0] && c[1] == b[1] == a[1] && c[2] == b[2];
  }

  // ---- a stalled claim ------------------------------------------------------

  /** Two requests read the clock and pass every check; one claims; a sweep runs when its record is due; the
      stalled one claims. */
  function StalledRun(p: Play): seq<Action>
    requires 0 <= p.cfg.nonceTtl <= MAX_I64 - p.clock
  {
    ((Begin(1, p.seen) + Prove(1, p.body)) + (Begin(2, p.seen) + Prove(2, p.body))) + (BurnSweep(p) + [DoRespondClaim(2)])
  }

  function BurnSweep(p: Play): seq<Action>
    requires 0 <= p.cfg.nonceTtl <= MAX_I64 - p.clock
  {
    [DoRespondClaim(1)] + ([DoTick(p.cfg.nonceTtl)] + [DoSweepNonces(p.clock + p.cfg.nonceTtl)])
  }

  predicate AboutTo(p: Play, s: State, rid: Rid)
  {
    && rid in s.inflight && s.inflight[rid].RespondProved? && s.inflight[rid].nonce == p.nonce
    && s.inflight[rid].now == p.clock && s.inflight[rid].cfg == p.cfg
  }

  lemma GetsReady(p: Play, s: State, rid: Rid)
    requires p.Valid() && p.GoodAt(p.clock, p.cfg.nonceTtl)
    requires s.cfg == p.cfg && s.reg == p.reg && s.clock == p.clock && s.spent == map[] && rid !in s.inflight
    ensures var s' := Run(p.env, s, Begin(rid, p.seen) + Prove(rid, p.body));
            && AboutTo(p, s', rid) && s'.inflight.Keys == s.inflight.Keys + {rid}
            && (forall r :: r in s.inflight ==> s'.inflight[r] == s.inflight[r])
            && s'.cfg == p.cfg && s'.reg == p.reg && s'.clock == p.clock && s'.spent == map[]
            && |s'.log| == |s.log| + 1 && s.log <= s'.log && s'.log[|s.log|].Proved?
  {
    var s1 := s.Go(rid, RespondConfigured(p.Ctx0(), p.cfg));
    Begins(p.env, s, rid, p.seen);
    RunConcat(p.env, s, Begin(rid, p.seen), Prove(rid, p.body));
    Proves(p.env, s1, rid, p.body, p.nonce, p.tag, p.token);
  }

  lemma SweepNoncesStep(env: Env, s: State)
    requires env.crypto.Valid()
    ensures Next(env, s, DoSweepNonces(s.clock)) == s.(spent := SweepSpent(s.spent, s.clock)).Emit(SweptNonces(s.clock))
  {
  }

  /** After the first claim, the tick and the sweep. */
  predicate SweptAway(p: Play, s: State, s': State)
  {
    && WholeNonce(p) && NonceId(p.env, p.nonce) !in s'.spent && AboutTo(p, s', 2)
    && |s'.log| == |s.log| + 2 && s.log <= s'.log && s'.log[|s.log|].Claimed? && s'.log[|s.log|].nonce == p.nonce
    && s'.log[|s.log| + 1].SweptNonces?
  }

  predicate WholeNonce(p: Play)
  {
    |p.nonce| == NONCE_LEN
  }

  /** The sweep takes the record just written, and leaves request 2 about to claim. */
  lemma SweepTakesIt(p: Play, s: State, s1: State, s2: State)
    requires p.env.crypto.Valid() && AboutTo(p, s, 1) && AboutTo(p, s, 2) && s.spent == map[] && WholeNonce(p)
    requires HasClaimed(p.env, s, s1, 1, s.inflight[1])
    requires s2 == s1.(clock := s2.clock) && s2.clock == p.clock + p.cfg.nonceTtl
    ensures SweptAway(p, s, s2.(spent := SweepSpent(s2.spent, s2.clock)).Emit(SweptNonces(s2.clock)))
  {
  }

  lemma BurnsAndSweeps(p: Play, s: State)
    requires p.Valid() && 0 < p.cfg.nonceTtl <= MAX_I64 - p.clock
    requires AboutTo(p, s, 1) && AboutTo(p, s, 2) && s.clock == p.clock && s.spent == map[]
    ensures SweptAway(p, s, Run(p.env, s, BurnSweep(p)))
  {
    var env, ttl := p.env, p.cfg.nonceTtl;
    ClaimStep(env, s, 1);
    var s1 := Next(env, s, DoRespondClaim(1));
    OneStep(env, s, DoRespondClaim(1), [DoTick(ttl)] + [DoSweepNonces(p.clock + ttl)]);
    var s2 := s1.(clock := s1.clock + ttl);
    TickStep(env, s1, ttl);
    TwoSteps(env, s1, DoTick(ttl), s2, DoSweepNonces(p.clock + ttl));
    SweepNoncesStep(env, s2);
    SweepTakesIt(p, s, s1, s2);
  }

  lemma LogsTwice(a: Log, b: Log, c: Log, nonce: Bytes)
    requires |b| == |a| + 2 && a <= b && b[|a|].Claimed? && b[|a|].nonce == nonce && b[|a| + 1].SweptNonces?
    requires |c| == |b| + 1 && b <= c && c[|b|].Claimed? && c[|b|].nonce == nonce
    ensures a <= c && c[|a| + 1].SweptNonces? && ClaimedTwice(c, |a|, |a| + 2)
  {
    assert c[|a|] == b[|a|] && c[|a| + 1] == b[|a| + 1];
  }

  lemma BurnsAgain(p: Play, s: State, s1: State)
    requires p.env.crypto.Valid() && SweptAway(p, s, s1)
    ensures var s' := Next(p.env, s1, DoRespondClaim(2));
            && |s'.log| == |s.log| + 3 && s.log <= s'.log && s'.log[|s.log| + 1].SweptNonces?
            && ClaimedTwice(s'.log, |s.log|, |s.log| + 2)
  {
    ClaimStep(p.env, s1, 2);
    LogsTwice(s.log, s1.log, Next(p.env, s1, DoRespondClaim(2)).log, p.nonce);
  }

  lemma BurnsTwice(p: Play, s: State, burn: seq<Action>)
    requires p.env.crypto.Valid() && SweptAway(p, s, Run(p.env, s, burn))
    ensures var s' := Run(p.env, s, burn + [DoRespondClaim(2)]);
            && |s'.log| == |s.log| + 3 && s.log <= s'.log && s'.log[|s.log| + 1].SweptNonces?
            && ClaimedTwice(s'.log, |s.log|, |s.log| + 2)
  {
    RunConcat(p.env, s, burn, [DoRespondClaim(2)]);
    LastStep(p.env, Run(p.env, s, burn), DoRespondClaim(2));
    BurnsAgain(p, s, Run(p.env, s, burn));
  }

  /** With one configuration throughout. */
  lemma StalledClaimClaimsTwice(p: Play)
    requires p.Valid() && 0 < p.cfg.nonceTtl <= MAX_I64 - p.clock && p.GoodAt(p.clock, p.cfg.nonceTtl)
    ensures var t := Trace(p.env, p.cfg, p.reg, p.clock, StalledRun(p));
            ClaimedTwice(t.Log(), 3, 5) && SteadyTtl(t.Log(), p.cfg.nonceTtl)
  {
    var s0 := Init(p.cfg, p.reg, p.clock);
    var both := (Begin(1, p.seen) + Prove(1, p.body)) + (Begin(2, p.seen) + Prove(2, p.body));
    RunConcat(p.env, s0, both, BurnSweep(p) + [DoRespondClaim(2)]);
    BothGetReady(p);
    var s1 := Run(p.env, s0, both);
    BurnsAndSweeps(p, s1);
    BurnsTwice(p, s1, BurnSweep(p));
    OneConfiguration(s1.log, Run(p.env, s1, BurnSweep(p) + [DoRespondClaim(2)]).log, p.cfg, p.reg);
  }

  lemma OneConfiguration(a: Log, b: Log, cfg: Settings, reg: Registry)
    requires |a| == 3 && a[0] == Reloaded(cfg, reg) && a[1].Proved? && a[2].Proved?
    requires |b| == 6 && a <= b && b[4].SweptNonces? && ClaimedTwice(b, 3, 5)
    ensures SteadyTtl(b, cfg.nonceTtl)
  {
    assert b[0] == a[0] && b[1] == a[1] && b[2] == a[2];
  }

  lemma BothGetReady(p: Play)
    requires p.Valid() && p.GoodAt(p.clock, p.cfg.nonceTtl)
    ensures var s := Run(p.env, Init(p.cfg, p.reg, p.clock), (Begin(1, p.seen) + Prove(1, p.body)) + (Begin(2, p.seen) + Prove(2, p.body)));
            && AboutTo(p, s, 1) && AboutTo(p, s, 2) && s.clock == p.clock && s.spent == map[]
            && |s.log| == 3 && s.log[0] == Reloaded(p.cfg, p.reg) && s.log[1].Proved? && s.log[2].Proved?
  {
    var s0 := Init(p.cfg, p.reg, p.clock);
    var one, two := Begin(1, p.seen) + Prove(1, p.body), Begin(2, p.seen) + Prove(2, p.body);
    RunConcat(p.env, s0, one, two);
    GetsReady(p, s0, 1);
    GetsReady(p, Run(p.env, s0, one), 2);
  }

  // ---- with the real encodings ----------------------------------------------

  function Zeros16(): Bytes
  {
    seq(16, _ => 0)
  }

  function Kid(): Bytes
  {
    Ascii("k")
  }

  function Name(): Bytes
  {
    Ascii("a")
  }

  /** One service with the given binding, one token, a nonce lifetime of a minute. */
  function OneService(binding: Bytes): Settings
  {
    Settings(Ascii(":8080"), [], Ascii("/jit"), 3600, 60, 86400, 128,
             map[Name() := ServiceConfig([Kid()], [], binding, 0)], [TokenConfig(Kid(), Some(Zeros16()), 0)])
  }

  function OneToken(): Registry
  {
    Registry(map[Kid() := Token(Zeros16(), AlgHmacSha256(), 0)], map[Name() := {Kid()}])
  }

  lemma OneServiceRegistry()
    ensures RegistryOf(OneService([])) == Some(OneToken())
  {
    var t := TokenConfig(Kid(), Some(Zeros16()), 0);
    assert [t][..0] == [];
    assert TokensOf([t]) == Some(map[Kid() := Token(Zeros16(), AlgHmacSha256(), 0)]);
    var services := OneService([]).services;
    var lists := map c | c in services :: set kid | kid in services[c].tokens;
    assert lists.Keys == {Name()};
    assert services[Name()].tokens == [Kid()];
    assert lists[Name()] == {Kid()};
    assert lists == map[Name() := {Kid()}];
  }

  lemma OneTokenAuthorizes(now: int)
    ensures Authorize(OneToken(), Kid(), Name(), now) == Ok(Token(Zeros16(), AlgHmacSha256(), 0))
  {
  }

  function Client(): Bytes
  {
    AddrText(V4(0x7f000001))
  }

  lemma ClientCanonical()
    ensures CanonIp(Client(), 128, 32).Ok?
  {
    AddrRoundTrip(V4(0x7f000001));
    CanonIpMeaning(Client(), 128, 32);
  }

  /** A knock that answers a challenge taken at time 0. */
  function RealPlay(c: Crypto, key: Bytes): Play
    requires c.Valid() && IssueNonce(c, key, 0, Zeros16(), Name(), Client(), 128).Some?
  {
    var nonce := IssueNonce(c, key, 0, Zeros16(), Name(), Client(), 128).value;
    Play(RealEnv(c, key), OneService([]), OneToken(), 0, Seen(Name(), Client(), Ascii("/")),
         HonestBody(c, Zeros16(), Name(), Kid(), nonce, 0), nonce, BuildProof(c, Zeros16(), Name(), Kid(), nonce),
         Token(Zeros16(), AlgHmacSha256(), 0))
  }

  lemma ChallengeWorks(c: Crypto, key: Bytes)
    requires c.Valid()
    ensures IssueNonce(c, key, 0, Zeros16(), Name(), Client(), 128).Some?
  {
    ClientCanonical();
  }

  lemma RealPlayIsGood(c: Crypto, key: Bytes, now: I64, ttl: I64)
    requires c.Valid() && 0 <= now < ttl
    ensures IssueNonce(c, key, 0, Zeros16(), Name(), Client(), 128).Some?
    ensures RealPlay(c, key).Valid() && RealPlay(c, key).GoodAt(now, ttl)
  {
    ChallengeWorks(c, key);
    OneServiceRegistry();
    OneTokenAuthorizes(now);
    PlayIsGood(RealPlay(c, key), c, key, now, ttl, Zeros16());
  }

  lemma PlayIsGood(p: Play, c: Crypto, key: Bytes, now: I64, ttl: I64, rand: Bytes)
    requires c.Valid() && 0 <= now < ttl && p.env == RealEnv(c, key) && Small(p.seen.service)
    requires RegistryOf(p.cfg) == Some(p.reg) && Usable(Some(p.seen)) && p.seen.service in p.cfg.services
    requires IssueNonce(c, key, 0, rand, p.seen.service, p.seen.ip, p.cfg.v6Prefix) == Some(p.nonce)
    requires p.body == HonestBody(c, p.token.secret, p.seen.service, p.body.kid, p.nonce, 0)
    requires p.tag == BuildProof(c, p.token.secret, p.seen.service, p.body.kid, p.nonce)
    requires Authorize(p.reg, p.body.kid, p.seen.service, now) == Ok(p.token)
    ensures p.Valid() && p.GoodAt(now, ttl)
  {
    RealEnvIsValid(c, key);
    HonestBodyPasses(c, key, 0, rand, p.seen.service, p.seen.ip, p.cfg.v6Prefix, p.token.secret, p.body.kid, 0, now, ttl);
  }

  /** Single use needs a lifetime that reloads keep, not only one they never lengthen. */
  lemma ShorteningIsNotEnough(c: Crypto, key: Bytes)
    requires c.Valid()
    ensures exists t: Trace :: t.env == RealEnv(c, key) && NeverLengthened(t.Log()) && ClaimedTwice(t.Log(), 3, 5)
  {
    RealPlayIsGood(c, key, 0, 30);
    RealPlayIsGood(c, key, 30, 60);
    LongerTtlClaimsTwice(RealPlay(c, key), 30);
    var p := RealPlay(c, key);
    var t := Trace(p.env, p.cfg, p.reg, p.clock, LongerTtlRun(p, 30));
    assert t.env == RealEnv(c, key) && NeverLengthened(t.Log()) && ClaimedTwice(t.Log(), 3, 5);
  }

  /** And a steady lifetime is not enough without the condition on sweeps. */
  lemma SteadyTtlIsNotEnough(c: Crypto, key: Bytes)
    requires c.Valid()
    ensures exists t: Trace :: t.env == RealEnv(c, key) && SteadyTtl(t.Log(), 60) && ClaimedTwice(t.Log(), 3, 5)
  {
    RealPlayIsGood(c, key, 0, 60);
    StalledClaimClaimsTwice(RealPlay(c, key));
    var p := RealPlay(c, key);
    var t := Trace(p.env, p.cfg, p.reg, p.clock, StalledRun(p));
    assert t.env == RealEnv(c, key) && SteadyTtl(t.Log(), 60) && ClaimedTwice(t.Log(), 3, 5);
  }

  // ---- a refused knock that burns its nonce ---------------------------------

  function AtStart(): State
  {
    Init(OneService(BindIpCookie()), OneToken(), 0)
  }

  function AtName(): Seen
  {
    Seen(Name(), Client(), Ascii("/"))
  }

  lemma ChallengeAtStart(c: Crypto, key: Bytes)
    requires c.Valid()
    ensures ChallengeOutcome(RealEnv(c, key), AtStart(), Some(AtName()), true, true, Some(Zeros16())).Some?
  {
    ChallengeWorks(c, key);
  }

  lemma StandingAtStart()
    ensures InGoodStanding(AtStart().reg, Kid(), Name(), 0) && Name() in AtStart().cfg.services
    ensures AtStart().cfg.services[Name()].binding == Ascii("ip+cookie")
    ensures AtStart().reg.tokens[Kid()].secret == Zeros16()
  {
    OneTokenAuthorizes(0);
  }

  /** For every key and hash there is a state that satisfies the invariant, and a knock that is refused in it and
      burns its nonce. */
  lemma RngFailureHappens(c: Crypto, key: Bytes)
    requires c.Valid()
    ensures exists s: State, k: KnockInput ::
              && Inv(RealEnv(c, key), s)
              && !EndsInGrant(s.log, RespondOutcome(RealEnv(c, key), s, k).log)
              && RespondOutcome(RealEnv(c, key), s, k).spent != s.spent
  {
    var env, s := RealEnv(c, key), AtStart();
    ChallengeAtStart(c, key);
    StandingAtStart();
    InitHolds(env, OneService(BindIpCookie()), OneToken(), 0);
    var nonce := ChallengeOutcome(env, s, Some(AtName()), true, true, Some(Zeros16())).value;
    var k := OffersTo(c, s, Kid(), nonce, 0, AtName(), []);
    RngFailureBurnsNonce(c, key, env, s, Zeros16(), s, AtName(), Kid(), 0, [], nonce, k);
    assert Inv(env, s) && !EndsInGrant(s.log, RespondOutcome(env, s, k).log) && RespondOutcome(env, s, k).spent != s.spent;
  }
}
