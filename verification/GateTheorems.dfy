/** What the gate promises over every run: who gets in, how often a nonce and a code are good for.
    A run is any sequence of steps of any number of requests, reloads, sweeps and admin calls. */
module GateTheorems {
  import opened ByteStrings
  import opened Knock
  import opened Registries
  import opened GrantStores
  import opened SingleUseStores
  import opened Configs
  import opened Gate
  import opened GateInvariant

  /** A run from start-up. */
  datatype Trace = Trace(env: Env, cfg: Settings, reg: Registry, clock: I64, actions: seq<Action>)
  {
    ghost predicate Valid()
    {
      env.Valid()
    }

    function End(): State
      requires env.crypto.Valid()
    {
      Run(env, Init(cfg, reg, clock), actions)
    }

    /** What it leaves in the log. */
    function Log(): Log
      requires env.crypto.Valid()
    {
      End().log
    }
  }

  lemma TraceKeeps(t: Trace)
    requires t.Valid()
    ensures Inv(t.env, t.End())
  {
    InitHolds(t.env, t.cfg, t.reg, t.clock);
    RunKeeps(t.env, Init(t.cfg, t.reg, t.clock), t.actions);
  }

  lemma LogIsOk(t: Trace)
    requires t.Valid()
    ensures LogOk(t.env, t.Log())
  {
    TraceKeeps(t);
  }

  lemma StoresAreReplayed(t: Trace)
    requires t.Valid()
    ensures Held(t.End()) == Replay(t.Log())
  {
    TraceKeeps(t);
  }

  // ---- what is in the grant store -------------------------------------------

  /** The event leaves g's record where it is: it puts nothing over it, retires, revokes or outlives it. */
  predicate Spares(e: Event, g: Grant)
  {
    match e
    case Granted(h, olds, _) => KeyFor(h) != KeyFor(g) && KeyFor(g) !in RetiredKeys(h, olds)
    case Revoked(service, ip) => !(service == g.service && ip == g.ip)
    case RevokedKid(kid) => kid != g.kid
    case SweptGrants(at) => at < g.exp
    case _ => true
  }

  /** Place j is the Put of g, and everything since has spared it. */
  predicate Stands(log: Log, j: int, g: Grant)
  {
    && 0 <= j < |log| && log[j].Granted? && log[j].grant == g
    && SparedAfter(log, j, g)
  }

  /** Everything after place j spares g. */
  predicate SparedAfter(log: Log, j: int, g: Grant)
  {
    forall m :: 0 <= m < |log| && j < m ==> Spares(log[m], g)
  }

  lemma StandsSnoc(log: Log, e: Event, j: int, g: Grant)
    ensures Stands(log + [e], j, g)
       <==> (j == |log| && e.Granted? && e.grant == g) || (Stands(log, j, g) && Spares(e, g))
  {
    var log' := log + [e];
    assert log'[|log|] == e;
    assert forall m :: 0 <= m < |log| ==> log'[m] == log[m];
  }

  lemma StandsSomewhere(log: Log, e: Event, g: Grant)
    ensures (exists j :: Stands(log + [e], j, g))
       <==> (e.Granted? && e.grant == g) || (Spares(e, g) && exists j :: Stands(log, j, g))
  {
    if j :| Stands(log + [e], j, g) {
      StandsSnoc(log, e, j, g);
    }
    if e.Granted? && e.grant == g {
      StandsSnoc(log, e, |log|, g);
    }
    if j :| Stands(log, j, g) {
      StandsSnoc(log, e, j, g);
    }
  }

  predicate Stored(m: Grants, k: Bytes, g: Grant)
  {
    k in m && m[k] == g
  }

  lemma StoredStep(st: Stores, e: Event, k: Bytes, g: Grant)
    requires forall q :: q in st.grants ==> q == KeyFor(st.grants[q])
    ensures Stored(ReplayOne(st, e).grants, k, g)
       <==> (e.Granted? && e.grant == g && k == KeyFor(g)) || (Stored(st.grants, k, g) && Spares(e, g))
    ensures forall q :: q in ReplayOne(st, e).grants ==> q == KeyFor(ReplayOne(st, e).grants[q])
  {
  }

  lemma {:induction false} KeysFit(log: Log)
    ensures forall q :: q in Replay(log).grants ==> q == KeyFor(Replay(log).grants[q])
  {
    if log != [] {
      KeysFit(log[..|log| - 1]);
      StoredStep(Replay(log[..|log| - 1]), log[|log| - 1], [], ANY_GRANT);
    }
  }

  const ANY_GRANT: Grant := Grant([], [], [], ByIp, [], 0, 0, false, [])

  /** A grant is in the store exactly when it was put there and everything since has spared it. */
  lemma {:induction false} StoredExactlyWhenStanding(log: Log, k: Bytes, g: Grant)
    ensures Stored(Replay(log).grants, k, g) <==> k == KeyFor(g) && exists j :: Stands(log, j, g)
  {
    if log != [] {
      var front, e := log[..|log| - 1], log[|log| - 1];
      assert log == front + [e];
      KeysFit(front);
      StoredExactlyWhenStanding(front, k, g);
      StoredStep(Replay(front), e, k, g);
      StandsSomewhere(front, e, g);
    }
  }

  /** In every run the store holds exactly the grants that stand. */
  lemma StoreHoldsWhatStands(t: Trace, k: Bytes, g: Grant)
    requires t.Valid()
    ensures Stored(t.End().grants, k, g) <==> k == KeyFor(g) && exists j :: Stands(t.Log(), j, g)
  {
    StoresAreReplayed(t);
    StoredExactlyWhenStanding(t.Log(), k, g);
  }

  // ---- who gets in ----------------------------------------------------------

  /** Place j is the Put the access at place i rests on: for exactly that service and address,
      unexpired, and still standing, so with no revocation of the pair or the kid in between. */
  predicate RestsOn(log: Log, i: nat, j: int)
    requires i < |log| && log[i].Admitted?
  {
    var e := log[i];
    && Stands(log[..i], j, e.grant)
    && e.grant.service == e.ctx.service && e.grant.ip == e.ctx.ip
    && e.now < e.grant.exp
  }

  /** The registry the request read was the one in force when it read it, and, unless the grant is an
      administrator's own, in it the kid is in good standing under the secret the grant was minted with. */
  predicate StandsInRegistry(env: Env, log: Log, i: nat)
    requires env.crypto.Valid() && i < |log| && log[i].Admitted?
  {
    var e := log[i];
    && e.read < i && log[e.read] == RegistryRead(e.reg) && e.reg == Replay(log[..e.read]).reg
    && (!e.grant.manual ==>
          && InGoodStanding(e.reg, e.grant.kid, e.ctx.service, e.now)
          && e.grant.secretFp == env.crypto.HexDigest(e.reg.tokens[e.grant.kid].secret))
  }

  /** A device-bound service opens only on a device-bound grant, and that only to the holder of its cookie. */
  predicate HoldsCookie(env: Env, e: Event)
    requires env.crypto.Valid() && e.Admitted?
  {
    && (e.ctx.svc.binding == Ascii("ip+cookie") ==> e.grant.binding == ByIpCookie)
    && (e.grant.binding == ByIpCookie ==>
          e.cookie != [] && e.grant.cookieHash != [] && env.crypto.HexDigest(e.cookie) == e.grant.cookieHash)
  }

  /** Everything an access must rest on. */
  ghost predicate Rightful(env: Env, log: Log, i: nat)
    requires env.crypto.Valid() && i < |log| && log[i].Admitted?
  {
    (exists j :: RestsOn(log, i, j)) && StandsInRegistry(env, log, i) && HoldsCookie(env, log[i])
  }

  /** In every run, every access rests on a Put that still stands. */
  lemma AccessRestsOnAPut(t: Trace, i: nat)
    requires t.Valid() && i < |t.Log()| && t.Log()[i].Admitted?
    ensures exists j :: RestsOn(t.Log(), i, j)
    ensures StandsInRegistry(t.env, t.Log(), i)
    ensures HoldsCookie(t.env, t.Log()[i])
  {
    LogIsOk(t);
    AdmittedMeans(t.env, t.Log(), i);
  }

  lemma AdmittedMeans(env: Env, log: Log, i: nat)
    requires env.crypto.Valid() && LogOk(env, log) && i < |log| && log[i].Admitted?
    ensures Rightful(env, log, i)
  {
    var e := log[i];
    assert Justified(env, log[..i], e);
    var m := Replay(log[..i]).grants;
    assert e.grant in m.Values;
    var k :| k in m && m[k] == e.grant;
    StoredExactlyWhenStanding(log[..i], k, e.grant);
    var j :| Stands(log[..i], j, e.grant);
    assert RestsOn(log, i, j);
    assert Justified(env, log[..e.read], log[e.read]);
    assert log[..i][..e.read] == log[..e.read];
  }

  /** The four paths the gate lets through without a grant. */
  function EndpointPaths(prefix: Bytes): set<Bytes>
  {
    {prefix + Ascii("/challenge"), prefix + Ascii("/respond"), prefix + Ascii("/enroll"), prefix + Ascii("/register")}
  }

  /** In every run, whatever else is let through is one of the four endpoint paths, by exact name. */
  lemma CarvedIsEndpoint(t: Trace, i: nat)
    requires t.Valid() && i < |t.Log()| && t.Log()[i].Carved?
    ensures t.Log()[i].ctx.uri in EndpointPaths(t.Log()[i].cfg.uriPrefix)
  {
    LogIsOk(t);
    assert Justified(t.env, t.Log()[..i], t.Log()[i]);
  }

  /** After a revocation, of the pair or of the kid, only a Put made since can open the gate. */
  lemma RevocationHolds(t: Trace, m: nat, i: nat)
    requires t.Valid() && m < i < |t.Log()| && t.Log()[i].Admitted?
    requires var e := t.Log()[i]; t.Log()[m] == Revoked(e.ctx.service, e.ctx.ip) || t.Log()[m] == RevokedKid(e.grant.kid)
    ensures exists j :: m < j < i && RestsOn(t.Log(), i, j)
  {
    AccessRestsOnAPut(t, i);
    var j :| RestsOn(t.Log(), i, j);
    assert t.Log()[..i][m] == t.Log()[m];
    assert !Spares(t.Log()[m], t.Log()[i].grant);
    assert m < j < i && RestsOn(t.Log(), i, j);
  }

  // ---- the knock behind a grant ---------------------------------------------

  /** The grant put at place j was minted by the claim at c of the knock proved at p: the device presented
      a fresh nonce of ours for this service and address and a proof under the secret its kid then had. */
  predicate MintedBy(env: Env, log: Log, j: nat, c: nat, p: nat)
    requires env.crypto.Valid()
  {
    && p < c < j < |log| && log[j].Granted? && log[c].Claimed? && log[p].Proved?
    && var (g, k) := (log[j].grant, log[p]);
    && log[j].source == FromKnock(c) && log[c].proof == p && log[c].nonce == k.nonce
    && env.nonceOk(k.nonce, g.service, g.ip, k.now, k.cfg.nonceTtl, k.cfg.v6Prefix)
    && k.reg == Replay(log[..p]).reg && InGoodStanding(k.reg, g.kid, g.service, k.now) && k.token == k.reg.tokens[g.kid]
    && env.proofOk(k.token.secret, g.service, g.kid, k.nonce, k.tag)
    && g.secretFp == env.crypto.HexDigest(k.token.secret)
    && !g.manual && g.issued == k.now
    && g.exp == k.now + (if k.ctx.svc.grantTtl > 0 then k.ctx.svc.grantTtl else k.cfg.grantTtl)
    && (g.binding == ByIpCookie <==> k.ctx.svc.binding == Ascii("ip+cookie"))
    && (g.binding == ByIp <==> g.cookieHash == [])
  }

  lemma MintedRightly(env: Env, log: Log, j: nat)
    requires env.crypto.Valid() && LogOk(env, log) && j < |log| && log[j].Granted? && log[j].source.FromKnock?
    ensures var c := log[j].source.claim; c < |log| && log[c].Claimed? && MintedBy(env, log, j, c, log[c].proof)
  {
    assert Justified(env, log[..j], log[j]);
    var c := log[j].source.claim;
    assert log[c] == log[..j][c];
    assert Justified(env, log[..c], log[c]);
    var p := log[c].proof;
    assert log[p] == log[..c][p];
    ProvedMeans(env, log, p);
  }

  /** In every run, what a knocked grant says was proved by the knock it came from. */
  lemma KnockedGrantMeans(t: Trace, j: nat)
    requires t.Valid() && j < |t.Log()| && t.Log()[j].Granted? && t.Log()[j].source.FromKnock?
    ensures var (log, c) := (t.Log(), t.Log()[j].source.claim);
            c < |log| && log[c].Claimed? && MintedBy(t.env, log, j, c, log[c].proof)
  {
    LogIsOk(t);
    MintedRightly(t.env, t.Log(), j);
  }

  /** Every access through a knock: the secret the device proved, and the one its kid holds in the
      registry the request read, have the same fingerprint. So a knock under way while the secret was
      rotated, whatever the order of its steps and the reload's, opens nothing. */
  lemma RotationEvicts(t: Trace, i: nat, j: nat)
    requires t.Valid() && i < |t.Log()| && t.Log()[i].Admitted? && RestsOn(t.Log(), i, j) && t.Log()[j].source.FromKnock?
    ensures var log := t.Log();
            var c := log[j].source.claim;
            && c < j && log[c].Claimed? && MintedBy(t.env, log, j, c, log[c].proof)
            && log[i].grant.kid in log[i].reg.tokens
            && var (proved, current) := (log[log[c].proof].token.secret, log[i].reg.tokens[log[i].grant.kid].secret);
            && t.env.crypto.HexDigest(proved) == t.env.crypto.HexDigest(current)
            && ((t.env.crypto.sha256(proved) == t.env.crypto.sha256(current) ==> proved == current) ==> proved == current)
  {
    var log := t.Log();
    KnockedGrantMeans(t, j);
    AccessRestsOnAPut(t, i);
    HexInjective(t.env.crypto.sha256(log[log[log[j].source.claim].proof].token.secret),
                 t.env.crypto.sha256(log[i].reg.tokens[log[i].grant.kid].secret));
  }

  // ---- claims ---------------------------------------------------------------

  /** The proof accepted at place p was sound: a nonce of ours, fresh for this service and address, under a
      configuration that had been loaded; a kid in good standing in the registry then in force; and a tag
      made with the secret it has there. */
  predicate ProofSound(env: Env, log: Log, p: nat)
  {
    && p < |log| && log[p].Proved?
    && var e := log[p];
    && env.nonceOk(e.nonce, e.ctx.service, e.ctx.ip, e.now, e.cfg.nonceTtl, e.cfg.v6Prefix)
    && Loaded(log[..p], e.cfg)
    && e.reg == Replay(log[..p]).reg
    && InGoodStanding(e.reg, e.kid, e.ctx.service, e.now)
    && e.token == e.reg.tokens[e.kid]
    && env.proofOk(e.token.secret, e.ctx.service, e.kid, e.nonce, e.tag)
  }

  lemma ProvedMeans(env: Env, log: Log, p: nat)
    requires env.crypto.Valid() && LogOk(env, log) && p < |log| && log[p].Proved?
    ensures ProofSound(env, log, p)
  {
    assert Justified(env, log[..p], log[p]);
    AuthorizesExactly(log[p].reg, log[p].kid, log[p].ctx.service, log[p].now);
  }

  /** In every run, every accepted proof is sound. */
  lemma ProofIsSound(t: Trace, p: nat)
    requires t.Valid() && p < |t.Log()| && t.Log()[p].Proved?
    ensures ProofSound(t.env, t.Log(), p)
  {
    LogIsOk(t);
    ProvedMeans(t.env, t.Log(), p);
  }

  /** The claim at place i burned the nonce of a knock whose proof had been accepted: fresh, of ours, under
      a configuration that had been loaded, by a kid in good standing in the registry then in force. */
  predicate ClaimRestsOn(env: Env, log: Log, i: nat, p: nat)
  {
    && p < i < |log| && log[i].Claimed? && log[p].Proved?
    && log[i].nonce == log[p].nonce && |log[i].nonce| == NONCE_LEN && log[i].id == NonceId(env, log[i].nonce)
    && log[i].now == log[p].now && log[i].ttl == log[p].cfg.nonceTtl
    && ProofSound(env, log, p)
    && (log[i].id in Replay(log[..i]).spent ==> log[i].now >= Replay(log[..i]).spent[log[i].id])
  }

  lemma ClaimedMeans(env: Env, log: Log, i: nat)
    requires env.Valid() && LogOk(env, log) && i < |log| && log[i].Claimed?
    ensures ClaimRestsOn(env, log, i, log[i].proof)
    ensures Fresh(env.stamp(log[i].nonce), log[i].now, log[i].ttl)
  {
    var e := log[i];
    assert Justified(env, log[..i], e);
    assert log[e.proof] == log[..i][e.proof];
    ProvedMeans(env, log, e.proof);
  }

  /** In every run, only an accepted proof burns a nonce. */
  lemma ClaimRestsOnAProof(t: Trace, i: nat)
    requires t.Valid() && i < |t.Log()| && t.Log()[i].Claimed?
    ensures ClaimRestsOn(t.env, t.Log(), i, t.Log()[i].proof)
  {
    LogIsOk(t);
    ClaimedMeans(t.env, t.Log(), i);
  }

  /** Every claim found its nonce claimable and set a record to expire later than its own clock. */
  predicate SoundClaims(log: Log)
  {
    forall i :: 0 <= i < |log| && log[i].Claimed? ==> SoundClaim(log, i)
  }

  predicate SoundClaim(log: Log, i: nat)
    requires i < |log| && log[i].Claimed?
  {
    Claimable(Replay(log[..i]).spent, log[i].id, log[i].now) && log[i].ttl > 0
  }

  lemma ClaimsAreSound(env: Env, log: Log)
    requires env.Valid() && LogOk(env, log)
    ensures SoundClaims(log)
  {
    forall i | 0 <= i < |log| && log[i].Claimed? ensures SoundClaim(log, i) {
      ClaimedMeans(env, log, i);
    }
  }

  lemma ReplayTo(log: Log, k: nat)
    requires k < |log|
    ensures Replay(log[..k + 1]) == ReplayOne(Replay(log[..k]), log[k])
  {
    assert log[..k + 1] == log[..k] + [log[k]];
    ReplaySnoc(log[..k], log[k]);
  }

  /** When the record the claim at place i writes runs out. */
  function Due(log: Log, i: nat): int
    requires i < |log| && log[i].Claimed?
  {
    log[i].now + log[i].ttl
  }

  /** Between places i and j a nonce sweep ran with a clock at or past the limit. */
  predicate SweepPasses(log: Log, i: int, j: int, limit: int)
  {
    exists k :: 0 <= k < |log| && i < k < j && PassesAt(log, k, limit)
  }

  predicate PassesAt(log: Log, k: nat, limit: int)
    requires k < |log|
  {
    log[k].SweptNonces? && log[k].at >= limit
  }

  predicate ClaimedBetween(log: Log, i: int, j: int, id: Bytes)
  {
    exists k :: 0 <= k < |log| && i < k < j && ClaimsAt(log, k, id)
  }

  predicate ClaimsAt(log: Log, k: nat, id: Bytes)
    requires k < |log|
  {
    log[k].Claimed? && log[k].id == id
  }

  /** What becomes of the record the claim at i wrote, as long as the id is not claimed again. */
  lemma {:induction false} RecordUntilSwept(log: Log, i: nat, n: nat)
    requires i < n <= |log| && log[i].Claimed? && !ClaimedBetween(log, i, n, log[i].id)
    ensures var (m, id, exp) := (Replay(log[..n]).spent, log[i].id, log[i].now + log[i].ttl);
            (id in m <==> !SweepPasses(log, i, n, exp)) && (id in m ==> m[id] == exp)
    decreases n
  {
    var id, exp := log[i].id, log[i].now + log[i].ttl;
    ReplayTo(log, n - 1);
    if n - 1 > i {
      assert !ClaimsAt(log, n - 1, id);
      assert !ClaimedBetween(log, i, n - 1, id);
      RecordUntilSwept(log, i, n - 1);
      assert SweepPasses(log, i, n, exp) <==> SweepPasses(log, i, n - 1, exp) || PassesAt(log, n - 1, exp);
    }
  }

  lemma ReclaimInLog(log: Log, i: nat, now: int)
    requires i < |log| && log[i].Claimed? && !ClaimedBetween(log, i, |log|, log[i].id)
    ensures var e := log[i];
            Claimable(Replay(log).spent, e.id, now) <==> now >= e.now + e.ttl || SweepPasses(log, i, |log|, e.now + e.ttl)
  {
    assert log[..|log|] == log;
    RecordUntilSwept(log, i, |log|);
  }

  /** In every run, exactly when a nonce last burned at place i can be burned again: its record has expired
      by the claimant's own clock, or a sweep whose clock had passed the expiry has run since. */
  lemma ReclaimExactly(t: Trace, i: nat, now: int)
    requires t.Valid() && i < |t.Log()| && t.Log()[i].Claimed?
    requires !ClaimedBetween(t.Log(), i, |t.Log()|, t.Log()[i].id)
    ensures var e := t.Log()[i];
            Claimable(t.End().spent, e.id, now) <==> now >= e.now + e.ttl || SweepPasses(t.Log(), i, |t.Log()|, e.now + e.ttl)
  {
    StoresAreReplayed(t);
    ReclaimInLog(t.Log(), i, now);
  }

  // ---- single use -----------------------------------------------------------

  predicate Outlasts(m: Spent, id: Bytes, limit: int)
  {
    id in m && m[id] > limit
  }

  /** A record that outlasts a clock reading still does after any event but a sweep that has passed it. */
  lemma RecordStays(st: Stores, e: Event, id: Bytes, limit: int)
    requires Outlasts(st.spent, id, limit)
    requires e.Claimed? ==> Claimable(st.spent, e.id, e.now) && e.ttl > 0
    requires e.SweptNonces? ==> e.at <= limit
    ensures Outlasts(ReplayOne(st, e).spent, id, limit)
  {
  }

  /** Once an id is claimed at i, its record is there, and outlasts the limit, until a sweep has passed it. */
  lemma {:induction false} RecordOutlasts(log: Log, i: nat, k: nat, limit: int)
    requires SoundClaims(log) && !SweepPasses(log, i, k, limit + 1)
    requires i < k <= |log| && log[i].Claimed? && log[i].now + log[i].ttl > limit
    ensures Outlasts(Replay(log[..k]).spent, log[i].id, limit)
    decreases k
  {
    ReplayTo(log, k - 1);
    if k - 1 > i {
      assert !PassesAt(log, k - 1, limit + 1);
      assert !SweepPasses(log, i, k - 1, limit + 1);
      RecordOutlasts(log, i, k - 1, limit);
      assert log[k - 1].Claimed? ==> SoundClaim(log, k - 1);
      RecordStays(Replay(log[..k - 1]), log[k - 1], log[i].id, limit);
    }
  }

  lemma ClaimedTwiceInLog(log: Log, i: nat, j: nat, ts: int)
    requires SoundClaims(log) && i < j < |log| && log[i].Claimed? && log[j].Claimed? && log[i].id == log[j].id
    requires Fresh(ts, log[i].now, log[i].ttl) && Fresh(ts, log[j].now, log[j].ttl) && log[j].ttl <= log[i].ttl
    ensures SweepPasses(log, i, j, Due(log, i))
  {
    assert SoundClaim(log, j);
    if !SweepPasses(log, i, j, Due(log, i)) {
      RecordOutlasts(log, i, j, Due(log, i) - 1);
    }
  }

  lemma ClaimedTwiceRightly(env: Env, log: Log, i: nat, j: nat)
    requires env.Valid() && LogOk(env, log) && i < j < |log| && log[i].Claimed? && log[j].Claimed?
    requires log[i].nonce == log[j].nonce
    ensures log[j].ttl > log[i].ttl || SweepPasses(log, i, j, Due(log, i))
  {
    ClaimedMeans(env, log, i);
    ClaimedMeans(env, log, j);
    ClaimsAreSound(env, log);
    if log[j].ttl <= log[i].ttl {
      ClaimedTwiceInLog(log, i, j, env.stamp(log[i].nonce));
    }
  }

  /** In every run, a nonce claimed twice means one of two things: the later request carried a longer
      lifetime than the first, or a sweep between the two had passed the expiry of the first one's record.
      Each alone is enough for it to happen: see GateWitnesses. */
  lemma ClaimedTwiceMeans(t: Trace, i: nat, j: nat)
    requires t.Valid() && i < j < |t.Log()| && t.Log()[i].Claimed? && t.Log()[j].Claimed?
    requires t.Log()[i].nonce == t.Log()[j].nonce
    ensures t.Log()[j].ttl > t.Log()[i].ttl || SweepPasses(t.Log(), i, j, Due(t.Log(), i))
  {
    LogIsOk(t);
    ClaimedTwiceRightly(t.env, t.Log(), i, j);
  }

  /** Every configuration loaded, at start-up or by a reload, carries the nonce lifetime ttl. */
  predicate SteadyTtl(log: Log, ttl: int)
  {
    forall i :: 0 <= i < |log| && log[i].Reloaded? ==> log[i].cfg.nonceTtl == ttl
  }

  /** A claim carries the lifetime of a configuration that had been loaded, so of all if they agree. */
  lemma ClaimCarriesLoadedTtl(t: Trace, i: nat, ttl: int)
    requires t.Valid() && i < |t.Log()| && t.Log()[i].Claimed? && SteadyTtl(t.Log(), ttl)
    ensures t.Log()[i].ttl == ttl
  {
    var log := t.Log();
    ClaimRestsOnAProof(t, i);
    var p := log[i].proof;
    var k :| 0 <= k < |log[..p]| && LoadsAt(log[..p], k, log[p].cfg);
    assert log[k] == log[..p][k];
  }

  lemma LoadedTtl(log: Log, cfg: Settings, ttl: int)
    requires Loaded(log, cfg) && SteadyTtl(log, ttl)
    ensures cfg.nonceTtl == ttl
  {
  }

  /** A knock that has been proved carries the steady lifetime, and its nonce was fresh by it. */
  lemma ProvedCarriesLoadedTtl(env: Env, s: State, rid: Rid, ttl: int)
    requires env.Valid() && Inv(env, s) && SteadyTtl(s.log, ttl)
    requires rid in s.inflight && s.inflight[rid].RespondProved?
    ensures var pc := s.inflight[rid]; pc.cfg.nonceTtl == ttl && Fresh(env.stamp(pc.nonce), pc.now, ttl)
  {
    var pc := s.inflight[rid];
    assert PcOk(env, pc, s.log);
    assert Justified(env, s.log[..pc.proof], s.log[pc.proof]);
    SteadyPrefix(s.log, pc.proof, ttl);
    LoadedTtl(s.log[..pc.proof], pc.cfg, ttl);
  }

  lemma SteadyPrefix(log: Log, n: nat, ttl: int)
    requires SteadyTtl(log, ttl) && n <= |log|
    ensures SteadyTtl(log[..n], ttl)
  {
  }

  /** While reloads keep the nonce lifetime, exactly when a nonce can be burned a second time: a request has
      been proved with it, and a sweep has passed the expiry of the record the last claim wrote. */
  lemma ReburnsExactlyAfterSweep(t: Trace, ttl: int, i: nat, rid: Rid)
    requires t.Valid() && SteadyTtl(t.Log(), ttl)
    requires i < |t.Log()| && t.Log()[i].Claimed? && !ClaimedBetween(t.Log(), i, |t.Log()|, t.Log()[i].id)
    requires rid in t.End().inflight && t.End().inflight[rid].RespondProved? && t.End().inflight[rid].nonce == t.Log()[i].nonce
    ensures Claimable(t.End().spent, t.Log()[i].id, t.End().inflight[rid].now)
       <==> SweepPasses(t.Log(), i, |t.Log()|, Due(t.Log(), i))
  {
    var pc := t.End().inflight[rid];
    ReclaimExactly(t, i, pc.now);
    TraceKeeps(t);
    ProvedCarriesLoadedTtl(t.env, t.End(), rid, ttl);
    ClaimCarriesLoadedTtl(t, i, ttl);
    ClaimedMeans(t.env, t.Log(), i);
  }

  /** Single use: while reloads keep the nonce lifetime, a nonce is accepted once, unless a sweep passes the
      expiry of its record while a request proved with it is on its way to claim it again. */
  lemma NonceClaimedOnce(t: Trace, ttl: int, i: nat, j: nat)
    requires t.Valid() && SteadyTtl(t.Log(), ttl)
    requires i < j < |t.Log()| && t.Log()[i].Claimed? && t.Log()[j].Claimed?
    requires !SweepPasses(t.Log(), i, j, Due(t.Log(), i))
    ensures t.Log()[i].nonce != t.Log()[j].nonce
  {
    ClaimCarriesLoadedTtl(t, i, ttl);
    ClaimCarriesLoadedTtl(t, j, ttl);
    if t.Log()[i].nonce == t.Log()[j].nonce {
      ClaimedTwiceMeans(t, i, j);
    }
  }

  /** In every run, one claim mints at most one grant. */
  lemma ClaimMintsOnce(t: Trace, a: nat, b: nat)
    requires t.Valid() && a < b < |t.Log()|
    requires t.Log()[a].Granted? && t.Log()[b].Granted? && t.Log()[b].source.FromKnock?
    ensures t.Log()[a].source != t.Log()[b].source
  {
    LogIsOk(t);
    assert Justified(t.env, t.Log()[..b], t.Log()[b]);
    assert t.Log()[a] == t.Log()[..b][a];
  }

  /** No sweep between the two claims passes the expiry of the first one's record. */
  predicate Unswept(log: Log, c: nat, d: nat)
  {
    c < |log| && d < |log| && log[c].Claimed? && log[d].Claimed? ==>
      (c < d ==> !SweepPasses(log, c, d, Due(log, c))) && (d < c ==> !SweepPasses(log, d, c, Due(log, d)))
  }

  /** Under the same two conditions on their claims, two grants from knocks were knocked with two different nonces. */
  lemma OneGrantPerNonce(t: Trace, ttl: int, a: nat, b: nat)
    requires t.Valid() && SteadyTtl(t.Log(), ttl)
    requires a < b < |t.Log()| && t.Log()[a].Granted? && t.Log()[b].Granted?
    requires t.Log()[a].source.FromKnock? && t.Log()[b].source.FromKnock?
    requires Unswept(t.Log(), t.Log()[a].source.claim, t.Log()[b].source.claim)
    ensures var log := t.Log();
            var (c, d) := (log[a].source.claim, log[b].source.claim);
            c < |log| && d < |log| && log[c].Claimed? && log[d].Claimed? && log[c].nonce != log[d].nonce
  {
    KnockedGrantMeans(t, a);
    KnockedGrantMeans(t, b);
    ClaimMintsOnce(t, a, b);
    var c, d := t.Log()[a].source.claim, t.Log()[b].source.claim;
    if c < d {
      NonceClaimedOnce(t, ttl, c, d);
    } else {
      NonceClaimedOnce(t, ttl, d, c);
    }
  }

  // ---- the log only grows ---------------------------------------------------

  lemma KnockGrows(env: Env, s: State, a: Action)
    requires env.crypto.Valid()
    ensures s.log <= NextKnock(env, s, a).log
  {
    if a.DoRespondPut? && a.rid in s.inflight && s.inflight[a.rid].RespondClaimed? {
      PutGrows(env, s, a.rid, s.inflight[a.rid], a.random, a.cookie);
    }
  }

  lemma PutGrows(env: Env, s: State, rid: Rid, pc: Pc, random: Option<Bytes>, cookie: Bytes)
    requires env.crypto.Valid() && pc.RespondClaimed?
    ensures s.log <= RespondPut(env, s, rid, pc, random, cookie).log
  {
  }

  lemma AuthzGrows(env: Env, s: State, a: Action)
    requires env.crypto.Valid()
    ensures s.log <= NextAuthz(env, s, a).log
  {
    if a.DoAuthzLookup? && a.rid in s.inflight && s.inflight[a.rid].AuthzTimed? {
      LookupGrows(env, s, a.rid, s.inflight[a.rid]);
    }
  }

  lemma LookupGrows(env: Env, s: State, rid: Rid, pc: Pc)
    requires env.crypto.Valid() && pc.AuthzTimed?
    ensures s.log <= AuthzLookup(env, s, rid, pc).log
  {
  }

  lemma AdminGrows(env: Env, s: State, a: Action)
    requires env.crypto.Valid()
    ensures s.log <= NextAdmin(env, s, a).log
  {
  }

  lemma EnrollGrows(s: State, a: Action)
    ensures s.log <= NextEnroll(s, a).log
  {
  }

  lemma CodeGrows(env: Env, s: State, a: Action)
    ensures s.log <= NextCode(env, s, a).log
  {
  }

  lemma HouseGrows(s: State, a: Action)
    ensures s.log <= NextHouse(s, a).log
  {
  }

  lemma {:induction false} RunGrows(env: Env, s: State, actions: seq<Action>)
    requires env.crypto.Valid()
    ensures s.log <= Run(env, s, actions).log
    decreases |actions|
  {
    if actions != [] {
      KnockGrows(env, s, actions[0]);
      AuthzGrows(env, s, actions[0]);
      AdminGrows(env, s, actions[0]);
      EnrollGrows(s, actions[0]);
      CodeGrows(env, s, actions[0]);
      HouseGrows(s, actions[0]);
      RunGrows(env, Next(env, s, actions[0]), actions[1..]);
    }
  }

  // ---- what one step can do to the single-use stores ------------------------

  /** The request is about to claim the nonce of this id, and its knock was proved. */
  predicate AboutToClaim(env: Env, s: State, rid: Rid, id: Bytes)
  {
    && rid in s.inflight && s.inflight[rid].RespondProved?
    && var pc := s.inflight[rid];
    && |pc.nonce| == NONCE_LEN && id == NonceId(env, pc.nonce)
    && ProofAt(s.log, pc.proof, pc.ctx, pc.cfg, pc.kid, pc.now, pc.token) && s.log[pc.proof].nonce == pc.nonce
    && ProofSound(env, s.log, pc.proof)
  }

  lemma KnockFrame(env: Env, s: State, a: Action)
    requires env.crypto.Valid()
    ensures NextKnock(env, s, a).codes == s.codes
    ensures !a.DoRespondClaim? ==> NextKnock(env, s, a).spent == s.spent
  {
    if a.DoRespondPut? && a.rid in s.inflight && s.inflight[a.rid].RespondClaimed? {
      PutFrame(env, s, a.rid, s.inflight[a.rid], a.random, a.cookie);
    } else if a.DoRespondCheck? && a.rid in s.inflight && s.inflight[a.rid].RespondConfigured? {
      CheckFrame(env, s, a.rid, s.inflight[a.rid], a.body);
    }
  }

  lemma PutFrame(env: Env, s: State, rid: Rid, pc: Pc, random: Option<Bytes>, cookie: Bytes)
    requires env.crypto.Valid() && pc.RespondClaimed?
    ensures RespondPut(env, s, rid, pc, random, cookie).codes == s.codes
    ensures RespondPut(env, s, rid, pc, random, cookie).spent == s.spent
  {
  }

  lemma CheckFrame(env: Env, s: State, rid: Rid, pc: Pc, body: Body)
    requires pc.RespondConfigured?
    ensures RespondCheck(env, s, rid, pc, body).codes == s.codes && RespondCheck(env, s, rid, pc, body).spent == s.spent
  {
  }

  lemma AuthzFrame(env: Env, s: State, a: Action)
    requires env.crypto.Valid()
    ensures NextAuthz(env, s, a).spent == s.spent && NextAuthz(env, s, a).codes == s.codes
  {
    if a.DoAuthzLookup? && a.rid in s.inflight && s.inflight[a.rid].AuthzTimed? {
      LookupFrame(env, s, a.rid, s.inflight[a.rid]);
    }
  }

  lemma LookupFrame(env: Env, s: State, rid: Rid, pc: Pc)
    requires env.crypto.Valid() && pc.AuthzTimed?
    ensures AuthzLookup(env, s, rid, pc).spent == s.spent && AuthzLookup(env, s, rid, pc).codes == s.codes
  {
  }

  lemma EnrollFrame(s: State, a: Action)
    ensures NextEnroll(s, a).spent == s.spent
    ensures !a.DoEnrollConsume? ==> NextEnroll(s, a).codes == s.codes
  {
  }

  lemma AdminFrame(env: Env, s: State, a: Action)
    requires env.crypto.Valid()
    ensures NextAdmin(env, s, a).spent == s.spent && NextAdmin(env, s, a).codes == s.codes
  {
    if a.DoAdminGrantStart? {
      StartFrame(env, s, a.rid, a.service, a.ip, a.ttl, a.kid);
    } else if a.DoAdminGrantPut? || a.DoAdminRevoke? {
      StoreFrame(env, s, a);
    }
  }

  lemma StoreFrame(env: Env, s: State, a: Action)
    requires env.crypto.Valid() && (a.DoAdminGrantPut? || a.DoAdminRevoke?)
    ensures NextAdmin(env, s, a).spent == s.spent && NextAdmin(env, s, a).codes == s.codes
  {
  }

  lemma StartFrame(env: Env, s: State, rid: Rid, service: Bytes, ip: Bytes, ttl: int, kid: Bytes)
    ensures var s' := AdminGrantStart(env, s, rid, service, ip, ttl, kid); s'.spent == s.spent && s'.codes == s.codes
  {
  }

  lemma CodeFrame(env: Env, s: State, a: Action)
    ensures NextCode(env, s, a).spent == s.spent
    ensures s.codes.Keys <= NextCode(env, s, a).codes.Keys
  {
    if a.DoAdminCodePut? && a.rid in s.inflight && s.inflight[a.rid].AdminCodeReady? {
      CodePutFrame(env, s, a.rid, s.inflight[a.rid].entry, a.random);
    }
  }

  lemma CodePutFrame(env: Env, s: State, rid: Rid, entry: EnrollCode, random: Option<Bytes>)
    ensures var s' := AdminCodePut(env, s, rid, entry, random); s'.spent == s.spent && s.codes.Keys <= s'.codes.Keys
  {
  }

  /** In every state that satisfies the invariant, whatever the step: a spent record is written only by a request whose proof was
      accepted and whose nonce was claimable, and removed only by a sweep that has passed its expiry. */
  lemma SpentChangesRightly(env: Env, s: State, a: Action, id: Bytes)
    requires env.Valid() && Inv(env, s)
    ensures var (m, m') := (s.spent, Next(env, s, a).spent);
            && (id in m && id !in m' ==> a.DoSweepNonces? && m[id] <= a.at <= s.clock)
            && (id in m' && !(id in m && m[id] == m'[id]) ==>
                  && a.DoRespondClaim? && AboutToClaim(env, s, a.rid, id)
                  && var pc := s.inflight[a.rid];
                     (id in m ==> pc.now >= m[id]) && m'[id] == pc.now + pc.cfg.nonceTtl)
  {
    if a.DoRespondClaim? && a.rid in s.inflight && s.inflight[a.rid].RespondProved? {
      var pc := s.inflight[a.rid];
      assert PcOk(env, pc, s.log);
      ProvedMeans(env, s.log, pc.proof);
    }
    if !a.DoRespondClaim? && !a.DoSweepNonces? {
      OnlyClaimsAndSweeps(env, s, a);
    }
  }

  lemma OnlyClaimsAndSweeps(env: Env, s: State, a: Action)
    requires env.crypto.Valid() && !a.DoRespondClaim? && !a.DoSweepNonces?
    ensures Next(env, s, a).spent == s.spent
  {
    KnockFrame(env, s, a);
    AuthzFrame(env, s, a);
    EnrollFrame(s, a);
    AdminFrame(env, s, a);
    CodeFrame(env, s, a);
  }

  /** In every state that satisfies the invariant, whatever the step: a code leaves the store only by a sweep that has passed its
      expiry, or by a request that presented it and had its kid found in the registry then in force. */
  lemma CodeLeavesRightly(env: Env, s: State, a: Action, code: Bytes)
    requires env.Valid() && Inv(env, s)
    requires code in s.codes && code !in Next(env, s, a).codes
    ensures || (a.DoSweepCodes? && s.codes[code].exp <= a.at <= s.clock)
            || (&& a.DoEnrollConsume? && a.rid in s.inflight && s.inflight[a.rid].EnrollVetted?
                && var pc := s.inflight[a.rid];
                && pc.code == code && VettedAt(s.log, pc.vet, code)
                && s.log[pc.vet].kid in Replay(s.log[..pc.vet]).reg.tokens)
  {
    if a.DoEnrollConsume? && a.rid in s.inflight && s.inflight[a.rid].EnrollVetted? {
      var pc := s.inflight[a.rid];
      assert PcOk(env, pc, s.log);
      assert Justified(env, s.log[..pc.vet], s.log[pc.vet]);
    } else if !a.DoSweepCodes? {
      OnlyConsumeAndSweep(env, s, a);
    }
  }

  lemma OnlyConsumeAndSweep(env: Env, s: State, a: Action)
    requires env.crypto.Valid() && !a.DoEnrollConsume? && !a.DoSweepCodes?
    ensures s.codes.Keys <= Next(env, s, a).codes.Keys
  {
    KnockFrame(env, s, a);
    AuthzFrame(env, s, a);
    EnrollFrame(s, a);
    AdminFrame(env, s, a);
    CodeFrame(env, s, a);
  }

  // ---- enrollment -----------------------------------------------------------

  predicate PutsCode(log: Log, k: int, code: Bytes)
  {
    0 <= k < |log| && log[k].CodePut? && log[k].code == code
  }

  /** The event leaves the code where it is. */
  predicate SparesCode(e: Event, code: Bytes, entry: EnrollCode)
  {
    match e
    case CodePut(c, _) => c != code
    case CodeTaken(c, _, _, _) => c != code
    case CodeDropped(c, _, _) => c != code
    case SweptCodes(at) => at < entry.exp
    case _ => true
  }

  /** Place k puts the code with this entry, and everything since has spared it. */
  predicate CodeStands(log: Log, k: int, code: Bytes, entry: EnrollCode)
  {
    && 0 <= k < |log| && log[k] == CodePut(code, entry)
    && forall m :: k < m < |log| ==> SparesCode(log[m], code, entry)
  }

  lemma CodeStandsSnoc(log: Log, e: Event, k: int, code: Bytes, entry: EnrollCode)
    ensures CodeStands(log + [e], k, code, entry)
       <==> (k == |log| && e == CodePut(code, entry)) || (CodeStands(log, k, code, entry) && SparesCode(e, code, entry))
  {
    var log' := log + [e];
    assert log'[|log|] == e;
    assert forall m :: 0 <= m < |log| ==> log'[m] == log[m];
  }

  lemma CodeStandsSomewhere(log: Log, e: Event, code: Bytes, entry: EnrollCode)
    ensures (exists k :: CodeStands(log + [e], k, code, entry))
       <==> e == CodePut(code, entry) || (SparesCode(e, code, entry) && exists k :: CodeStands(log, k, code, entry))
  {
    if k :| CodeStands(log + [e], k, code, entry) {
      CodeStandsSnoc(log, e, k, code, entry);
    }
    if e == CodePut(code, entry) {
      CodeStandsSnoc(log, e, |log|, code, entry);
    }
    if k :| CodeStands(log, k, code, entry) {
      CodeStandsSnoc(log, e, k, code, entry);
    }
  }

  predicate HoldsCode(m: Codes, code: Bytes, entry: EnrollCode)
  {
    code in m && m[code] == entry
  }

  lemma HoldsCodeStep(st: Stores, e: Event, code: Bytes, entry: EnrollCode)
    ensures HoldsCode(ReplayOne(st, e).codes, code, entry)
       <==> e == CodePut(code, entry) || (HoldsCode(st.codes, code, entry) && SparesCode(e, code, entry))
  {
  }

  /** A code is in the store exactly when it was put there and everything since has spared it. */
  lemma {:induction false} CodeStoredExactly(log: Log, code: Bytes, entry: EnrollCode)
    ensures HoldsCode(Replay(log).codes, code, entry) <==> exists k :: CodeStands(log, k, code, entry)
  {
    if log != [] {
      var front, e := log[..|log| - 1], log[|log| - 1];
      assert log == front + [e];
      CodeStoredExactly(front, code, entry);
      HoldsCodeStep(Replay(front), e, code, entry);
      CodeStandsSomewhere(front, e, code, entry);
    }
  }

  /** In every run the store holds exactly the codes that stand. */
  lemma StoreHoldsCodes(t: Trace, code: Bytes, entry: EnrollCode)
    requires t.Valid()
    ensures HoldsCode(t.End().codes, code, entry) <==> exists k :: CodeStands(t.Log(), k, code, entry)
  {
    StoresAreReplayed(t);
    CodeStoredExactly(t.Log(), code, entry);
  }

  lemma TakenRightly(env: Env, log: Log, u: nat)
    requires env.crypto.Valid() && LogOk(env, log) && u < |log| && log[u].CodeTaken?
    ensures exists k :: CodeStands(log[..u], k, log[u].code, log[u].entry)
    ensures log[u].at < log[u].entry.exp
    ensures var v := log[u].vet; v < u && VettedAt(log, v, log[u].code) && log[v].kid in Replay(log[..v]).reg.tokens
  {
    assert Justified(env, log[..u], log[u]);
    CodeStoredExactly(log[..u], log[u].code, log[u].entry);
    var v := log[u].vet;
    assert log[v] == log[..u][v];
    assert Justified(env, log[..v], log[v]);
  }

  /** In every run, a code taken was put with the entry taken and has stood since, was taken before that entry
      expired, and its kid had been found registered. */
  lemma TakingMeans(t: Trace, u: nat)
    requires t.Valid() && u < |t.Log()| && t.Log()[u].CodeTaken?
    ensures exists k :: CodeStands(t.Log()[..u], k, t.Log()[u].code, t.Log()[u].entry)
    ensures t.Log()[u].at < t.Log()[u].entry.exp
    ensures var (log, v) := (t.Log(), t.Log()[u].vet);
            v < u && VettedAt(log, v, log[u].code) && log[v].kid in Replay(log[..v]).reg.tokens
  {
    LogIsOk(t);
    TakenRightly(t.env, t.Log(), u);
  }

  /** In every run, what is sent is the secret its kid holds in the registry then in force, against a code
      taken before, and no taking is answered twice. */
  lemma SendingMeans(t: Trace, i: nat)
    requires t.Valid() && i < |t.Log()| && t.Log()[i].SecretSent?
    ensures var (log, e, u) := (t.Log(), t.Log()[i], t.Log()[i].taken);
            && e.kid in Replay(log[..i]).reg.tokens && Replay(log[..i]).reg.tokens[e.kid].secret == e.secret
            && u < i && TakenAt(log, u, e.code) && log[u].entry.kid == e.kid
            && (forall m :: 0 <= m < i && log[m].SecretSent? ==> log[m].taken != u)
  {
    LogIsOk(t);
    var log, u := t.Log(), t.Log()[i].taken;
    assert Justified(t.env, log[..i], log[i]);
    assert log[u] == log[..i][u];
    forall m | 0 <= m < i && log[m].SecretSent? ensures log[m].taken != u {
      assert log[m] == log[..i][m];
    }
  }

  /** In every run, two secrets sent for one code mean it was put twice. */
  lemma CodeSpentOnce(t: Trace, i: nat, j: nat)
    requires t.Valid() && i < j < |t.Log()|
    requires t.Log()[i].SecretSent? && t.Log()[j].SecretSent? && t.Log()[i].code == t.Log()[j].code
    ensures exists a, b :: a < b && PutsCode(t.Log(), a, t.Log()[i].code) && PutsCode(t.Log(), b, t.Log()[i].code)
  {
    var log, code := t.Log(), t.Log()[i].code;
    SendingMeans(t, i);
    SendingMeans(t, j);
    var u, v := log[i].taken, log[j].taken;
    if u < v {
      TwoPuts(t, u, v);
    } else {
      TwoPuts(t, v, u);
    }
  }

  lemma TwoPuts(t: Trace, u: nat, v: nat)
    requires t.Valid() && u < v < |t.Log()|
    requires t.Log()[u].CodeTaken? && t.Log()[v].CodeTaken? && t.Log()[u].code == t.Log()[v].code
    ensures exists a, b :: a < b && PutsCode(t.Log(), a, t.Log()[u].code) && PutsCode(t.Log(), b, t.Log()[u].code)
  {
    var log, code := t.Log(), t.Log()[u].code;
    TakingMeans(t, u);
    TakingMeans(t, v);
    var a :| CodeStands(log[..u], a, code, log[u].entry);
    var b :| CodeStands(log[..v], b, code, log[v].entry);
    assert log[..v][u] == log[u] && !SparesCode(log[u], code, log[v].entry);
    assert a < u < b;
    assert PutsCode(log, a, code) && PutsCode(log, b, code);
  }
}
