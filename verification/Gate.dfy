/** The Authorizer as one machine: authorizer/server.go and authorizer/admin.go. Each handler is cut
    at its lock acquisitions and clock reads, so any number of requests, reloads, sweeps and admin
    calls interleave between the pieces. What a request has read so far lives in its program counter. */
module Gate {
  import opened ByteStrings
  import opened Knock
  import opened Registries
  import opened GrantStores
  import opened SingleUseStores
  import opened Configs

  type Rid = nat

  /** The hash, the text encoding, the canonicalizers and the two MAC checks, as the machine uses them. */
  datatype Env = Env(
    crypto: Crypto,
    encode: Bytes -> Bytes,
    decode: Bytes -> Option<Bytes>,
    canonName: Bytes -> Bytes,
    canonIp: (Bytes, int) -> Option<Bytes>,
    issue: (U64, Bytes, Bytes, Bytes, int) -> Option<Bytes>,
    nonceOk: (Bytes, Bytes, Bytes, I64, I64, int) -> bool,
    proofOk: (Bytes, Bytes, Bytes, Bytes, Bytes) -> bool,
    stamp: Bytes -> int)
  {
    ghost predicate Valid()
    {
      && crypto.Valid()
      && forall nonce: Bytes, service: Bytes, ip: Bytes, now: I64, ttl: I64, p: int ::
           nonceOk(nonce, service, ip, now, ttl, p) ==> |nonce| == NONCE_LEN && Fresh(stamp(nonce), now, ttl)
    }

    /** A nonce issued for a service and address is accepted for them exactly while its window is open. */
    ghost predicate IssuesFresh()
    {
      forall ts: U64, rand: Bytes, service: Bytes, ip: Bytes, p: int, now: I64, ttl: I64 ::
        Small(service) && issue(ts, rand, service, ip, p).Some? ==>
          (nonceOk(issue(ts, rand, service, ip, p).value, service, ip, now, ttl, p) <==> Fresh(ts, now, ttl))
    }
  }

  // ---- requests in flight ---------------------------------------------------

  /** What resolve() found out about a request: how it does so is a matter of RealIp and Targets. */
  datatype Seen = Seen(service: Bytes, ip: Bytes, uri: Bytes)

  datatype Ctx = Ctx(service: Bytes, ip: Bytes, uri: Bytes, svc: ServiceConfig, known: bool)

  function Resolved(cfg: Settings, seen: Seen): Ctx
  {
    if seen.service in cfg.services then Ctx(seen.service, seen.ip, seen.uri, cfg.services[seen.service], true)
    else Ctx(seen.service, seen.ip, seen.uri, NO_SERVICE, false)
  }

  predicate Usable(seen: Option<Seen>)
  {
    seen.Some? && seen.value.service != [] && seen.value.ip != []
  }

  datatype Pc =
    | RespondResolved(ctx: Ctx)
    | RespondConfigured(ctx: Ctx, cfg: Settings)
    | RespondFresh(ctx: Ctx, cfg: Settings, kid: Bytes, nonce: Bytes, tag: Bytes, now: I64)
    | RespondProved(ctx: Ctx, cfg: Settings, kid: Bytes, nonce: Bytes, now: I64, token: Token, proof: nat)
    | RespondClaimed(ctx: Ctx, cfg: Settings, kid: Bytes, now: I64, token: Token, claim: nat)
    | AuthzResolved(ctx: Ctx)
    | AuthzConfigured(ctx: Ctx, cookie: Bytes)
    | AuthzRegistered(ctx: Ctx, cookie: Bytes, reg: Registry, read: nat)
    | AuthzTimed(ctx: Ctx, cookie: Bytes, reg: Registry, read: nat, now: I64)
    | EnrollAdmitted(code: Bytes)
    | EnrollPeeked(code: Bytes, kid: Bytes)
    | EnrollVetted(code: Bytes, vet: nat)
    | EnrollConsumed(code: Bytes, entry: EnrollCode, taken: nat)
    | AdminGranting(service: Bytes, ip: Bytes, ttl: int, kid: Bytes, manual: bool)
    | AdminTimed(service: Bytes, ip: Bytes, ttl: int, kid: Bytes, manual: bool, now: I64)
    | AdminVouched(grant: Grant)
    | AdminRevoking(service: Bytes, ip: Bytes)
    | AdminCoding(kid: Bytes, origins: seq<Bytes>, ttl: int)
    | AdminCodeConfigured(kid: Bytes, origins: seq<Bytes>, ttl: int)
    | AdminCodeReady(entry: EnrollCode)

  // ---- what is remembered of a run ------------------------------------------

  /** Who minted a grant: the claim of a knock, by its place in the log, or an administrator. */
  datatype Source = FromKnock(claim: nat) | FromAdmin

  datatype Event =
    | Reloaded(cfg: Settings, reg: Registry)
    | Proved(ctx: Ctx, cfg: Settings, kid: Bytes, nonce: Bytes, tag: Bytes, now: I64, token: Token, reg: Registry)
    | Claimed(nonce: Bytes, id: Bytes, now: I64, ttl: I64, proof: nat)
    | SweptNonces(at: int)
    | Granted(grant: Grant, olds: seq<Bytes>, source: Source)
    | SweptGrants(at: int)
    | Revoked(service: Bytes, ip: Bytes)
    | RevokedKid(kid: Bytes)
    | RegistryRead(reg: Registry)
    | Carved(ctx: Ctx, cfg: Settings)
    | Admitted(ctx: Ctx, reg: Registry, read: nat, now: I64, cookie: Bytes, grant: Grant)
    | CodePut(code: Bytes, entry: EnrollCode)
    | KidVetted(code: Bytes, kid: Bytes)
    | CodeTaken(code: Bytes, entry: EnrollCode, vet: nat, at: int)
    | CodeDropped(code: Bytes, vet: nat, at: int)
    | SweptCodes(at: int)
    | SecretSent(code: Bytes, kid: Bytes, secret: Bytes, taken: nat)

  type Log = seq<Event>

  datatype State = State(
    clock: I64, cfg: Settings, reg: Registry,
    grants: Grants, spent: Spent, codes: Codes,
    inflight: map<Rid, Pc>, log: Log)
  {
    function Emit(e: Event): State
    {
      this.(log := log + [e])
    }

    function Go(rid: Rid, pc: Pc): State
    {
      this.(inflight := inflight[rid := pc])
    }

    /** The request is answered, one way or the other. */
    function Done(rid: Rid): State
    {
      this.(inflight := inflight - {rid})
    }
  }

  function Init(cfg: Settings, reg: Registry, clock: I64): State
  {
    State(clock, cfg, reg, map[], map[], map[], map[], [Reloaded(cfg, reg)])
  }

  // ---- the challenge --------------------------------------------------------

  /** The nonce handed out, if any: a challenge reads the state and leaves it alone. */
  function ChallengeOutcome(env: Env, s: State, seen: Option<Seen>, get: bool, withinRate: bool, random: Option<Bytes>): Option<Bytes>
  {
    if !Usable(seen) || !Resolved(s.cfg, seen.value).known || !get || !withinRate || random.None? then None
    else env.issue(ToU64(s.clock), random.value, seen.value.service, seen.value.ip, s.cfg.v6Prefix)
  }

  // ---- the knock ------------------------------------------------------------

  datatype Body = Body(kid: Bytes, nonce: Bytes, proof: Bytes)

  /** The decoded nonce and tag of a well-formed body. */
  function DecodeBody(env: Env, body: Body): (r: Option<(Bytes, Bytes)>)
    ensures r.Some? ==> |r.value.0| == NONCE_LEN && |r.value.1| == 32
  {
    match (env.decode(body.nonce), env.decode(body.proof))
    case (Some(nonce), Some(tag)) => if |nonce| == NONCE_LEN && |tag| == 32 then Some((nonce, tag)) else None
    case _ => None
  }

  /** The id a nonce is spent under: its random part, re-encoded, however the client spelled it. */
  function NonceId(env: Env, nonce: Bytes): Bytes
    requires |nonce| == NONCE_LEN
  {
    env.encode(Rand(nonce))
  }

  const DUMMY_SECRET: Bytes := seq(32, _ => 0)

  /** resolve() reads the configuration; an unresolvable request, an unknown service and a wrong method are denied. */
  function RespondStart(s: State, rid: Rid, seen: Option<Seen>, post: bool): State
  {
    if rid in s.inflight || !Usable(seen) then s
    else
      var ctx := Resolved(s.cfg, seen.value);
      if !ctx.known || !post then s else s.Go(rid, RespondResolved(ctx))
  }

  /** The handler reads the configuration for itself and asks the limiter. */
  function RespondConfig(s: State, rid: Rid, ctx: Ctx, withinRate: bool): State
  {
    if withinRate then s.Go(rid, RespondConfigured(ctx, s.cfg)) else s.Done(rid)
  }

  /** The body is decoded, the clock read, the nonce checked against the lifetime and prefix in hand. */
  function RespondCheck(env: Env, s: State, rid: Rid, pc: Pc, body: Body): State
    requires pc.RespondConfigured?
  {
    var decoded := DecodeBody(env, body);
    if decoded.None? then s.Done(rid)
    else
      var (nonce, tag) := decoded.value;
      if !env.nonceOk(nonce, pc.ctx.service, pc.ctx.ip, s.clock, pc.cfg.nonceTtl, pc.cfg.v6Prefix) then s.Done(rid)
      else s.Go(rid, RespondFresh(pc.ctx, pc.cfg, body.kid, nonce, tag, s.clock))
  }

  /** The registry is read; policy and proof are decided together, an unknown kid against the dummy secret. */
  function RespondProve(env: Env, s: State, rid: Rid, pc: Pc): State
    requires pc.RespondFresh?
  {
    var auth := Authorize(s.reg, pc.kid, pc.ctx.service, pc.now);
    var secret := if auth.Ok? then auth.value.secret else DUMMY_SECRET;
    if !env.proofOk(secret, pc.ctx.service, pc.kid, pc.nonce, pc.tag) || auth.Err? then s.Done(rid)
    else
      s.Go(rid, RespondProved(pc.ctx, pc.cfg, pc.kid, pc.nonce, pc.now, auth.value, |s.log|))
       .Emit(Proved(pc.ctx, pc.cfg, pc.kid, pc.nonce, pc.tag, pc.now, auth.value, s.reg))
  }

  /** Verify-then-burn. */
  function RespondClaim(env: Env, s: State, rid: Rid, pc: Pc): State
    requires pc.RespondProved? && |pc.nonce| == NONCE_LEN
  {
    var id := NonceId(env, pc.nonce);
    if !Claimable(s.spent, id, pc.now) then s.Done(rid)
    else
      s.(spent := ClaimIn(s.spent, id, pc.now, pc.cfg.nonceTtl))
       .Go(rid, RespondClaimed(pc.ctx, pc.cfg, pc.kid, pc.now, pc.token, |s.log|))
       .Emit(Claimed(pc.nonce, id, pc.now, pc.cfg.nonceTtl, pc.proof))
  }

  /** The record a knock mints: with a fresh cookie's hash when the service is bound to cookies. */
  function Minted(env: Env, ctx: Ctx, cfg: Settings, kid: Bytes, now: I64, token: Token, cookieId: Bytes): Grant
    requires env.crypto.Valid()
  {
    var binding := BindingOf(ctx.svc);
    Grant(kid, ctx.service, ctx.ip, binding,
          if binding == ByIpCookie then env.crypto.HexDigest(env.encode(cookieId)) else [],
          now, now + GrantTtlOf(cfg, ctx.svc), false, Fingerprint(env.crypto, Some(token)))
  }

  /** Without randomness no cookie can be minted and the knock fails, its nonce burned all the same. */
  function RespondPut(env: Env, s: State, rid: Rid, pc: Pc, random: Option<Bytes>, cookie: Bytes): State
    requires pc.RespondClaimed? && env.crypto.Valid()
  {
    if BindingOf(pc.ctx.svc) == ByIpCookie && random.None? then s.Done(rid)
    else
      var id := if random.Some? then random.value else [];
      var g := Minted(env, pc.ctx, pc.cfg, pc.kid, pc.now, pc.token, id);
      var held := if cookie != [] then env.crypto.HexDigest(cookie) else [];
      s.(grants := PutIn(s.grants, g, [held])).Done(rid).Emit(Granted(g, [held], FromKnock(pc.claim)))
  }

  // ---- forward-auth ---------------------------------------------------------

  predicate IsEndpoint(cfg: Settings, uri: Bytes)
  {
    || uri == cfg.uriPrefix + Ascii("/challenge")
    || uri == cfg.uriPrefix + Ascii("/respond")
    || uri == cfg.uriPrefix + Ascii("/enroll")
    || uri == cfg.uriPrefix + Ascii("/register")
  }

  function AuthzStart(s: State, rid: Rid, peerTrusted: bool, seen: Option<Seen>): State
  {
    if rid in s.inflight || !peerTrusted || !Usable(seen) then s
    else s.Go(rid, AuthzResolved(Resolved(s.cfg, seen.value)))
  }

  /** The carve-out for the four endpoints; any other path of a service not configured is denied. */
  function AuthzConfig(s: State, rid: Rid, ctx: Ctx, cookie: Bytes): State
  {
    if IsEndpoint(s.cfg, ctx.uri) then s.Done(rid).Emit(Carved(ctx, s.cfg))
    else if !ctx.known then s.Done(rid)
    else s.Go(rid, AuthzConfigured(ctx, cookie))
  }

  function AuthzRegistry(s: State, rid: Rid, pc: Pc): State
    requires pc.AuthzConfigured?
  {
    s.Go(rid, AuthzRegistered(pc.ctx, pc.cookie, s.reg, |s.log|)).Emit(RegistryRead(s.reg))
  }

  function AuthzClock(s: State, rid: Rid, pc: Pc): State
    requires pc.AuthzRegistered?
  {
    s.Go(rid, AuthzTimed(pc.ctx, pc.cookie, pc.reg, pc.read, s.clock))
  }

  /** The store is consulted; a grant bound more weakly than the service asks is not honoured. */
  function AuthzLookup(env: Env, s: State, rid: Rid, pc: Pc): State
    requires pc.AuthzTimed? && env.crypto.Valid()
  {
    match Allowed(env.crypto, s.grants, pc.ctx.service, pc.ctx.ip, pc.reg, pc.now, pc.cookie)
    case None => s.Done(rid)
    case Some(g) =>
      if BindingOf(pc.ctx.svc) == ByIpCookie && g.binding != ByIpCookie then s.Done(rid)
      else s.Done(rid).Emit(Admitted(pc.ctx, pc.reg, pc.read, pc.now, pc.cookie, g))
  }

  // ---- enrollment -----------------------------------------------------------

  function EnrollStart(s: State, rid: Rid, seen: Option<Seen>, post: bool, withinRate: bool, code: Bytes): State
  {
    if rid in s.inflight || !Usable(seen) || !Resolved(s.cfg, seen.value).known || !post || !withinRate || code == [] then s
    else s.Go(rid, EnrollAdmitted(code))
  }

  function EnrollPeek(s: State, rid: Rid, code: Bytes, at: I64): State
  {
    match Live(s.codes, code, at)
    case None => s.Done(rid)
    case Some(c) => s.Go(rid, EnrollPeeked(code, c.kid))
  }

  /** The kid is looked up before anything is consumed. */
  function EnrollVet(s: State, rid: Rid, pc: Pc): State
    requires pc.EnrollPeeked?
  {
    if Lookup(s.reg, pc.kid).None? then s.Done(rid)
    else s.Go(rid, EnrollVetted(pc.code, |s.log|)).Emit(KidVetted(pc.code, pc.kid))
  }

  /** Delete-after-read: a code found dead is dropped all the same. */
  function EnrollConsume(s: State, rid: Rid, pc: Pc, at: I64): State
    requires pc.EnrollVetted?
  {
    var s' := s.(codes := s.codes - {pc.code});
    match Live(s.codes, pc.code, at)
    case None => s'.Done(rid).Emit(CodeDropped(pc.code, pc.vet, at))
    case Some(c) => s'.Go(rid, EnrollConsumed(pc.code, c, |s.log|)).Emit(CodeTaken(pc.code, c, pc.vet, at))
  }

  function EnrollSend(s: State, rid: Rid, pc: Pc): State
    requires pc.EnrollConsumed?
  {
    match Lookup(s.reg, pc.entry.kid)
    case None => s.Done(rid)
    case Some(t) => s.Done(rid).Emit(SecretSent(pc.code, pc.entry.kid, t.secret, pc.taken))
  }

  // ---- administration -------------------------------------------------------

  function ManualKid(): Bytes
  {
    Ascii("__manual__")
  }

  /** The service and address an administrator named, in canonical form, if both are usable. */
  function Named(env: Env, cfg: Settings, service: Bytes, ip: Bytes): (r: Option<(Bytes, Bytes)>)
    ensures r.Some? ==> r.value.0 != []
  {
    match env.canonIp(ip, cfg.v6Prefix)
    case None => None
    case Some(addr) => if env.canonName(service) == [] then None else Some((env.canonName(service), addr))
  }

  function AdminGrantStart(env: Env, s: State, rid: Rid, service: Bytes, ip: Bytes, ttl: int, kid: Bytes): State
  {
    var named := Named(env, s.cfg, service, ip);
    if rid in s.inflight || named.None? then s
    else
      s.Go(rid, AdminGranting(named.value.0, named.value.1, if ttl <= 0 then s.cfg.grantTtl else ttl,
                              if kid == [] then ManualKid() else kid, kid == []))
  }

  function AdminGrantVouch(env: Env, s: State, rid: Rid, pc: Pc): State
    requires pc.AdminTimed? && env.crypto.Valid()
  {
    s.Go(rid, AdminVouched(Grant(pc.kid, pc.service, pc.ip, ByIp, [], pc.now, pc.now + pc.ttl, pc.manual,
                                 Fingerprint(env.crypto, Lookup(s.reg, pc.kid)))))
  }

  function AdminGrantPut(s: State, rid: Rid, g: Grant): State
  {
    s.(grants := PutIn(s.grants, g, [])).Done(rid).Emit(Granted(g, [], FromAdmin))
  }

  function AdminRevokeStart(env: Env, s: State, rid: Rid, service: Bytes, ip: Bytes): State
  {
    var named := Named(env, s.cfg, service, ip);
    if rid in s.inflight || named.None? then s else s.Go(rid, AdminRevoking(named.value.0, named.value.1))
  }

  function AdminRevoke(s: State, rid: Rid, service: Bytes, ip: Bytes): State
  {
    s.(grants := RevokeIn(s.grants, service, ip)).Done(rid).Emit(Revoked(service, ip))
  }

  function AdminRevokeToken(s: State, kid: Bytes): State
  {
    if kid == [] then s else s.(grants := RevokeTokenIn(s.grants, kid)).Emit(RevokedKid(kid))
  }

  /** A code is minted only for a kid in the registry. */
  function AdminCodeStart(s: State, rid: Rid, kid: Bytes, origins: seq<Bytes>, ttl: int): State
  {
    if rid in s.inflight || Lookup(s.reg, kid).None? then s else s.Go(rid, AdminCoding(kid, origins, ttl))
  }

  /** The default where none is asked for, then five minutes to seven days. */
  function CodeTtl(cfg: Settings, ttl: int): (r: int)
    ensures 300 <= r <= 604800
    ensures 300 <= ttl <= 604800 ==> r == ttl
  {
    var t := if ttl <= 0 then cfg.enrollTtl else ttl;
    if t < 300 then 300 else if t > 604800 then 604800 else t
  }

  function AdminCodePut(env: Env, s: State, rid: Rid, entry: EnrollCode, random: Option<Bytes>): State
  {
    if random.None? then s.Done(rid)
    else
      var code := env.encode(random.value);
      s.(codes := s.codes[code := entry]).Done(rid).Emit(CodePut(code, entry))
  }

  /** A reload that would need new sockets, or whose secrets do not decode, is refused whole. */
  function Reload(s: State, cfg: Settings): State
  {
    match RegistryOf(cfg)
    case None => s
    case Some(reg) =>
      if cfg.listen != s.cfg.listen || cfg.adminListen != s.cfg.adminListen then s
      else s.(cfg := cfg, reg := reg).Emit(Reloaded(cfg, reg))
  }

  // ---- one step -------------------------------------------------------------

  /** A step and everything it takes from outside. A clock reading handed to a step may be stale. */
  datatype Action =
    | DoRespondStart(rid: Rid, seen: Option<Seen>, post: bool)
    | DoRespondConfig(rid: Rid, withinRate: bool)
    | DoRespondCheck(rid: Rid, body: Body)
    | DoRespondProve(rid: Rid)
    | DoRespondClaim(rid: Rid)
    | DoRespondPut(rid: Rid, random: Option<Bytes>, cookie: Bytes)
    | DoAuthzStart(rid: Rid, peerTrusted: bool, seen: Option<Seen>)
    | DoAuthzConfig(rid: Rid, cookie: Bytes)
    | DoAuthzRegistry(rid: Rid)
    | DoAuthzClock(rid: Rid)
    | DoAuthzLookup(rid: Rid)
    | DoEnrollStart(rid: Rid, seen: Option<Seen>, post: bool, withinRate: bool, code: Bytes)
    | DoEnrollPeek(rid: Rid, at: I64)
    | DoEnrollVet(rid: Rid)
    | DoEnrollConsume(rid: Rid, at: I64)
    | DoEnrollSend(rid: Rid)
    | DoAdminGrantStart(rid: Rid, service: Bytes, ip: Bytes, ttl: int, kid: Bytes)
    | DoAdminGrantClock(rid: Rid)
    | DoAdminGrantVouch(rid: Rid)
    | DoAdminGrantPut(rid: Rid)
    | DoAdminRevokeStart(rid: Rid, service: Bytes, ip: Bytes)
    | DoAdminRevoke(rid: Rid)
    | DoAdminRevokeToken(kid: Bytes)
    | DoAdminCodeStart(rid: Rid, kid: Bytes, origins: seq<Bytes>, ttl: int)
    | DoAdminCodeConfig(rid: Rid)
    | DoAdminCodeClock(rid: Rid)
    | DoAdminCodePut(rid: Rid, random: Option<Bytes>)
    | DoReload(cfg: Settings)
    | DoSweepGrants(at: I64)
    | DoSweepNonces(at: I64)
    | DoSweepCodes(at: I64)
    | DoTick(seconds: nat)

  /** The program counter the action moves on from, where it moves one. */
  function At(s: State, rid: Rid): Option<Pc>
  {
    if rid in s.inflight then Some(s.inflight[rid]) else None
  }

  function NextKnock(env: Env, s: State, a: Action): State
    requires env.crypto.Valid()
  {
    match a
    case DoRespondStart(rid, seen, post) => RespondStart(s, rid, seen, post)
    case DoRespondConfig(rid, withinRate) =>
      (match At(s, rid)
       case Some(RespondResolved(ctx)) => RespondConfig(s, rid, ctx, withinRate)
       case _ => s)
    case DoRespondCheck(rid, body) =>
      (match At(s, rid)
       case Some(RespondConfigured(_, _)) => RespondCheck(env, s, rid, s.inflight[rid], body)
       case _ => s)
    case DoRespondProve(rid) =>
      (match At(s, rid)
       case Some(RespondFresh(_, _, _, _, _, _)) => RespondProve(env, s, rid, s.inflight[rid])
       case _ => s)
    case DoRespondClaim(rid) =>
      (match At(s, rid)
       case Some(RespondProved(_, _, _, nonce, _, _, _)) =>
         if |nonce| == NONCE_LEN then RespondClaim(env, s, rid, s.inflight[rid]) else s
       case _ => s)
    case DoRespondPut(rid, random, cookie) =>
      (match At(s, rid)
       case Some(RespondClaimed(_, _, _, _, _, _)) => RespondPut(env, s, rid, s.inflight[rid], random, cookie)
       case _ => s)
    case _ => s
  }

  function NextAuthz(env: Env, s: State, a: Action): State
    requires env.crypto.Valid()
  {
    match a
    case DoAuthzStart(rid, peerTrusted, seen) => AuthzStart(s, rid, peerTrusted, seen)
    case DoAuthzConfig(rid, cookie) =>
      (match At(s, rid)
       case Some(AuthzResolved(ctx)) => AuthzConfig(s, rid, ctx, cookie)
       case _ => s)
    case DoAuthzRegistry(rid) =>
      (match At(s, rid)
       case Some(AuthzConfigured(_, _)) => AuthzRegistry(s, rid, s.inflight[rid])
       case _ => s)
    case DoAuthzClock(rid) =>
      (match At(s, rid)
       case Some(AuthzRegistered(_, _, _, _)) => AuthzClock(s, rid, s.inflight[rid])
       case _ => s)
    case DoAuthzLookup(rid) =>
      (match At(s, rid)
       case Some(AuthzTimed(_, _, _, _, _)) => AuthzLookup(env, s, rid, s.inflight[rid])
       case _ => s)
    case _ => s
  }

  function NextEnroll(s: State, a: Action): State
  {
    match a
    case DoEnrollStart(rid, seen, post, withinRate, code) => EnrollStart(s, rid, seen, post, withinRate, code)
    case DoEnrollPeek(rid, at) =>
      (match At(s, rid)
       case Some(EnrollAdmitted(code)) => if at <= s.clock then EnrollPeek(s, rid, code, at) else s
       case _ => s)
    case DoEnrollVet(rid) =>
      (match At(s, rid)
       case Some(EnrollPeeked(_, _)) => EnrollVet(s, rid, s.inflight[rid])
       case _ => s)
    case DoEnrollConsume(rid, at) =>
      (match At(s, rid)
       case Some(EnrollVetted(_, _)) => if at <= s.clock then EnrollConsume(s, rid, s.inflight[rid], at) else s
       case _ => s)
    case DoEnrollSend(rid) =>
      (match At(s, rid)
       case Some(EnrollConsumed(_, _, _)) => EnrollSend(s, rid, s.inflight[rid])
       case _ => s)
    case _ => s
  }

  function NextAdmin(env: Env, s: State, a: Action): State
    requires env.crypto.Valid()
  {
    match a
    case DoAdminGrantStart(rid, service, ip, ttl, kid) => AdminGrantStart(env, s, rid, service, ip, ttl, kid)
    case DoAdminGrantClock(rid) =>
      (match At(s, rid)
       case Some(AdminGranting(service, ip, ttl, kid, manual)) =>
         s.Go(rid, AdminTimed(service, ip, ttl, kid, manual, s.clock))
       case _ => s)
    case DoAdminGrantVouch(rid) =>
      (match At(s, rid)
       case Some(AdminTimed(_, _, _, _, _, _)) => AdminGrantVouch(env, s, rid, s.inflight[rid])
       case _ => s)
    case DoAdminGrantPut(rid) =>
      (match At(s, rid)
       case Some(AdminVouched(g)) => AdminGrantPut(s, rid, g)
       case _ => s)
    case DoAdminRevokeStart(rid, service, ip) => AdminRevokeStart(env, s, rid, service, ip)
    case DoAdminRevoke(rid) =>
      (match At(s, rid)
       case Some(AdminRevoking(service, ip)) => AdminRevoke(s, rid, service, ip)
       case _ => s)
    case DoAdminRevokeToken(kid) => AdminRevokeToken(s, kid)
    case _ => s
  }

  function NextCode(env: Env, s: State, a: Action): State
  {
    match a
    case DoAdminCodeStart(rid, kid, origins, ttl) => AdminCodeStart(s, rid, kid, origins, ttl)
    case DoAdminCodeConfig(rid) =>
      (match At(s, rid)
       case Some(AdminCoding(kid, origins, ttl)) => s.Go(rid, AdminCodeConfigured(kid, origins, CodeTtl(s.cfg, ttl)))
       case _ => s)
    case DoAdminCodeClock(rid) =>
      (match At(s, rid)
       case Some(AdminCodeConfigured(kid, origins, ttl)) => s.Go(rid, AdminCodeReady(EnrollCode(kid, origins, s.clock + ttl)))
       case _ => s)
    case DoAdminCodePut(rid, random) =>
      (match At(s, rid)
       case Some(AdminCodeReady(entry)) => AdminCodePut(env, s, rid, entry, random)
       case _ => s)
    case _ => s
  }

  function NextHouse(s: State, a: Action): State
  {
    match a
    case DoReload(cfg) => Reload(s, cfg)
    case DoSweepGrants(at) => if at <= s.clock then s.(grants := SweepIn(s.grants, at)).Emit(SweptGrants(at)) else s
    case DoSweepNonces(at) =>
      if at <= s.clock then s.(spent := SweepSpent(s.spent, at)).Emit(SweptNonces(at)) else s
    case DoSweepCodes(at) => if at <= s.clock then s.(codes := SweepCodes(s.codes, at)).Emit(SweptCodes(at)) else s
    case DoTick(seconds) => if s.clock + seconds <= MAX_I64 then s.(clock := s.clock + seconds) else s
    case _ => s
  }

  function Next(env: Env, s: State, a: Action): State
    requires env.crypto.Valid()
  {
    if a.DoRespondStart? || a.DoRespondConfig? || a.DoRespondCheck? || a.DoRespondProve? || a.DoRespondClaim? || a.DoRespondPut?
    then NextKnock(env, s, a)
    else if a.DoAuthzStart? || a.DoAuthzConfig? || a.DoAuthzRegistry? || a.DoAuthzClock? || a.DoAuthzLookup?
    then NextAuthz(env, s, a)
    else if a.DoEnrollStart? || a.DoEnrollPeek? || a.DoEnrollVet? || a.DoEnrollConsume? || a.DoEnrollSend?
    then NextEnroll(s, a)
    else if a.DoReload? || a.DoSweepGrants? || a.DoSweepNonces? || a.DoSweepCodes? || a.DoTick?
    then NextHouse(s, a)
    else if a.DoAdminCodeStart? || a.DoAdminCodeConfig? || a.DoAdminCodeClock? || a.DoAdminCodePut?
    then NextCode(env, s, a)
    else NextAdmin(env, s, a)
  }

  /** A run, step after step. */
  function Run(env: Env, s: State, actions: seq<Action>): State
    requires env.crypto.Valid()
    decreases |actions|
  {
    if actions == [] then s else Run(env, Next(env, s, actions[0]), actions[1..])
  }
}
