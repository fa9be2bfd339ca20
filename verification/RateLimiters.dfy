/** The knock throttle: core/go/ratelimit.go. A bounded table of one-minute windows with lazy expiry. */
module RateLimiters {
  import opened ByteStrings
  import opened Numerals
  import opened IpAddresses
  import opened IpRoundTrip

  datatype Entry = Entry(start: int, n: nat)

  type Windows = map<Bytes, Entry>

  const DEFAULT_ENTRIES: nat := 100_000

  predicate Finished(e: Entry, now: int)
  {
    now - e.start >= 60
  }

  function LiveAt(w: Windows, now: int): (r: Windows)
    ensures r.Keys <= w.Keys && |r| <= |w|
  {
    var r := map k | k in w && !Finished(w[k], now) :: w[k];
    SubsetSize(r.Keys, w.Keys);
    r
  }

  lemma {:induction false} SubsetSize<T>(a: set<T>, b: set<T>)
    requires a <= b
    ensures |a| <= |b|
    ensures |a| == |b| ==> a == b
  {
    assert b == a + (b - a);
    assert |b| == |a| + |b - a|;
  }

  datatype Reply = Reply(windows: Windows, ok: bool)

  /** One call of the limiter on its table. */
  function AllowIn(w: Windows, max: nat, key: Bytes, perMin: int, now: int): Reply
  {
    if perMin <= 0 then Reply(w, true)
    else if key in w && !Finished(w[key], now) then
      Reply(w[key := Entry(w[key].start, w[key].n + 1)], w[key].n + 1 <= perMin)
    else if key in w || |w| < max then Reply(w[key := Entry(now, 1)], true)
    else
      var swept := LiveAt(w, now);
      if |swept| >= max then Reply(swept, false) else Reply(swept[key := Entry(now, 1)], true)
  }

  class RateLimiter {
    var window: Windows
    const max: nat

    ghost predicate Valid()
      reads this
    {
      |window| <= max && 0 < max
    }

    constructor (maxEntries: int)
      ensures Valid() && window == map[]
      ensures max == if maxEntries <= 0 then DEFAULT_ENTRIES else maxEntries
    {
      window := map[];
      max := if maxEntries <= 0 then DEFAULT_ENTRIES else maxEntries;
    }

    method Allow(key: Bytes, perMin: int, now: int) returns (ok: bool)
      requires Valid()
      modifies this
      ensures Valid()
      ensures Reply(window, ok) == AllowIn(old(window), max, key, perMin, now)
      ensures perMin <= 0 ==> ok && window == old(window)
      ensures perMin > 0 && key in old(window) && now - old(window)[key].start < 60 ==>
                && window == old(window)[key := Entry(old(window)[key].start, old(window)[key].n + 1)]
                && (ok <==> old(window)[key].n < perMin)
      ensures perMin > 0 && key in old(window) && now - old(window)[key].start >= 60 ==> ok && window == old(window)[key := Entry(now, 1)]
      ensures perMin > 0 && key !in old(window) && |old(window)| < max ==> ok && window == old(window)[key := Entry(now, 1)]
      ensures perMin > 0 && key !in old(window) && |old(window)| >= max ==>
                var live := map k | k in old(window) && now - old(window)[k].start < 60 :: old(window)[k];
                (ok <==> |live| < max) && window == if ok then live[key := Entry(now, 1)] else live
    {
      if perMin <= 0 {
        return true;
      }
      if key in window && now - window[key].start < 60 {
        var e := window[key];
        window := window[key := Entry(e.start, e.n + 1)];
        return e.n + 1 <= perMin;
      }
      if key !in window && |window| >= max {
        var _ := SweepLocked(now);
        assert window == map k | k in old(window) && now - old(window)[k].start < 60 :: old(window)[k];
        if |window| >= max {
          return false;
        }
      }
      window := window[key := Entry(now, 1)];
      ok := true;
    }

    method Sweep(now: int) returns (n: nat)
      requires Valid()
      modifies this
      ensures Valid() && window == LiveAt(old(window), now) && n == |old(window)| - |window|
      ensures forall k :: (k in window <==> k in old(window) && now - old(window)[k].start < 60)
                          && (k in window ==> window[k] == old(window)[k])
    {
      n := SweepLocked(now);
    }

    method SweepLocked(now: int) returns (n: nat)
      modifies this
      ensures window == LiveAt(old(window), now) && n == |old(window)| - |window|
    {
      n := 0;
      ghost var w := window;
      var todo := window.Keys;
      while todo != {}
        invariant todo <= window.Keys <= w.Keys
        invariant forall k :: k in window ==> window[k] == w[k]
        invariant forall k :: k in w && k !in window ==> Finished(w[k], now)
        invariant forall k :: k in window && k !in todo ==> !Finished(w[k], now)
        invariant n == |w| - |window|
        decreases todo
      {
        var k :| k in todo;
        todo := todo - {k};
        if now - window[k].start >= 60 {
          assert (window - {k}).Keys == window.Keys - {k};
          window := window - {k};
          n := n + 1;
        }
      }
      assert window == LiveAt(w, now);
    }
  }

  // ---- buckets --------------------------------------------------------------

  /** The bucket a request counts against: the scope, and the client with IPv6 collapsed to its /64. */
  function RateKey(scope: Bytes, ip: Bytes): Bytes
  {
    var c := CanonIp(ip, 64, 32);
    scope + [BAR] + if c.Ok? then c.value else ip
  }

  /** Two clients share a bucket exactly when the scopes agree and so do the addresses cut to /64. */
  lemma RateKeyNames(s1: Bytes, ip1: Bytes, s2: Bytes, ip2: Bytes)
    requires ParseAddr(ip1).Ok? && ParseAddr(ip2).Ok?
    ensures RateKey(s1, ip1) == RateKey(s2, ip2)
       <==> s1 == s2 && MaskAddr(ParseAddr(ip1).value, 64, 32) == MaskAddr(ParseAddr(ip2).value, 64, 32)
  {
    CanonIpMeaning(ip1, 64, 32);
    CanonIpMeaning(ip2, 64, 32);
    CanonIpEqual(ip1, ip2, 64, 32);
    var t1, t2 := CanonIp(ip1, 64, 32).value, CanonIp(ip2, 64, 32).value;
    NoBar(MaskAddr(ParseAddr(ip1).value, 64, 32));
    NoBar(MaskAddr(ParseAddr(ip2).value, 64, 32));
    LastPart(s1, t1, s2, t2);
  }

  lemma NoBar(a: Addr)
    ensures BAR !in AddrText(a)
  {
    if BAR in AddrText(a) {
      AddrTextAlphabet(a, BAR);
    }
  }

  lemma LastPart(s1: Bytes, t1: Bytes, s2: Bytes, t2: Bytes)
    requires BAR !in t1 && BAR !in t2
    ensures s1 + [BAR] + t1 == s2 + [BAR] + t2 <==> s1 == s2 && t1 == t2
  {
    var k1, k2 := s1 + [BAR] + t1, s2 + [BAR] + t2;
    assert k1[|s1| + 1..] == t1 && k2[|s2| + 1..] == t2;
    LastIndexOfIs(k1, BAR, |s1|);
    LastIndexOfIs(k2, BAR, |s2|);
    if k1 == k2 {
      assert k1[..|s1|] == s1 && k2[..|s2|] == s2;
    }
  }

  // ---- the ideal limiter ----------------------------------------------------

  /** A limiter that forgets a window the moment it is finished. */
  function IdealAllow(live: Windows, max: nat, key: Bytes, perMin: int, now: int): Reply
  {
    var w := LiveAt(live, now);
    if perMin <= 0 then Reply(w, true)
    else if key in w then Reply(w[key := Entry(w[key].start, w[key].n + 1)], w[key].n + 1 <= perMin)
    else if |w| >= max then Reply(w, false)
    else Reply(w[key := Entry(now, 1)], true)
  }

  datatype Op = Attempt(key: Bytes, perMin: int, now: int) | Sweep(now: int)

  /** The table after a run of attempts and sweeps, from empty. */
  function Table(max: nat, ops: seq<Op>): Windows
  {
    if ops == [] then map[]
    else
      var w := Table(max, ops[..|ops| - 1]);
      match ops[|ops| - 1]
      case Attempt(key, perMin, now) => AllowIn(w, max, key, perMin, now).windows
      case Sweep(now) => LiveAt(w, now)
  }

  function Answer(max: nat, ops: seq<Op>, i: nat): bool
    requires i < |ops| && ops[i].Attempt?
  {
    AllowIn(Table(max, ops[..i]), max, ops[i].key, ops[i].perMin, ops[i].now).ok
  }

  /** The ideal limiter takes no notice of sweeps. */
  function IdealTable(max: nat, ops: seq<Op>): Windows
  {
    if ops == [] then map[]
    else
      var w := IdealTable(max, ops[..|ops| - 1]);
      match ops[|ops| - 1]
      case Attempt(key, perMin, now) => IdealAllow(w, max, key, perMin, now).windows
      case Sweep(_) => w
  }

  function IdealAnswer(max: nat, ops: seq<Op>, i: nat): bool
    requires i < |ops| && ops[i].Attempt?
  {
    IdealAllow(IdealTable(max, ops[..i]), max, ops[i].key, ops[i].perMin, ops[i].now).ok
  }

  ghost predicate Monotone(ops: seq<Op>)
  {
    forall i, j :: 0 <= i < j < |ops| ==> ops[i].now <= ops[j].now
  }

  lemma LiveTwice(w: Windows, t: int, u: int)
    requires t <= u
    ensures LiveAt(LiveAt(w, t), u) == LiveAt(w, u)
  {
  }

  lemma LiveSmaller(w: Windows, key: Bytes, now: int)
    requires key in w && Finished(w[key], now)
    ensures |LiveAt(w, now)| < |w|
  {
    SubsetSize(LiveAt(w, now).Keys, w.Keys);
  }

  /** One call: same answer as the ideal, and the same live windows afterwards. */
  lemma AllowMatchesIdeal(w: Windows, live: Windows, max: nat, key: Bytes, perMin: int, now: int)
    requires LiveAt(w, now) == LiveAt(live, now) && |w| <= max
    ensures var r := AllowIn(w, max, key, perMin, now);
            var i := IdealAllow(live, max, key, perMin, now);
            r.ok == i.ok && LiveAt(r.windows, now) == LiveAt(i.windows, now) && |r.windows| <= max
  {
    var l := LiveAt(w, now);
    LiveTwice(live, now, now);
    if perMin > 0 {
      if key in l {
        var e := Entry(w[key].start, w[key].n + 1);
        LiveInsert(w, key, e, now);
        LiveInsert(l, key, e, now);
      } else {
        if key in w {
          LiveSmaller(w, key, now);
        }
        LiveInsert(w, key, Entry(now, 1), now);
        LiveInsert(l, key, Entry(now, 1), now);
      }
    }
  }

  lemma LiveInsert(w: Windows, key: Bytes, e: Entry, now: int)
    requires !Finished(e, now)
    ensures LiveAt(w[key := e], now) == LiveAt(w, now)[key := e]
    ensures LiveAt(LiveAt(w, now), now) == LiveAt(w, now)
    ensures |w[key := e]| == if key in w then |w| else |w| + 1
  {
    assert w[key := e].Keys == w.Keys + {key};
  }

  lemma {:induction false} TablesAgree(max: nat, ops: seq<Op>, now: int)
    requires Monotone(ops) && (ops != [] ==> ops[|ops| - 1].now <= now)
    ensures |Table(max, ops)| <= max
    ensures LiveAt(Table(max, ops), now) == LiveAt(IdealTable(max, ops), now)
  {
    if ops != [] {
      var n := |ops| - 1;
      var t := ops[n].now;
      TablesAgree(max, ops[..n], t);
      var w, live := Table(max, ops[..n]), IdealTable(max, ops[..n]);
      match ops[n]
      case Attempt(key, perMin, _) =>
        AllowMatchesIdeal(w, live, max, key, perMin, t);
        LiveTwice(AllowIn(w, max, key, perMin, t).windows, t, now);
        LiveTwice(IdealAllow(live, max, key, perMin, t).windows, t, now);
      case Sweep(_) =>
        LiveTwice(w, t, now);
        LiveTwice(live, t, now);
    }
  }

  /** Under a non-decreasing clock every answer is the ideal limiter's, wherever sweeps fall, and
      the table never outgrows its bound. */
  lemma AnswersAreIdeal(max: nat, ops: seq<Op>, i: nat)
    requires Monotone(ops) && i < |ops| && ops[i].Attempt?
    ensures Answer(max, ops, i) == IdealAnswer(max, ops, i)
    ensures |Table(max, ops[..i])| <= max
  {
    TablesAgree(max, ops[..i], ops[i].now);
    AllowMatchesIdeal(Table(max, ops[..i]), IdealTable(max, ops[..i]), max, ops[i].key, ops[i].perMin, ops[i].now);
  }

  // ---- how much an interval can admit ---------------------------------------

  /** Attempts on key admitted at times in [t, u). */
  function Admitted(max: nat, ops: seq<Op>, key: Bytes, t: int, u: int): nat
  {
    if ops == [] then 0
    else
      var n := |ops| - 1;
      var hit := ops[n].Attempt? && ops[n].key == key && t <= ops[n].now < u && Answer(max, ops, n);
      Admitted(max, ops[..n], key, t, u) + if hit then 1 else 0
  }

  /** The key's most recent window, whether or not it has been swept. */
  function LastWindow(max: nat, ops: seq<Op>, key: Bytes): Option<Entry>
  {
    if ops == [] then None
    else if key in Table(max, ops) then Some(Table(max, ops)[key])
    else LastWindow(max, ops[..|ops| - 1], key)
  }

  function Capped(n: nat, perMin: nat): nat
  {
    if n <= perMin then n else perMin
  }

  /** What the windows begun so far can have let through since t. */
  ghost predicate Within(c: nat, last: Option<Entry>, perMin: nat, t: int)
  {
    match last
    case None => c == 0
    case Some(e) =>
      && e.n >= 1
      && (e.start < t ==> c <= Capped(e.n, perMin) - 1)
      && (e.start >= t ==> c <= perMin - 1 + (e.start - t) / 60 * perMin + Capped(e.n, perMin))
  }

  ghost predicate ConstantRate(ops: seq<Op>, key: Bytes, perMin: nat)
  {
    forall i :: 0 <= i < |ops| && ops[i].Attempt? && ops[i].key == key ==> ops[i].perMin == perMin
  }

  lemma NextWindowRoom(c: nat, e: Entry, perMin: nat, t: int, now: int)
    requires perMin >= 1 && Within(c, Some(e), perMin, t) && Finished(e, now) && now >= t
    ensures c + 1 <= perMin - 1 + (now - t) / 60 * perMin + 1
  {
    if e.start >= t {
      var j, i := (e.start - t) / 60, (now - t) / 60;
      MulMonotone(j + 1, i, perMin);
    } else {
      MulMonotone(0, (now - t) / 60, perMin);
    }
  }

  lemma IntervalRoom(c: nat, e: Entry, perMin: nat, t: int, k: nat)
    requires perMin >= 1 && k >= 1 && Within(c, Some(e), perMin, t) && e.start < t + 60 * k
    ensures c <= (k + 1) * perMin - 1
  {
    MulMonotone(1, k, perMin);
    if e.start >= t {
      MulMonotone((e.start - t) / 60, k - 1, perMin);
    }
  }

  /** What happens to the key's window and count in one step. */
  lemma {:induction false} WithinHolds(max: nat, ops: seq<Op>, key: Bytes, perMin: nat, t: int, k: nat)
    requires perMin >= 1 && k >= 1 && Monotone(ops) && ConstantRate(ops, key, perMin)
    ensures var c := Admitted(max, ops, key, t, t + 60 * k);
            var last := LastWindow(max, ops, key);
            && (ops != [] && ops[|ops| - 1].now < t ==> c == 0)
            && Within(c, last, perMin, t)
            && c <= (k + 1) * perMin - 1
            && (last.Some? ==> ops != [] && last.value.start <= ops[|ops| - 1].now)
            && (last.Some? && key !in Table(max, ops) ==> Finished(last.value, ops[|ops| - 1].now))
  {
    MulMonotone(1, k, perMin);
    if ops != [] {
      var n := |ops| - 1;
      var before := ops[..n];
      WithinHolds(max, before, key, perMin, t, k);
      var c := Admitted(max, before, key, t, t + 60 * k);
      var last := LastWindow(max, before, key);
      var w := Table(max, before);
      var now := ops[n].now;
      if ops[n].Attempt? && ops[n].key == key {
        assert ops[n].perMin == perMin;
        AttemptStep(max, w, key, perMin, t, k, now, c, last);
      }
    }
  }

  lemma AttemptStep(max: nat, w: Windows, key: Bytes, perMin: nat, t: int, k: nat, now: int, c: nat, last: Option<Entry>)
    requires perMin >= 1 && k >= 1 && Within(c, last, perMin, t) && c <= (k + 1) * perMin - 1
    requires key in w ==> last == Some(w[key])
    requires key !in w && last.Some? ==> Finished(last.value, now)
    requires (now < t ==> c == 0) && (last.Some? ==> last.value.start <= now)
    ensures var r := AllowIn(w, max, key, perMin, now);
            var c' := c + if r.ok && t <= now < t + 60 * k then 1 else 0;
            var last' := if key in r.windows then Some(r.windows[key]) else last;
            Within(c', last', perMin, t) && c' <= (k + 1) * perMin - 1
  {
    var r := AllowIn(w, max, key, perMin, now);
    if key in w && !Finished(w[key], now) {
      if t <= now < t + 60 * k && r.ok {
        IntervalRoom(c + 1, r.windows[key], perMin, t, k);
      }
    } else if key in r.windows {
      if now >= t {
        if last.Some? {
          NextWindowRoom(c, last.value, perMin, t, now);
        } else {
          MulMonotone(0, (now - t) / 60, perMin);
        }
        if now < t + 60 * k {
          IntervalRoom(c + 1, Entry(now, 1), perMin, t, k);
        }
      }
    }
  }

  /** At a constant rate of at least one a minute, any 60k seconds admit at most (k+1) * perMin - 1
      attempts on a key: a window already open at the start can give all but its first. */
  lemma AdmissionBound(max: nat, ops: seq<Op>, key: Bytes, perMin: nat, t: int, k: nat)
    requires perMin >= 1 && k >= 1 && Monotone(ops) && ConstantRate(ops, key, perMin)
    ensures Admitted(max, ops, key, t, t + 60 * k) <= (k + 1) * perMin - 1
  {
    WithinHolds(max, ops, key, perMin, t, k);
  }

  // ---- who is not throttled -------------------------------------------------

  /** How many attempts were made on a key at or after a time. */
  function Tries(ops: seq<Op>, key: Bytes, from: int): nat
  {
    if ops == [] then 0
    else
      var op := ops[|ops| - 1];
      Tries(ops[..|ops| - 1], key, from)
      + if op.Attempt? && op.key == key && op.now >= from then 1 else 0
  }

  lemma {:induction false} FewerLater(ops: seq<Op>, key: Bytes, from: int, later: int)
    requires from <= later
    ensures Tries(ops, key, later) <= Tries(ops, key, from)
  {
    if ops != [] {
      FewerLater(ops[..|ops| - 1], key, from, later);
    }
  }

  /** A window never counts more than the attempts made since it began. */
  lemma {:induction false} WindowCountsTries(max: nat, ops: seq<Op>, key: Bytes)
    requires Monotone(ops) && key in Table(max, ops)
    ensures Table(max, ops)[key].n <= Tries(ops, key, Table(max, ops)[key].start)
    ensures ops != [] && Table(max, ops)[key].start <= ops[|ops| - 1].now
  {
    var n := |ops| - 1;
    var front, op := ops[..n], ops[n];
    assert Monotone(front);
    var w := Table(max, front);
    if key in w {
      WindowCountsTries(max, front, key);
    }
  }

  /** There is room for the key: it has a place, the table is not full, or it holds a window that has run out. */
  predicate HasRoom(w: Windows, max: nat, key: Bytes, now: int)
  {
    key in w || |w| < max || |(map k | k in w && now - w[k].start < 60 :: w[k])| < max
  }

  /** Nobody is throttled early: with room in the table, an attempt is admitted whenever fewer than perMin were
      made on its key in the last 60 seconds, refused ones included. */
  lemma NotThrottledEarly(max: nat, ops: seq<Op>, i: nat)
    requires Monotone(ops) && i < |ops| && ops[i].Attempt? && ops[i].perMin >= 1
    requires HasRoom(Table(max, ops[..i]), max, ops[i].key, ops[i].now)
    requires Tries(ops[..i], ops[i].key, ops[i].now - 59) < ops[i].perMin
    ensures Answer(max, ops, i)
  {
    var key, now, w := ops[i].key, ops[i].now, Table(max, ops[..i]);
    assert LiveAt(w, now) == map k | k in w && now - w[k].start < 60 :: w[k];
    if key in w && now - w[key].start < 60 {
      assert Monotone(ops[..i]);
      WindowCountsTries(max, ops[..i], key);
      FewerLater(ops[..i], key, now - 59, w[key].start);
    }
  }

  /** And an attempt at least 60 seconds after its window began is always admitted. */
  lemma NewWindowAdmits(max: nat, ops: seq<Op>, i: nat)
    requires i < |ops| && ops[i].Attempt?
    requires ops[i].key in Table(max, ops[..i]) && Table(max, ops[..i])[ops[i].key].start + 60 <= ops[i].now
    ensures Answer(max, ops, i)
  {
  }
}
