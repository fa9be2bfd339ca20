/** What the request is really for: resolveTarget in authorizer/realip.go. Every convention that is
    present is read, and two that disagree deny. */
module Targets {
  import opened ByteStrings
  import opened ServerNames
  import opened UriPaths

  // ---- a run of claims about one thing --------------------------------------

  type Claims = seq<Option<Bytes>>

  /** The local the loop keeps, where "" stands for "no claim yet"; None once two claims disagree. */
  function Fold(claims: Claims): Option<Bytes>
  {
    if claims == [] then Some([])
    else
      match Fold(claims[..|claims| - 1])
      case None => None
      case Some(cur) => Next(cur, claims[|claims| - 1])
  }

  function Next(cur: Bytes, claim: Option<Bytes>): Option<Bytes>
  {
    match claim
    case None => Some(cur)
    case Some(c) => if cur != [] && c != cur then None else Some(c)
  }

  /** No claim contradicts an earlier one, an empty claim counting as none. */
  predicate Settled(claims: Claims)
  {
    forall i, j :: 0 <= i < j < |claims| && claims[i].Some? && claims[j].Some? && claims[i].value != []
                   ==> claims[j] == claims[i]
  }

  /** Exactly when the loop accepts, and what it then holds. */
  lemma {:induction false} FoldIsExact(claims: Claims)
    ensures Fold(claims).Some? <==> Settled(claims)
    ensures Fold(claims).Some? && Fold(claims).value != [] ==> Fold(claims) in claims
    ensures Fold(claims).Some? ==>
              forall i :: 0 <= i < |claims| && claims[i].Some? && claims[i].value != [] ==> claims[i] == Fold(claims)
  {
    if claims != [] {
      var n := |claims| - 1;
      var front := claims[..n];
      FoldIsExact(front);
      if Fold(front).Some? && Fold(claims).None? {
        var i :| 0 <= i < |front| && front[i] == Fold(front);
        assert claims[i] == front[i];
      }
      if Settled(claims) {
        assert forall i :: 0 <= i < n ==> front[i] == claims[i];
      }
    }
  }

  predicate Agree(claims: Claims)
  {
    forall i, j :: 0 <= i < |claims| && 0 <= j < |claims| && claims[i].Some? && claims[j].Some? ==> claims[i] == claims[j]
  }

  /** With no empty claim, settled is agreed. */
  lemma NamedSettledIsAgreed(claims: Claims)
    requires Some([]) !in claims
    ensures Settled(claims) <==> Agree(claims)
  {
    assert forall i :: 0 <= i < |claims| ==> claims[i] in claims;
    if Settled(claims) {
      forall i, j | 0 <= i < |claims| && 0 <= j < |claims| && claims[i].Some? && claims[j].Some?
        ensures claims[i] == claims[j]
      {
        if i < j {
          assert claims[j] == claims[i];
        } else if j < i {
          assert claims[i] == claims[j];
        }
      }
    }
  }

  /** With no empty claim, only which claims are made matters: not their order, nor how often. */
  lemma SameClaimsSameFold(a: Claims, b: Claims)
    requires Some([]) !in a && forall c :: c in a <==> c in b
    ensures Fold(a) == Fold(b)
  {
    FoldIsExact(a);
    FoldIsExact(b);
    NamedSettledIsAgreed(a);
    NamedSettledIsAgreed(b);
    AgreeIsAboutMembers(a);
    AgreeIsAboutMembers(b);
    if Fold(a).Some? && Fold(b).Some? {
      if Fold(a).value != [] {
        var i :| 0 <= i < |b| && b[i] == Fold(a);
      } else {
        assert Fold(b) !in a;
      }
    }
  }

  lemma AgreeIsAboutMembers(a: Claims)
    ensures Agree(a) <==> forall c, d :: c in a && d in a && c.Some? && d.Some? ==> c == d
  {
    assert forall i :: 0 <= i < |a| ==> a[i] in a;
  }

  // ---- the conventions ------------------------------------------------------

  /** What one convention claims; empty where it claims nothing. */
  datatype View = View(host: Bytes, uri: Bytes)

  datatype Target = Target(service: Bytes, uri: Bytes)

  function HostClaim(v: View): Option<Bytes>
  {
    if v.host != [] then Some(CanonServerName(v.host)) else None
  }

  function PathClaim(v: View): Option<Bytes>
  {
    if v.uri != [] then Some(CleanUriPath(v.uri)) else None
  }

  function HostClaims(views: seq<View>): (c: Claims)
    ensures |c| == |views| && forall i :: 0 <= i < |views| ==> c[i] == HostClaim(views[i])
  {
    seq(|views|, i requires 0 <= i < |views| => HostClaim(views[i]))
  }

  function PathClaims(views: seq<View>): (c: Claims)
    ensures |c| == |views| && forall i :: 0 <= i < |views| ==> c[i] == PathClaim(views[i])
  {
    seq(|views|, i requires 0 <= i < |views| => PathClaim(views[i]))
  }

  function OrElse(claim: Bytes, own: Bytes): Bytes
  {
    if claim != [] then claim else own
  }

  function ResolveTarget(ownHost: Bytes, ownPath: Bytes, peerTrusted: bool, views: seq<View>): Option<Target>
  {
    if !peerTrusted then Some(Target(CanonServerName(ownHost), CleanUriPath(ownPath)))
    else
      match (Fold(HostClaims(views)), Fold(PathClaims(views)))
      case (Some(host), Some(path)) =>
        Some(Target(OrElse(host, CanonServerName(ownHost)), OrElse(path, CleanUriPath(ownPath))))
      case _ => None
  }

  lemma {:induction false} FoldStaysNone(claims: Claims, n: nat)
    requires n <= |claims| && Fold(claims[..n]) == None
    ensures Fold(claims) == None
    decreases |claims|
  {
    if n < |claims| {
      assert claims[..|claims| - 1][..n] == claims[..n];
      FoldStaysNone(claims[..|claims| - 1], n);
    } else {
      assert claims[..n] == claims;
    }
  }

  lemma FoldStep(claims: Claims, n: nat)
    requires n < |claims|
    ensures Fold(claims[..n + 1]) == match Fold(claims[..n]) case None => None case Some(cur) => Next(cur, claims[n])
  {
    assert claims[..n + 1][..n] == claims[..n];
  }

  /** The two locals after each convention; None as soon as one convention disagrees. */
  method FoldViewsLoop(views: seq<View>) returns (r: Option<(Bytes, Bytes)>)
    ensures r == match (Fold(HostClaims(views)), Fold(PathClaims(views)))
                 case (Some(host), Some(path)) => Some((host, path))
                 case _ => None
  {
    var host: Bytes, pathClaim: Bytes := [], [];
    ghost var hosts, paths := HostClaims(views), PathClaims(views);
    for i := 0 to |views|
      invariant Fold(hosts[..i]) == Some(host) && Fold(paths[..i]) == Some(pathClaim)
    {
      var v := views[i];
      FoldStep(hosts, i);
      FoldStep(paths, i);
      if v.host != [] {
        var h := CanonServerName(v.host);
        if host != [] && h != host {
          FoldStaysNone(hosts, i + 1);
          return None;
        }
        host := h;
      }
      if v.uri != [] {
        var u := CleanUriPath(v.uri);
        if pathClaim != [] && u != pathClaim {
          FoldStaysNone(paths, i + 1);
          return None;
        }
        pathClaim := u;
      }
    }
    assert hosts[..|views|] == hosts && paths[..|views|] == paths;
    r := Some((host, pathClaim));
  }

  method ResolveTargetLoop(ownHost: Bytes, ownPath: Bytes, peerTrusted: bool, views: seq<View>) returns (r: Option<Target>)
    ensures r == ResolveTarget(ownHost, ownPath, peerTrusted, views)
  {
    var service, uri := CanonServerName(ownHost), CleanUriPath(ownPath);
    if !peerTrusted {
      return Some(Target(service, uri));
    }
    var claims := FoldViewsLoop(views);
    if claims.None? {
      return None;
    }
    var (host, pathClaim) := claims.value;
    if host != [] {
      service := host;
    }
    if pathClaim != [] {
      uri := pathClaim;
    }
    r := Some(Target(service, uri));
  }

  // ---- agree or deny --------------------------------------------------------

  /** No host claim canonicalizes to the empty name. */
  predicate NamedHosts(views: seq<View>)
  {
    Some([]) !in HostClaims(views)
  }

  lemma PathsAreNamed(views: seq<View>)
    ensures Some([]) !in PathClaims(views)
  {
    forall i | 0 <= i < |views| ensures PathClaims(views)[i] != Some([]) {
      if views[i].uri != [] {
        CleanUriPathIsClean(views[i].uri);
      }
    }
  }

  /** With no empty claim: accepted exactly when all agree, and then the answer is what they say,
      or the fallback where none is made. */
  lemma FoldAnswers(claims: Claims, own: Bytes)
    requires Some([]) !in claims
    ensures Fold(claims).Some? <==> Agree(claims)
    ensures Fold(claims).Some? ==> forall c :: Some(c) in claims ==> OrElse(Fold(claims).value, own) == c
    ensures Fold(claims).Some? && (forall c :: Some(c) !in claims) ==> OrElse(Fold(claims).value, own) == own
  {
    FoldIsExact(claims);
    NamedSettledIsAgreed(claims);
  }

  /** From a trusted peer the target is resolved exactly when all host claims agree and all path
      claims agree; it is then what they say, or the request's own line where they are silent. */
  lemma AgreeOrDeny(ownHost: Bytes, ownPath: Bytes, views: seq<View>)
    requires NamedHosts(views)
    ensures var r := ResolveTarget(ownHost, ownPath, true, views);
            var hosts, paths := HostClaims(views), PathClaims(views);
            && (r.Some? <==> Agree(hosts) && Agree(paths))
            && (r.Some? ==> (forall h :: Some(h) in hosts ==> r.value.service == h))
            && (r.Some? ==> (forall p :: Some(p) in paths ==> r.value.uri == p))
            && (r.Some? && (forall h :: Some(h) !in hosts) ==> r.value.service == CanonServerName(ownHost))
            && (r.Some? && (forall p :: Some(p) !in paths) ==> r.value.uri == CleanUriPath(ownPath))
  {
    PathsAreNamed(views);
    FoldAnswers(HostClaims(views), CanonServerName(ownHost));
    FoldAnswers(PathClaims(views), CleanUriPath(ownPath));
  }

  /** Without the hypothesis on names, the exact condition on any list of conventions. */
  lemma ResolvedExactlyWhenSettled(ownHost: Bytes, ownPath: Bytes, views: seq<View>)
    ensures ResolveTarget(ownHost, ownPath, true, views).Some?
       <==> Settled(HostClaims(views)) && Agree(PathClaims(views))
  {
    PathsAreNamed(views);
    FoldIsExact(HostClaims(views));
    FoldAnswers(PathClaims(views), []);
  }

  lemma ClaimsAreAboutMembers(a: seq<View>, b: seq<View>)
    requires forall v :: v in a <==> v in b
    ensures forall c :: c in HostClaims(a) <==> c in HostClaims(b)
    ensures forall c :: c in PathClaims(a) <==> c in PathClaims(b)
  {
    ClaimsWithin(a, b);
    ClaimsWithin(b, a);
  }

  lemma ClaimsWithin(a: seq<View>, b: seq<View>)
    requires forall v :: v in a ==> v in b
    ensures forall c :: c in HostClaims(a) ==> c in HostClaims(b)
    ensures forall c :: c in PathClaims(a) ==> c in PathClaims(b)
  {
    forall i | 0 <= i < |a| ensures HostClaim(a[i]) in HostClaims(b) && PathClaim(a[i]) in PathClaims(b) {
      assert a[i] in b;
      var j :| 0 <= j < |b| && b[j] == a[i];
      assert HostClaims(b)[j] == HostClaim(a[i]) && PathClaims(b)[j] == PathClaim(a[i]);
    }
  }

  /** The order of the conventions, and saying a thing twice, make no difference. */
  lemma OrderIsIrrelevant(ownHost: Bytes, ownPath: Bytes, a: seq<View>, b: seq<View>)
    requires NamedHosts(a) && forall v :: v in a <==> v in b
    ensures ResolveTarget(ownHost, ownPath, true, a) == ResolveTarget(ownHost, ownPath, true, b)
  {
    ClaimsAreAboutMembers(a, b);
    PathsAreNamed(a);
    SameClaimsSameFold(HostClaims(a), HostClaims(b));
    SameClaimsSameFold(PathClaims(a), PathClaims(b));
  }

  /** A claim about a thing already claimed changes nothing if it agrees and denies if it does not. */
  lemma OneMoreClaim(claims: Claims, c: Bytes, d: Bytes)
    requires Some(d) in claims && Some([]) !in claims
    ensures Fold(claims + [Some(c)]) == if c == d then Fold(claims) else None
  {
    FoldIsExact(claims);
    assert (claims + [Some(c)])[..|claims|] == claims;
    if Fold(claims).Some? {
      var i :| 0 <= i < |claims| && claims[i] == Some(d);
      assert Fold(claims) == Some(d);
    }
  }

  lemma SilentClaim(claims: Claims)
    ensures Fold(claims + [None]) == Fold(claims)
  {
    assert (claims + [None])[..|claims|] == claims;
    FoldStep(claims + [None], |claims|);
    assert (claims + [None])[..|claims| + 1] == claims + [None];
  }

  lemma OneMore(claims: Claims, c: Option<Bytes>, d: Option<Bytes>)
    requires Some([]) !in claims && (c.Some? ==> d.Some? && d in claims)
    ensures Fold(claims + [c]) == if c.Some? ==> c == d then Fold(claims) else None
  {
    if c.Some? {
      OneMoreClaim(claims, c.value, d.value);
    } else {
      SilentClaim(claims);
    }
  }

  lemma OneMoreFolds(views: seq<View>, v: View, wh: View, wp: View)
    requires NamedHosts(views)
    requires v.host != [] ==> wh in views && wh.host != []
    requires v.uri != [] ==> wp in views && wp.uri != []
    ensures Fold(HostClaims(views + [v])) == if v.host != [] ==> HostClaim(v) == HostClaim(wh) then Fold(HostClaims(views)) else None
    ensures Fold(PathClaims(views + [v])) == if v.uri != [] ==> PathClaim(v) == PathClaim(wp) then Fold(PathClaims(views)) else None
  {
    SameClaims(HostClaims(views + [v]), HostClaims(views) + [HostClaim(v)]);
    SameClaims(PathClaims(views + [v]), PathClaims(views) + [PathClaim(v)]);
    PathsAreNamed(views);
    if v.host != [] {
      ClaimedBy(views, wh);
    }
    if v.uri != [] {
      ClaimedBy(views, wp);
    }
    OneMore(HostClaims(views), HostClaim(v), HostClaim(wh));
    OneMore(PathClaims(views), PathClaim(v), PathClaim(wp));
  }

  /** One more convention, whatever it speaks of: if what it says of the host agrees with some wh, and of the
      path with some wp, nothing changes; if either disagrees the request is denied. */
  lemma OneMoreConvention(ownHost: Bytes, ownPath: Bytes, views: seq<View>, v: View, wh: View, wp: View)
    requires NamedHosts(views)
    requires v.host != [] ==> wh in views && wh.host != []
    requires v.uri != [] ==> wp in views && wp.uri != []
    ensures ResolveTarget(ownHost, ownPath, true, views + [v])
         == if (v.host != [] ==> HostClaim(v) == HostClaim(wh)) && (v.uri != [] ==> PathClaim(v) == PathClaim(wp))
            then ResolveTarget(ownHost, ownPath, true, views) else None
  {
    OneMoreFolds(views, v, wh, wp);
  }

  lemma SameClaims(a: Claims, b: Claims)
    requires |a| == |b| && forall i :: 0 <= i < |a| ==> a[i] == b[i]
    ensures a == b
  {
  }

  lemma ClaimedBy(views: seq<View>, w: View)
    requires w in views
    ensures HostClaim(w) in HostClaims(views) && PathClaim(w) in PathClaims(views)
  {
    var i :| 0 <= i < |views| && views[i] == w;
    assert HostClaims(views)[i] == HostClaim(w) && PathClaims(views)[i] == PathClaim(w);
  }

  /** A claim that is "" is taken back by a later one, but contradicts an earlier one. */
  lemma EmptyClaimIsTakenBack(name: Bytes)
    requires name != []
    ensures Fold([Some([]), Some(name)]) == Some(name) && Fold([Some(name), Some([])]) == None
  {
    var a: Claims, b: Claims := [Some([]), Some(name)], [Some(name), Some([])];
    FoldStep(a, 0);
    FoldStep(a, 1);
    FoldStep(b, 0);
    FoldStep(b, 1);
    assert a[..2] == a && b[..2] == b && a[..0] == [] && b[..0] == [];
  }

  /** Why the hosts must be named: a convention whose host is a lone dot, beside one that names the service,
      is overlooked when it comes first and denies the request when it comes last. */
  lemma EmptyClaimDependsOnOrder(ownHost: Bytes, ownPath: Bytes, host: Bytes)
    requires host != [] && CanonServerName(host) != []
    ensures var dot, named := View([DOT], []), View(host, []);
            && ResolveTarget(ownHost, ownPath, true, [dot, named]) == Some(Target(CanonServerName(host), CleanUriPath(ownPath)))
            && ResolveTarget(ownHost, ownPath, true, [named, dot]) == None
  {
    var dot, named := View([DOT], []), View(host, []);
    DotHasNoName();
    EmptyClaimIsTakenBack(CanonServerName(host));
    SameClaims(HostClaims([dot, named]), [Some([]), Some(CanonServerName(host))]);
    SameClaims(HostClaims([named, dot]), [Some(CanonServerName(host)), Some([])]);
    NoPathClaims([dot, named]);
    NoPathClaims([named, dot]);
  }

  lemma NoPathClaims(views: seq<View>)
    requires |views| == 2 && views[0].uri == [] && views[1].uri == []
    ensures Fold(PathClaims(views)) == Some([])
  {
    SameClaims(PathClaims(views), [] + [None] + [None]);
    SilentClaim([]);
    SilentClaim([] + [None]);
  }

  /** A lone dot has no name. */
  lemma DotHasNoName()
    ensures CanonServerName([DOT]) == []
  {
    assert [DOT][..0] == [];
    assert DropTail([DOT]) == [];
    assert Trimmed([DOT]) == [];
  }

  /** From a peer that is no trusted proxy the conventions change nothing: the target is the request's own. */
  lemma UntrustedConventionsAreIgnored(ownHost: Bytes, ownPath: Bytes, views: seq<View>)
    ensures ResolveTarget(ownHost, ownPath, false, views) == Some(Target(CanonServerName(ownHost), CleanUriPath(ownPath)))
  {
  }
}
