/** The path half of the proxy boundary: cleanURIPath in authorizer/realip.go, with the library's
    percent-decoding (RFC 3986 section 2.1) and path cleaning written out. */
module UriPaths {
  import opened ByteStrings

  // ---- percent-decoding -----------------------------------------------------

  predicate IsHex(c: byte)
  {
    || '0' as int <= c <= '9' as int
    || 'a' as int <= c <= 'f' as int
    || 'A' as int <= c <= 'F' as int
  }

  function HexValue(c: byte): (v: nat)
    requires IsHex(c)
    ensures v < 16
  {
    if c <= '9' as int then c - '0' as int
    else if c <= 'F' as int then c - 'A' as int + 10
    else c - 'a' as int + 10
  }

  /** url.PathUnescape; None for a malformed escape. */
  function Unescape(s: Bytes): Option<Bytes>
  {
    if s == [] then Some([])
    else if s[0] != PERCENT then
      match Unescape(s[1..])
      case None => None
      case Some(rest) => Some([s[0]] + rest)
    else if |s| < 3 || !IsHex(s[1]) || !IsHex(s[2]) then None
    else
      match Unescape(s[3..])
      case None => None
      case Some(rest) => Some([HexValue(s[1]) * 16 + HexValue(s[2])] + rest)
  }

  lemma {:induction false} UnescapePlain(s: Bytes)
    requires PERCENT !in s
    ensures Unescape(s) == Some(s)
  {
    if s != [] {
      UnescapePlain(s[1..]);
      assert s == [s[0]] + s[1..];
    }
  }

  /** Decoding n times over. */
  function UnescapeTimes(s: Bytes, n: nat): Option<Bytes>
  {
    if n == 0 then Some(s)
    else
      match UnescapeTimes(s, n - 1)
      case None => None
      case Some(t) => Unescape(t)
  }

  // ---- path cleaning --------------------------------------------------------

  function Here(): Bytes
  {
    [DOT]
  }

  function Parent(): Bytes
  {
    [DOT, DOT]
  }

  /** One segment over the stack of those before it; above the root there is nothing. */
  function Step(stack: seq<Bytes>, s: Bytes): seq<Bytes>
  {
    if s == [] || s == Here() then stack
    else if s == Parent() then (if stack == [] then [] else stack[..|stack| - 1])
    else stack + [s]
  }

  /** Dot segments resolved left to right. */
  function Resolve(stack: seq<Bytes>, segs: seq<Bytes>): seq<Bytes>
    decreases segs
  {
    if segs == [] then stack else Resolve(Step(stack, segs[0]), segs[1..])
  }

  /** path.Clean of an absolute path. */
  function CleanRooted(p: Bytes): (r: Bytes)
    ensures r != [] && r[0] == SLASH
  {
    [SLASH] + Join(Resolve([], Split(p, SLASH)), SLASH)
  }

  predicate Normal(s: Bytes)
  {
    s != [] && s != Here() && s != Parent() && SLASH !in s
  }

  predicate AllNormal(segs: seq<Bytes>)
  {
    forall i :: 0 <= i < |segs| ==> Normal(segs[i])
  }

  lemma {:induction false} ResolveIsNormal(stack: seq<Bytes>, segs: seq<Bytes>)
    requires AllNormal(stack) && forall i :: 0 <= i < |segs| ==> SLASH !in segs[i]
    ensures AllNormal(Resolve(stack, segs))
    decreases segs
  {
    if segs != [] {
      ResolveIsNormal(Step(stack, segs[0]), segs[1..]);
    }
  }

  lemma {:induction false} ResolveNormal(stack: seq<Bytes>, segs: seq<Bytes>)
    requires AllNormal(segs)
    ensures Resolve(stack, segs) == stack + segs
    decreases segs
  {
    if segs != [] {
      ResolveNormal(stack + [segs[0]], segs[1..]);
      assert stack + [segs[0]] + segs[1..] == stack + segs;
    }
  }

  /** A cleaned path splits into an empty piece and its segments. */
  lemma CleanSplits(segs: seq<Bytes>)
    requires AllNormal(segs) && segs != []
    ensures Split([SLASH] + Join(segs, SLASH), SLASH) == [[]] + segs
  {
    var parts := [[]] + segs;
    assert parts[1..] == segs;
    assert Join(parts, SLASH) == [] + [SLASH] + Join(segs, SLASH);
    SplitJoin(parts, SLASH);
  }

  lemma CleanSegments(segs: seq<Bytes>)
    requires AllNormal(segs)
    ensures CleanRooted([SLASH] + Join(segs, SLASH)) == [SLASH] + Join(segs, SLASH)
  {
    if segs == [] {
      var two: seq<Bytes> := [[], []];
      SplitJoin(two, SLASH);
      assert Join(two, SLASH) == [SLASH];
      assert two[1..] == [[]] && two[1..][1..] == [];
    } else {
      CleanSplits(segs);
      assert ([[]] + segs)[1..] == segs;
      ResolveNormal([], segs);
      assert [] + segs == segs;
    }
  }

  /** An absolute path with no empty, "." or ".." segment, or the root itself. */
  predicate IsClean(p: Bytes)
  {
    && p != [] && p[0] == SLASH
    && (p == [SLASH] || AllNormal(Split(p[1..], SLASH)))
  }

  lemma CleanRootedIsClean(p: Bytes)
    ensures IsClean(CleanRooted(p))
  {
    var segs := Resolve([], Split(p, SLASH));
    ResolveIsNormal([], Split(p, SLASH));
    var r := CleanRooted(p);
    assert r[1..] == Join(segs, SLASH);
    if segs != [] {
      SplitJoin(segs, SLASH);
    }
  }

  lemma CleanRootedIdempotent(p: Bytes)
    ensures CleanRooted(CleanRooted(p)) == CleanRooted(p)
  {
    ResolveIsNormal([], Split(p, SLASH));
    CleanSegments(Resolve([], Split(p, SLASH)));
  }

  /** Cleaning invents no bytes but slashes. */
  lemma CleanRootedAlphabet(p: Bytes, c: byte)
    requires c in CleanRooted(p) && c != SLASH
    ensures c in p
  {
    var segs := Resolve([], Split(p, SLASH));
    JoinAlphabet(segs, SLASH, c);
    var i :| 0 <= i < |segs| && c in segs[i];
    ResolveFrom([], Split(p, SLASH), i);
    var j :| 0 <= j < |Split(p, SLASH)| && Split(p, SLASH)[j] == segs[i];
    InPiece(p, j, c);
  }

  lemma {:induction false} ResolveFrom(stack: seq<Bytes>, segs: seq<Bytes>, i: nat)
    requires i < |Resolve(stack, segs)|
    ensures var r := Resolve(stack, segs)[i];
            (exists j :: 0 <= j < |stack| && stack[j] == r) || (exists j :: 0 <= j < |segs| && segs[j] == r)
    decreases segs
  {
    var r := Resolve(stack, segs)[i];
    if segs == [] {
      assert stack[i] == r;
    } else {
      var stack' := Step(stack, segs[0]);
      ResolveFrom(stack', segs[1..], i);
      if j :| 0 <= j < |stack'| && stack'[j] == r {
        assert j < |stack| ==> stack[j] == r;
        assert j >= |stack| ==> segs[0] == r;
      } else {
        var j :| 0 <= j < |segs[1..]| && segs[1..][j] == r;
        assert segs[j + 1] == r;
      }
    }
  }

  lemma {:induction false} InPiece(p: Bytes, j: nat, c: byte)
    requires j < |Split(p, SLASH)| && c in Split(p, SLASH)[j]
    ensures c in p
  {
    var i := IndexOf(p, SLASH);
    if i != -1 && j > 0 {
      InPiece(p[i + 1..], j - 1, c);
    }
  }

  // ---- cleanURIPath ---------------------------------------------------------

  predicate Contains(s: Bytes, cs: Bytes)
  {
    exists c :: c in cs && c in s
  }

  /** The part before any query or fragment. */
  function BeforeQuery(uri: Bytes): (r: Bytes)
    ensures r <= uri
  {
    if uri == [] || uri[0] == QUESTION || uri[0] == HASH then [] else [uri[0]] + BeforeQuery(uri[1..])
  }

  function Rooted(p: Bytes): Bytes
  {
    if p != [] && p[0] == SLASH then p else [SLASH] + p
  }

  /** A URI the function will not normalize: a malformed escape, or one whose decoding still holds
      a character that means something to a decoder. */
  predicate Refused(uri: Bytes)
  {
    match Unescape(BeforeQuery(uri))
    case None => true
    case Some(dec) => PERCENT in dec || QUESTION in dec || HASH in dec
  }

  function CleanUriPath(uri: Bytes): Bytes
  {
    if Refused(uri) then [SLASH] else CleanRooted(Rooted(Unescape(BeforeQuery(uri)).value))
  }

  lemma {:induction false} NoQuery(s: Bytes)
    requires QUESTION !in s && HASH !in s
    ensures BeforeQuery(s) == s
  {
    if s != [] {
      NoQuery(s[1..]);
    }
  }

  /** Every result is a clean absolute path. */
  lemma CleanUriPathIsClean(uri: Bytes)
    ensures IsClean(CleanUriPath(uri))
  {
    if !Refused(uri) {
      CleanRootedIsClean(Rooted(Unescape(BeforeQuery(uri)).value));
    }
  }

  /** Cleaning a cleaned path changes nothing, on every byte string. */
  lemma CleanUriPathIdempotent(uri: Bytes)
    ensures CleanUriPath(CleanUriPath(uri)) == CleanUriPath(uri)
  {
    var r := CleanUriPath(uri);
    if Refused(uri) {
      NoQuery([SLASH]);
      UnescapePlain([SLASH]);
      CleanSegments([]);
    } else {
      var dec := Unescape(BeforeQuery(uri)).value;
      forall c | c == PERCENT || c == QUESTION || c == HASH ensures c !in r {
        if c in r {
          CleanRootedAlphabet(Rooted(dec), c);
        }
      }
      NoQuery(r);
      UnescapePlain(r);
      CleanRootedIdempotent(Rooted(dec));
    }
  }

  lemma {:induction false} DecodingSettles(uri: Bytes, n: nat)
    requires !Refused(uri) && n >= 1
    ensures UnescapeTimes(BeforeQuery(uri), n) == Unescape(BeforeQuery(uri))
  {
    if n > 1 {
      DecodingSettles(uri, n - 1);
      UnescapePlain(Unescape(BeforeQuery(uri)).value);
    } else {
      assert UnescapeTimes(BeforeQuery(uri), 0) == Some(BeforeQuery(uri));
    }
  }

  /** On every URI it does not refuse, it does not matter how often a component in front decodes. */
  lemma DecodeCountIsIrrelevant(uri: Bytes, n: nat)
    requires !Refused(uri) && n >= 1
    ensures UnescapeTimes(BeforeQuery(uri), n).Some?
    ensures CleanUriPath(uri) == CleanRooted(Rooted(UnescapeTimes(BeforeQuery(uri), n).value))
  {
    DecodingSettles(uri, n);
  }

  // ---- what cleaning does to each kind of segment ---------------------------

  predicate SlashFree(segs: seq<Bytes>)
  {
    forall i :: 0 <= i < |segs| ==> SLASH !in segs[i]
  }

  /** The absolute path of these segments. */
  function PathOf(segs: seq<Bytes>): Bytes
  {
    [SLASH] + Join(segs, SLASH)
  }

  lemma {:induction false} ResolveConcat(stack: seq<Bytes>, a: seq<Bytes>, b: seq<Bytes>)
    ensures Resolve(stack, a + b) == Resolve(Resolve(stack, a), b)
    decreases a
  {
    if a == [] {
      assert a + b == b;
    } else {
      assert (a + b)[1..] == a[1..] + b;
      ResolveConcat(Step(stack, a[0]), a[1..], b);
    }
  }

  lemma ResolveOne(stack: seq<Bytes>, s: Bytes)
    ensures Resolve(stack, [s]) == Step(stack, s)
  {
    var one := [s];
    assert one[1..] == [];
  }

  lemma ResolveTwo(stack: seq<Bytes>, s: Bytes, t: Bytes)
    ensures Resolve(stack, [s, t]) == Step(Step(stack, s), t)
  {
    assert [s, t] == [s] + [t];
    ResolveConcat(stack, [s], [t]);
    ResolveOne(stack, s);
    ResolveOne(Step(stack, s), t);
  }

  lemma PathSplits(segs: seq<Bytes>)
    requires SlashFree(segs) && segs != []
    ensures Split(PathOf(segs), SLASH) == [[]] + segs
  {
    var parts := [[]] + segs;
    assert parts[1..] == segs;
    assert Join(parts, SLASH) == [] + [SLASH] + Join(segs, SLASH);
    SplitJoin(parts, SLASH);
  }

  lemma PathResolves(segs: seq<Bytes>)
    requires SlashFree(segs)
    ensures CleanRooted(PathOf(segs)) == PathOf(Resolve([], segs))
  {
    var root: seq<Bytes> := [[]];
    if segs == [] {
      CleanSegments([]);
    } else {
      PathSplits(segs);
      ResolveConcat([], root, segs);
      ResolveOne([], []);
    }
  }

  lemma SameFrom(a: seq<Bytes>, x: seq<Bytes>, y: seq<Bytes>, b: seq<Bytes>)
    requires forall stack :: Resolve(stack, x) == Resolve(stack, y)
    requires SlashFree(a + x + b) && SlashFree(a + y + b)
    ensures CleanRooted(PathOf(a + x + b)) == CleanRooted(PathOf(a + y + b))
  {
    ResolveConcat([], a + x, b);
    ResolveConcat([], a, x);
    ResolveConcat([], a + y, b);
    ResolveConcat([], a, y);
    PathResolves(a + x + b);
    PathResolves(a + y + b);
  }

  /** ".." takes back the segment before it. */
  lemma ParentTakesBack(a: seq<Bytes>, s: Bytes, b: seq<Bytes>)
    requires SlashFree(a) && SlashFree(b) && SLASH !in s && s != [] && s != Ascii(".") && s != Ascii("..")
    ensures CleanRooted(PathOf(a + [s, Ascii("..")] + b)) == CleanRooted(PathOf(a + b))
  {
    var x := [s, Ascii("..")];
    assert Ascii(".") == Here() && Ascii("..") == Parent();
    forall stack: seq<Bytes> ensures Resolve(stack, x) == Resolve(stack, []) {
      ResolveTwo(stack, s, Parent());
      assert (stack + [s])[..|stack + [s]| - 1] == stack;
    }
    assert a + [] + b == a + b;
    SameFrom(a, x, [], b);
  }

  /** Above the root there is nothing to take back. */
  lemma LeadingParentIsDropped(b: seq<Bytes>)
    requires SlashFree(b)
    ensures CleanRooted(PathOf([Ascii("..")] + b)) == CleanRooted(PathOf(b))
  {
    var x := [Ascii("..")];
    assert Ascii("..") == Parent();
    ResolveOne([], Parent());
    ResolveConcat([], x, b);
    PathResolves(x + b);
    PathResolves(b);
  }

  /** "." and empty segments vanish wherever they stand. */
  lemma DotsVanish(a: seq<Bytes>, s: Bytes, b: seq<Bytes>)
    requires SlashFree(a) && SlashFree(b) && (s == [] || s == Ascii("."))
    ensures CleanRooted(PathOf(a + [s] + b)) == CleanRooted(PathOf(a + b))
  {
    assert Ascii(".") == Here();
    forall stack: seq<Bytes> ensures Resolve(stack, [s]) == Resolve(stack, []) {
      ResolveOne(stack, s);
    }
    assert a + [] + b == a + b;
    SameFrom(a, [s], [], b);
  }

  /** Ordinary segments stay, all of them and in order. With the three laws before, this settles every path. */
  lemma OrdinarySegmentsStay(segs: seq<Bytes>)
    requires SlashFree(segs)
    requires forall i :: 0 <= i < |segs| ==> segs[i] != [] && segs[i] != Ascii(".") && segs[i] != Ascii("..")
    ensures CleanRooted(PathOf(segs)) == PathOf(segs)
  {
    assert Ascii(".") == Here() && Ascii("..") == Parent();
    CleanSegments(segs);
  }

  // ---- what decoding does to each kind of character -------------------------

  /** The digit d, in either case, for the value v. */
  predicate SpellsHex(d: byte, v: nat)
    requires v < 16
  {
    d == Ascii("0123456789abcdef")[v] || d == Ascii("0123456789ABCDEF")[v]
  }

  lemma HexSpelled(d: byte, v: nat)
    requires v < 16
    ensures IsHex(d) && HexValue(d) == v <==> SpellsHex(d, v)
  {
  }

  /** "%XY" decodes to the byte 16 * X + Y, in either case. */
  lemma EscapeDecodes(hi: byte, lo: byte, c: byte, rest: Bytes)
    requires SpellsHex(hi, c / 16) && SpellsHex(lo, c % 16)
    ensures Unescape([PERCENT, hi, lo] + rest) == match Unescape(rest)
                                                  case None => None
                                                  case Some(t) => Some([c] + t)
  {
    HexSpelled(hi, c / 16);
    HexSpelled(lo, c % 16);
    var s := [PERCENT, hi, lo] + rest;
    assert s[3..] == rest;
  }

  lemma HexPairSpells(h: byte, l: byte)
    requires IsHex(h) && IsHex(l)
    ensures exists c: byte :: SpellsHex(h, c / 16) && SpellsHex(l, c % 16)
  {
    var x, y := HexValue(h), HexValue(l);
    HexSpelled(h, x);
    HexSpelled(l, y);
    var c: byte := x * 16 + y;
    assert c / 16 == x && c % 16 == y;
  }

  /** A percent sign that two hexadecimal digits do not follow is refused. */
  lemma BadEscapeFails(rest: Bytes)
    requires |rest| < 2 || !(exists c: byte :: SpellsHex(rest[0], c / 16) && SpellsHex(rest[1], c % 16))
    ensures Unescape([PERCENT] + rest) == None
  {
    if |rest| >= 2 && IsHex(rest[0]) && IsHex(rest[1]) {
      HexPairSpells(rest[0], rest[1]);
    }
  }

  /** Every other character stands for itself. */
  lemma {:induction false} PlainStays(a: Bytes, rest: Bytes)
    requires PERCENT !in a
    ensures Unescape(a + rest) == match Unescape(rest)
                                  case None => None
                                  case Some(t) => Some(a + t)
  {
    if a == [] {
      assert a + rest == rest;
      assert Unescape(rest).Some? ==> a + Unescape(rest).value == Unescape(rest).value;
    } else {
      PlainStays(a[1..], rest);
      assert (a + rest)[0] == a[0] && (a + rest)[1..] == a[1..] + rest;
      assert Unescape(rest).Some? ==> [a[0]] + (a[1..] + Unescape(rest).value) == a + Unescape(rest).value;
    }
  }

  // ---- the same, of cleanURIPath --------------------------------------------

  /** None of the three characters that mean something before cleaning. */
  predicate PlainUri(p: Bytes)
  {
    PERCENT !in p && QUESTION !in p && HASH !in p
  }

  lemma PlainUriIsCleaned(p: Bytes)
    requires PlainUri(p)
    ensures CleanUriPath(p) == CleanRooted(Rooted(p))
  {
    NoQuery(p);
    UnescapePlain(p);
  }

  lemma {:induction false} PlainPath(segs: seq<Bytes>)
    requires forall i :: 0 <= i < |segs| ==> PlainUri(segs[i])
    ensures PlainUri(PathOf(segs))
  {
    forall c | c in PathOf(segs) ensures c != PERCENT && c != QUESTION && c != HASH {
      if c != SLASH {
        JoinAlphabet(segs, SLASH, c);
      }
    }
  }

  /** The laws of segments, of a whole request path. */
  lemma UriSegments(a: seq<Bytes>, s: Bytes, b: seq<Bytes>)
    requires SlashFree(a) && SlashFree(b) && SLASH !in s
    requires forall i :: 0 <= i < |a| ==> PlainUri(a[i])
    requires forall i :: 0 <= i < |b| ==> PlainUri(b[i])
    requires PlainUri(s)
    ensures s == [] || s == Ascii(".") ==> CleanUriPath(PathOf(a + [s] + b)) == CleanUriPath(PathOf(a + b))
    ensures s != [] && s != Ascii(".") && s != Ascii("..") ==>
              CleanUriPath(PathOf(a + [s, Ascii("..")] + b)) == CleanUriPath(PathOf(a + b))
    ensures CleanUriPath(PathOf([Ascii("..")] + b)) == CleanUriPath(PathOf(b))
  {
    PlainPath(a + b);
    PlainPath(b);
    PlainPath(a + [s] + b);
    PlainPath(a + [s, Ascii("..")] + b);
    PlainPath([Ascii("..")] + b);
    PlainUriIsCleaned(PathOf(a + b));
    PlainUriIsCleaned(PathOf(b));
    PlainUriIsCleaned(PathOf(a + [s] + b));
    PlainUriIsCleaned(PathOf(a + [s, Ascii("..")] + b));
    PlainUriIsCleaned(PathOf([Ascii("..")] + b));
    LeadingParentIsDropped(b);
    if s == [] || s == Ascii(".") {
      DotsVanish(a, s, b);
    } else if s != Ascii("..") {
      ParentTakesBack(a, s, b);
    }
  }

  /** A path that does not start at the root is taken from there. */
  lemma RelativeIsRooted(p: Bytes)
    requires PlainUri(p) && (p == [] || p[0] != '/' as int)
    ensures CleanUriPath(p) == CleanUriPath(Ascii("/") + p)
  {
    assert Ascii("/") == [SLASH];
    PlainUriIsCleaned(p);
    PlainUriIsCleaned([SLASH] + p);
  }

  /** A path whose decoding hides nothing is cleaned as its decoding; any other is the root. */
  lemma DecodedMeansTheSame(uri: Bytes)
    ensures var dec := Unescape(BeforeQuery(uri));
            && (dec.Some? && PlainUri(dec.value) ==> CleanUriPath(uri) == CleanUriPath(dec.value))
            && (dec.None? || !PlainUri(dec.value) ==> CleanUriPath(uri) == Ascii("/"))
  {
    var dec := Unescape(BeforeQuery(uri));
    assert Ascii("/") == [SLASH];
    if dec.Some? && PlainUri(dec.value) {
      PlainUriIsCleaned(dec.value);
    }
  }

  /** Whatever follows a '?' or '#' is cut off. */
  lemma {:induction false} QueryIsCut(p: Bytes, q: Bytes)
    requires q != [] && (q[0] == '?' as int || q[0] == '#' as int)
    ensures BeforeQuery(p + q) == BeforeQuery(p) && CleanUriPath(p + q) == CleanUriPath(p)
  {
    if p == [] {
      assert p + q == q;
    } else {
      assert (p + q)[0] == p[0] && (p + q)[1..] == p[1..] + q;
      QueryIsCut(p[1..], q);
    }
  }

  /** An escape of '%', '?' or '#' anywhere in a path makes it the root, which is no endpoint. */
  lemma HiddenMeaningIsRoot(a: Bytes, hi: byte, lo: byte, c: byte, rest: Bytes)
    requires PlainUri(a) && SpellsHex(hi, c / 16) && SpellsHex(lo, c % 16)
    requires c == '%' as int || c == '?' as int || c == '#' as int
    ensures CleanUriPath(a + ([PERCENT, hi, lo] + rest)) == Ascii("/")
  {
    var esc := [PERCENT, hi, lo];
    var uri := a + (esc + rest);
    EscapeIsNoQuery(a, hi, lo, c, rest);
    assert Ascii("/") == [SLASH];
    PlainStays(a, esc + BeforeQuery(rest));
    EscapeDecodes(hi, lo, c, BeforeQuery(rest));
    if Unescape(BeforeQuery(rest)).Some? {
      HoldsMeaning(a, c, Unescape(BeforeQuery(rest)).value);
    }
  }

  lemma HoldsMeaning(a: Bytes, c: byte, rest: Bytes)
    ensures c in a + ([c] + rest)
  {
    assert (a + ([c] + rest))[|a|] == c;
  }

  lemma EscapeIsNoQuery(a: Bytes, hi: byte, lo: byte, c: byte, rest: Bytes)
    requires PlainUri(a) && SpellsHex(hi, c / 16) && SpellsHex(lo, c % 16)
    ensures BeforeQuery(a + ([PERCENT, hi, lo] + rest)) == a + ([PERCENT, hi, lo] + BeforeQuery(rest))
  {
    var esc := [PERCENT, hi, lo];
    HexSpelled(hi, c / 16);
    HexSpelled(lo, c % 16);
    BeforeQueryKeeps(esc, rest);
    BeforeQueryKeeps(a, esc + rest);
  }

  lemma {:induction false} BeforeQueryKeeps(a: Bytes, rest: Bytes)
    requires QUESTION !in a && HASH !in a
    ensures BeforeQuery(a + rest) == a + BeforeQuery(rest)
  {
    if a == [] {
      assert a + rest == rest;
    } else {
      assert (a + rest)[0] == a[0] && (a + rest)[1..] == a[1..] + rest;
      BeforeQueryKeeps(a[1..], rest);
    }
  }
}
