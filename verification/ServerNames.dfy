/** Server-name canonicalization: core/go/canon.go and its byte-level port in core/lua/canon_port_check.py. */
module ServerNames {
  import opened ByteStrings

  // ---- trimming -------------------------------------------------------------

  /** Lua's "%s" class: blank, and tab through carriage return. */
  predicate IsSpace(c: byte)
  {
    c == SPACE || TAB <= c <= 13
  }

  function DropLeading(s: Bytes): (r: Bytes)
    ensures r == [] || !IsSpace(r[0])
  {
    if s != [] && IsSpace(s[0]) then DropLeading(s[1..]) else s
  }

  function DropTrailingSpace(s: Bytes): (r: Bytes)
    ensures r <= s
  {
    if s != [] && IsSpace(s[|s| - 1]) then DropTrailingSpace(s[..|s| - 1]) else s
  }

  predicate IsTail(c: byte)
  {
    IsSpace(c) || c == DOT
  }

  /** Drops the maximal trailing run of blanks and dots. */
  function DropTail(s: Bytes): (r: Bytes)
    ensures r <= s
    ensures r == [] || !IsTail(r[|r| - 1])
    ensures forall i :: |r| <= i < |s| ==> IsTail(s[i])
  {
    if s != [] && IsTail(s[|s| - 1]) then DropTail(s[..|s| - 1]) else s
  }

  /** One round of the trim loop: strings.Trim, then one trailing dot. */
  function TrimStep(s: Bytes): (r: Bytes)
    ensures |r| <= |s|
  {
    DropLeadingShrinks(s);
    var t := DropTrailingSpace(DropLeading(s));
    if t != [] && t[|t| - 1] == DOT then t[..|t| - 1] else t
  }

  lemma {:induction false} DropLeadingShrinks(s: Bytes)
    ensures |DropLeading(s)| <= |s|
    ensures |DropLeading(s)| == |s| ==> DropLeading(s) == s
  {
    if s != [] && IsSpace(s[0]) {
      DropLeadingShrinks(s[1..]);
    }
  }

  /** What the trim loop computes: leading blanks gone, then the whole trailing run of blanks and dots. */
  function Trimmed(s: Bytes): Bytes
  {
    DropTail(DropLeading(s))
  }

  lemma {:induction false} DropTailAfterSpaces(s: Bytes)
    ensures DropTail(DropTrailingSpace(s)) == DropTail(s)
  {
    if s != [] && IsSpace(s[|s| - 1]) {
      DropTailAfterSpaces(s[..|s| - 1]);
    }
  }

  lemma TrimStepKeeps(s: Bytes)
    ensures Trimmed(TrimStep(s)) == Trimmed(s)
    ensures |TrimStep(s)| == |s| ==> TrimStep(s) == s
    ensures TrimStep(s) == s ==> Trimmed(s) == s
  {
    DropLeadingShrinks(s);
    var d := DropLeading(s);
    var t := DropTrailingSpace(d);
    var u := TrimStep(s);
    assert u <= d;
    assert DropLeading(u) == u;
    DropTailAfterSpaces(d);
    if u == s {
      assert t == s;
      TrailingSpaceGone(d);
    }
  }

  lemma {:induction false} TrailingSpaceGone(s: Bytes)
    ensures var r := DropTrailingSpace(s); r == [] || !IsSpace(r[|r| - 1])
  {
    if s != [] && IsSpace(s[|s| - 1]) {
      TrailingSpaceGone(s[..|s| - 1]);
    }
  }

  lemma TrimmedIdempotent(s: Bytes)
    ensures Trimmed(Trimmed(s)) == Trimmed(s)
  {
    var r := Trimmed(s);
    assert r <= DropLeading(s);
  }

  /** The fixpoint loop terminates in exactly the trimmed string. */
  method TrimDotsAndSpace(host: Bytes) returns (s: Bytes)
    ensures s == Trimmed(host)
  {
    s := host;
    while true
      invariant Trimmed(s) == Trimmed(host)
      decreases |s|
    {
      var t := TrimStep(s);
      TrimStepKeeps(s);
      if t == s {
        return s;
      }
      s := t;
    }
  }

  // ---- the canonical name ---------------------------------------------------

  predicate AllDigits(s: Bytes)
  {
    s != [] && forall i :: 0 <= i < |s| ==> '0' as int <= s[i] <= '9' as int
  }

  method IsAsciiDigits(s: Bytes) returns (ok: bool)
    ensures ok == AllDigits(s)
  {
    if s == [] {
      return false;
    }
    for i := 0 to |s|
      invariant forall k :: 0 <= k < i ==> '0' as int <= s[k] <= '9' as int
    {
      if s[i] < '0' as int || s[i] > '9' as int {
        return false;
      }
    }
    ok := true;
  }

  method AsciiLower(s: Bytes) returns (r: Bytes)
    ensures r == Lower(s)
  {
    var b := new byte[|s|](i requires 0 <= i < |s| => s[i]);
    for i := 0 to b.Length
      invariant forall k :: 0 <= k < i ==> b[k] == LowerByte(s[k])
      invariant forall k :: i <= k < |s| ==> b[k] == s[k]
    {
      if 'A' as int <= b[i] <= 'Z' as int {
        b[i] := b[i] + 32;
      }
    }
    r := b[..];
  }

  /** A bracketed literal delimits its own host. */
  function Unbracket(h: Bytes): Bytes
  {
    if h != [] && h[0] == OPEN_BRACKET && CLOSE_BRACKET in h
    then Trimmed(h[1..IndexOf(h, CLOSE_BRACKET)])
    else h
  }

  /** A trailing port goes only when the host has exactly one colon. */
  function StripPort(h: Bytes): Bytes
  {
    if Count(h, COLON) == 1 then
      var i := LastIndexOf(h, COLON);
      if i != -1 && AllDigits(h[i + 1..]) then h[..i] else h
    else h
  }

  function CanonServerName(host: Bytes): Bytes
  {
    Lower(Trimmed(StripPort(Unbracket(Trimmed(host)))))
  }

  method StripBrackets(h: Bytes) returns (r: Bytes)
    ensures r == Unbracket(h)
  {
    r := h;
    if h != [] && h[0] == OPEN_BRACKET {
      var end := IndexOf(h, CLOSE_BRACKET);
      if end != -1 {
        r := TrimDotsAndSpace(h[1..end]);
      }
    }
  }

  method StripDigits(h: Bytes) returns (r: Bytes)
    ensures r == StripPort(h)
  {
    r := h;
    if Count(h, COLON) == 1 {
      var i := LastIndexOf(h, COLON);
      if i != -1 {
        var digits := IsAsciiDigits(h[i + 1..]);
        if digits {
          r := h[..i];
        }
      }
    }
  }

  /** CanonServerName with the loops and reassignments of the source. */
  method CanonServerNameGo(host: Bytes) returns (r: Bytes)
    ensures r == CanonServerName(host)
  {
    var h := TrimDotsAndSpace(host);
    h := StripBrackets(h);
    h := StripDigits(h);
    h := TrimDotsAndSpace(h);
    r := AsciiLower(h);
  }

  // ---- the byte-level port --------------------------------------------------

  function PortTrim(b: Bytes): Bytes
    decreases |b|
  {
    var t := TrimStep(b);
    TrimStepKeeps(b);
    if t == b then b else PortTrim(t)
  }

  /** End of the run of bytes other than ']' from position i. */
  function NotCloseRun(b: Bytes, i: nat): (j: nat)
    requires i <= |b|
    ensures i <= j <= |b| && (j == |b| || b[j] == CLOSE_BRACKET) && CLOSE_BRACKET !in b[i..j]
    decreases |b| - i
  {
    if i < |b| && b[i] != CLOSE_BRACKET then
      var j := NotCloseRun(b, i + 1);
      assert b[i..j] == [b[i]] + b[i + 1..j];
      j
    else i
  }

  /** The group of `\[([^\]]*)\]` matched at the start. */
  function BracketGroup(b: Bytes): Option<Bytes>
  {
    if b != [] && b[0] == OPEN_BRACKET then
      var j := NotCloseRun(b, 1);
      if j < |b| then Some(b[1..j]) else None
    else None
  }

  /** The group of `(.*?):[0-9]+` matched against the whole of b, trying the shortest first. */
  function PortGroup(b: Bytes, k: nat): Option<Bytes>
    requires k <= |b|
    decreases |b| - k
  {
    if k == |b| then None
    else if b[k] == COLON && AllDigits(b[k + 1..]) then Some(b[..k])
    else PortGroup(b, k + 1)
  }

  function CanonServerNamePort(host: Bytes): Bytes
  {
    var b := PortTrim(host);
    var m := BracketGroup(b);
    var h := if m.Some? then PortTrim(m.value) else b;
    var p := if Count(h, COLON) == 1 then PortGroup(h, 0) else None;
    Lower(PortTrim(if p.Some? then p.value else h))
  }

  lemma {:induction false} PortTrimIsTrimmed(b: Bytes)
    ensures PortTrim(b) == Trimmed(b)
    decreases |b|
  {
    TrimStepKeeps(b);
    if TrimStep(b) != b {
      PortTrimIsTrimmed(TrimStep(b));
    }
  }

  /** With one colon in the string, the only place a port can start is after it. */
  lemma {:induction false} PortGroupIs(h: Bytes, k: nat, i: nat)
    requires k <= i < |h| && h[i] == COLON && COLON !in h[k..i] && COLON !in h[i + 1..]
    ensures PortGroup(h, k) == if AllDigits(h[i + 1..]) then Some(h[..i]) else None
    decreases i - k
  {
    if k < i {
      assert h[k] == h[k..i][0];
      assert h[k + 1..i] == h[k..i][1..];
      PortGroupIs(h, k + 1, i);
    } else {
      NoPortAfter(h, i + 1);
    }
  }

  lemma {:induction false} NoPortAfter(h: Bytes, k: nat)
    requires k <= |h| && COLON !in h[k..]
    ensures PortGroup(h, k) == None
    decreases |h| - k
  {
    if k < |h| {
      assert h[k] == h[k..][0];
      assert h[k + 1..] == h[k..][1..];
      NoPortAfter(h, k + 1);
    }
  }

  lemma SingleColon(h: Bytes)
    requires Count(h, COLON) == 1
    ensures var i := LastIndexOf(h, COLON); i != -1 && COLON !in h[..i]
  {
    var i := LastIndexOf(h, COLON);
    assert h == h[..i] + ([COLON] + h[i + 1..]);
    CountConcat(h[..i], [COLON] + h[i + 1..], COLON);
    CountConcat([COLON], h[i + 1..], COLON);
    assert Count([COLON], COLON) == 1;
  }

  lemma BracketAgrees(b: Bytes)
    ensures var m := BracketGroup(b);
            (if m.Some? then Trimmed(m.value) else b) == Unbracket(b)
  {
    if b != [] && b[0] == OPEN_BRACKET {
      var j := NotCloseRun(b, 1);
      if j < |b| {
        assert b[..j] == [b[0]] + b[1..j];
        IndexOfIs(b, CLOSE_BRACKET, j);
      } else {
        assert b == [b[0]] + b[1..j];
      }
    }
  }

  lemma PortGroupAgrees(h: Bytes)
    ensures var p := if Count(h, COLON) == 1 then PortGroup(h, 0) else None;
            (if p.Some? then p.value else h) == StripPort(h)
  {
    if Count(h, COLON) == 1 {
      SingleColon(h);
      PortGroupIs(h, 0, LastIndexOf(h, COLON));
    }
  }

  /** The port computes the same name on every byte string. */
  lemma PortAgrees(host: Bytes)
    ensures CanonServerNamePort(host) == CanonServerName(host)
  {
    var b := Trimmed(host);
    var m := BracketGroup(b);
    PortTrimIsTrimmed(host);
    if m.Some? {
      PortTrimIsTrimmed(m.value);
    }
    BracketAgrees(b);
    PortGroupAgrees(Unbracket(b));
    PortTrimIsTrimmed(StripPort(Unbracket(b)));
  }

  // ---- laws -----------------------------------------------------------------

  lemma {:induction false} CountLower(s: Bytes)
    ensures Count(Lower(s), COLON) == Count(s, COLON)
  {
    if s != [] {
      assert Lower(s)[1..] == Lower(s[1..]);
      CountLower(s[1..]);
    }
  }

  lemma {:induction false} LastIndexLower(s: Bytes)
    ensures LastIndexOf(Lower(s), COLON) == LastIndexOf(s, COLON)
  {
    if s != [] && s[|s| - 1] != COLON {
      assert Lower(s)[..|s| - 1] == Lower(s[..|s| - 1]);
      LastIndexLower(s[..|s| - 1]);
    }
  }

  lemma {:induction false} DropLeadingLower(s: Bytes)
    ensures DropLeading(Lower(s)) == Lower(DropLeading(s))
  {
    if s != [] && IsSpace(s[0]) {
      assert Lower(s)[1..] == Lower(s[1..]);
      DropLeadingLower(s[1..]);
    }
  }

  lemma LowerFront(s: Bytes)
    requires s != []
    ensures Lower(s)[..|s| - 1] == Lower(s[..|s| - 1]) && (IsTail(Lower(s)[|s| - 1]) <==> IsTail(s[|s| - 1]))
  {
  }

  lemma {:induction false} DropTailLower(s: Bytes)
    ensures DropTail(Lower(s)) == Lower(DropTail(s))
  {
    if s != [] {
      LowerFront(s);
      if IsTail(s[|s| - 1]) {
        DropTailLower(s[..|s| - 1]);
      }
    }
  }

  lemma TrimmedLower(s: Bytes)
    ensures Trimmed(Lower(s)) == Lower(Trimmed(s))
  {
    DropLeadingLower(s);
    DropTailLower(DropLeading(s));
  }

  lemma LowerTwice(s: Bytes)
    ensures Lower(Lower(s)) == Lower(s)
  {
  }

  /** Nothing is left to unbracket. */
  predicate Bare(h: Bytes)
  {
    h == [] || h[0] != OPEN_BRACKET || CLOSE_BRACKET !in h
  }

  lemma UnbracketIsBare(h: Bytes)
    requires Trimmed(h) == h
    ensures var u := Unbracket(h); Trimmed(u) == u && (h == u || CLOSE_BRACKET !in u) && Bare(u)
  {
    if h != [] && h[0] == OPEN_BRACKET && CLOSE_BRACKET in h {
      var e := IndexOf(h, CLOSE_BRACKET);
      var inner := h[1..e];
      assert h[..e] == [h[0]] + inner;
      TrimmedIdempotent(inner);
      DropLeadingSuffix(inner);
    }
  }

  lemma {:induction false} DropLeadingSuffix(s: Bytes)
    ensures forall c :: c in DropLeading(s) ==> c in s
  {
    if s != [] && IsSpace(s[0]) {
      DropLeadingSuffix(s[1..]);
    }
  }

  lemma StripPortDone(u: Bytes)
    requires Trimmed(u) == u && Bare(u)
    ensures var r := Trimmed(StripPort(u)); StripPort(r) == r && Bare(r)
  {
    var p := StripPort(u);
    if p != u {
      SingleColon(u);
      LeadingKept(u);
      assert p <= u && DropLeading(p) == p;
      var r := Trimmed(p);
      assert r <= p;
      assert COLON !in r && (CLOSE_BRACKET in r ==> CLOSE_BRACKET in u);
      assert r != [] ==> r[0] == u[0];
    }
  }

  lemma LeadingKept(u: Bytes)
    requires Trimmed(u) == u
    ensures DropLeading(u) == u
  {
    DropLeadingShrinks(u);
  }

  lemma LowerTail(r: Bytes, i: nat)
    requires i <= |r|
    ensures Lower(r)[i..] == Lower(r[i..])
  {
  }

  lemma StripPortLower(r: Bytes)
    requires StripPort(r) == r
    ensures StripPort(Lower(r)) == Lower(r)
  {
    CountLower(r);
    LastIndexLower(r);
    var i := LastIndexOf(r, COLON);
    LowerTail(r, i + 1);
    DigitsLower(r[i + 1..]);
  }

  lemma DigitsLower(s: Bytes)
    ensures AllDigits(Lower(s)) ==> AllDigits(s)
  {
    if AllDigits(Lower(s)) {
      forall i | 0 <= i < |s| ensures '0' as int <= s[i] <= '9' as int {
        assert Lower(s)[i] == LowerByte(s[i]);
      }
    }
  }

  lemma BareLower(r: Bytes)
    requires Bare(r)
    ensures Bare(Lower(r))
  {
    if CLOSE_BRACKET in Lower(r) {
      var i :| 0 <= i < |r| && Lower(r)[i] == CLOSE_BRACKET;
      assert r[i] == CLOSE_BRACKET;
    }
  }

  /** Canonicalization is idempotent on every byte string. */
  lemma CanonIdempotent(host: Bytes)
    ensures CanonServerName(CanonServerName(host)) == CanonServerName(host)
  {
    var t := Trimmed(host);
    TrimmedIdempotent(host);
    var u := Unbracket(t);
    UnbracketIsBare(t);
    var p := StripPort(u);
    var r := Trimmed(p);
    TrimmedIdempotent(p);
    StripPortDone(u);
    TrimmedLower(r);
    StripPortLower(r);
    BareLower(r);
    LowerTwice(r);
  }

  lemma {:induction false} DropLeadingConcat(s: Bytes, t: Bytes)
    requires t != [] && !IsSpace(t[0])
    ensures DropLeading(s + t) == DropLeading(s) + t
  {
    if s == [] {
      assert s + t == t;
    } else if IsSpace(s[0]) {
      assert (s + t)[1..] == s[1..] + t;
      DropLeadingConcat(s[1..], t);
    }
  }

  lemma {:induction false} DropTailConcat(s: Bytes, t: Bytes)
    requires s != [] && !IsTail(s[|s| - 1])
    ensures exists t' :: t' <= t && DropTail(s + t) == s + t'
  {
    if t == [] {
      assert s + t == s;
      assert [] <= t && DropTail(s + t) == s + [];
    } else if IsTail(t[|t| - 1]) {
      assert (s + t)[..|s + t| - 1] == s + t[..|t| - 1];
      DropTailConcat(s, t[..|t| - 1]);
      var t' :| t' <= t[..|t| - 1] && DropTail(s + t[..|t| - 1]) == s + t';
      assert t' <= t && DropTail(s + t) == s + t';
    } else {
      assert t <= t && DropTail(s + t) == s + t;
    }
  }

  lemma BracketedName(v: Bytes, rest: Bytes)
    requires CLOSE_BRACKET !in v
    ensures CanonServerName([OPEN_BRACKET] + v + [CLOSE_BRACKET] + rest) == Lower(Trimmed(StripPort(Trimmed(v))))
  {
    var lit := [OPEN_BRACKET] + v + [CLOSE_BRACKET];
    var s := lit + rest;
    DropTailConcat(lit, rest);
    var rest' :| rest' <= rest && DropTail(s) == lit + rest';
    var t := lit + rest';
    assert Trimmed(s) == t;
    var k := |v| + 1;
    assert t[k] == CLOSE_BRACKET && t[..k] == [OPEN_BRACKET] + v;
    IndexOfIs(t, CLOSE_BRACKET, k);
    assert t[1..k] == v;
  }

  lemma UnbracketedName(v: Bytes)
    requires CLOSE_BRACKET !in v || Bare(DropLeading(v))
    ensures CanonServerName(v) == Lower(Trimmed(StripPort(Trimmed(v))))
  {
    DropLeadingSuffix(v);
    assert Trimmed(v) <= DropLeading(v);
  }

  /** A literal has the same name with brackets and anything behind them as without. */
  lemma BracketsAreIgnored(v: Bytes, rest: Bytes)
    requires CLOSE_BRACKET !in v
    ensures CanonServerName([OPEN_BRACKET] + v + [CLOSE_BRACKET] + rest) == CanonServerName(v)
  {
    BracketedName(v, rest);
    UnbracketedName(v);
  }

  lemma LeadingIsIgnored(host: Bytes)
    ensures CanonServerName(host) == CanonServerName(DropLeading(host))
  {
  }

  /** A colon-free host, bracketed or not, has the same name with any port behind it. */
  lemma PortIsIgnored(host: Bytes, port: Bytes)
    requires COLON !in host && AllDigits(port)
    ensures CanonServerName(host + [COLON] + port) == CanonServerName(host)
  {
    var d := DropLeading(host);
    var tail := [COLON] + port;
    assert host + [COLON] + port == host + tail;
    DropLeadingConcat(host, tail);
    LeadingIsIgnored(host);
    LeadingIsIgnored(host + tail);
    DropLeadingSuffix(host);
    if Bare(d) {
      PlainPortIsIgnored(d, port);
    } else {
      BracketedTailIsIgnored(d, tail);
    }
  }

  lemma BracketedTailIsIgnored(d: Bytes, tail: Bytes)
    requires !Bare(d)
    ensures CanonServerName(d + tail) == CanonServerName(d)
  {
    var k := IndexOf(d, CLOSE_BRACKET);
    var v, rest := d[1..k], d[k + 1..];
    assert d[..k] == [OPEN_BRACKET] + v;
    assert d == [OPEN_BRACKET] + v + [CLOSE_BRACKET] + rest;
    assert d + tail == [OPEN_BRACKET] + v + [CLOSE_BRACKET] + (rest + tail);
    BracketsAreIgnored(v, rest);
    BracketsAreIgnored(v, rest + tail);
  }

  lemma PlainPortIsIgnored(d: Bytes, port: Bytes)
    requires COLON !in d && AllDigits(port) && DropLeading(d) == d && Bare(d)
    ensures CanonServerName(d + ([COLON] + port)) == CanonServerName(d)
  {
    var t := d + ([COLON] + port);
    assert t[|t| - 1] == port[|port| - 1];
    assert DropLeading(t) == t && Trimmed(t) == t;
    UnbracketedName(t);
    UnbracketedName(d);
    PortStripped(d, port);
    assert Trimmed(d) <= d;
    TrimmedIdempotent(d);
  }

  lemma OneColon(d: Bytes, port: Bytes)
    requires COLON !in d && AllDigits(port)
    ensures Count(d + ([COLON] + port), COLON) == 1
  {
    CountConcat(d, [COLON] + port, COLON);
    CountConcat([COLON], port, COLON);
    assert Count([COLON], COLON) == 1;
  }

  lemma PortStripped(d: Bytes, port: Bytes)
    requires COLON !in d && AllDigits(port)
    ensures StripPort(d + ([COLON] + port)) == d
  {
    var t := d + ([COLON] + port);
    OneColon(d, port);
    LastIndexOfIs(t, COLON, |d|);
    assert t[..|d|] == d && t[|d| + 1..] == port;
  }
}
