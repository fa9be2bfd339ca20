/** Exactly which texts the address parser accepts, and what each stands for. */
module IpSpellings {
  import opened ByteStrings
  import opened Numerals
  import opened IpAddresses
  import opened IpMasking
  import opened IpRoundTrip

  // ---- numerals -------------------------------------------------------------

  /** The digits, in order. */
  lemma DigitTable(v: nat)
    requires v < 16
    ensures Digit(v) == Ascii("0123456789abcdef")[v]
  {
  }

  /** A numeral with no leading zero is the one text of its value. */
  lemma {:induction false} NumTextInverse(s: Bytes, base: nat)
    requires 2 <= base <= 16 && IsNumeral(s, base) && !HasLeadingZero(s)
    ensures NumText(NumValue(s, base), base) == s
    decreases |s|
  {
    var n := |s| - 1;
    assert IsDigit(s[n], base);
    DigitBack(s[n], base);
    if n == 0 {
      assert s[..n] == [];
    } else {
      NumTextInverse(s[..n], base);
      OneMoreDigit(s[..n], s[n], base);
      assert s == s[..n] + [s[n]];
    }
  }

  lemma DigitBack(c: byte, base: nat)
    requires base <= 16 && IsDigit(c, base)
    ensures Digit(DigitOf(c)) == c
  {
  }

  lemma ValueOfMore(front: Bytes, c: byte, base: nat)
    requires 2 <= base <= 16 && IsNumeral(front, base) && IsDigit(c, base)
    ensures IsNumeral(front + [c], base) && NumValue(front + [c], base) == NumValue(front, base) * base + DigitOf(c)
  {
    assert (front + [c])[..|front|] == front;
  }

  lemma TextOfMore(v: nat, high: nat, d: nat, base: nat)
    requires 2 <= base <= 16 && d < base && v >= base && v / base == high && v % base == d
    ensures NumText(v, base) == NumText(high, base) + [Digit(d)]
  {
  }

  lemma NotZero(front: Bytes, base: nat)
    requires 2 <= base <= 16 && IsNumeral(front, base) && front[0] != '0' as int
    requires NumText(NumValue(front, base), base) == front
    ensures NumValue(front, base) > 0
  {
    assert NumText(0, base) == [Digit(0)] && Digit(0) == '0' as int;
  }

  lemma OneMoreDigit(front: Bytes, c: byte, base: nat)
    requires 2 <= base <= 16 && IsNumeral(front, base) && IsDigit(c, base) && front[0] != '0' as int
    requires NumText(NumValue(front, base), base) == front && Digit(DigitOf(c)) == c
    ensures IsNumeral(front + [c], base) && NumText(NumValue(front + [c], base), base) == front + [c]
  {
    var high, d := NumValue(front, base), DigitOf(c);
    NotZero(front, base);
    Splits(high, base, d);
    ValueOfMore(front, c, base);
    TextOfMore(high * base + d, high, d, base);
  }

  lemma Splits(high: nat, base: nat, d: nat)
    requires d < base && high > 0
    ensures high * base + d >= base && (high * base + d) / base == high && (high * base + d) % base == d
  {
    MulMonotone(1, high, base);
    Quotient(high * base + d, base, high, d);
  }

  // ---- IPv4 -----------------------------------------------------------------

  lemma VettedQuad(octs: seq<Bytes>)
    requires FourNumerals(octs) && forall i :: 0 <= i < 4 ==> !HasLeadingZero(octs[i]) && NumValue(octs[i], 10) <= 255
    ensures Join(octs, DOT)
         == OctetsText(NumValue(octs[0], 10), NumValue(octs[1], 10), NumValue(octs[2], 10), NumValue(octs[3], 10))
  {
    forall i | 0 <= i < 4 ensures NumText(NumValue(octs[i], 10), 10) == octs[i] {
      NumTextInverse(octs[i], 10);
    }
    assert octs == [octs[0], octs[1], octs[2], octs[3]];
  }

  lemma AcceptedIpv4(addr: Bytes)
    requires ParseIpv4(addr).Ok?
    ensures var o := ParseIpv4(addr).value; addr == OctetsText(o[0], o[1], o[2], o[3])
  {
    var octs := Split(addr, DOT);
    CheckedOctetsFit(octs);
    VettedQuad(octs);
    JoinSplit(addr, DOT);
  }

  /** The IPv4 parser accepts the dotted quads of four octets in plain decimal, and nothing else. */
  lemma Ipv4Exactly(addr: Bytes, o: seq<byte>)
    ensures ParseIpv4(addr) == Ok(o) <==> |o| == 4 && addr == OctetsText(o[0], o[1], o[2], o[3])
  {
    if ParseIpv4(addr).Ok? {
      AcceptedIpv4(addr);
    }
    if |o| == 4 {
      OctetsTextReads(o[0], o[1], o[2], o[3]);
      assert o == [o[0], o[1], o[2], o[3]];
    }
  }

  // ---- IPv6 without a dotted tail -------------------------------------------

  predicate AllGroups(parts: seq<Bytes>)
  {
    forall i :: 0 <= i < |parts| ==> IsGroup(parts[i])
  }

  function Values(parts: seq<Bytes>): (v: seq<Word>)
    requires AllGroups(parts)
    ensures |v| == |parts|
  {
    seq(|parts|, i requires 0 <= i < |parts| => GroupValue(parts[i]))
  }

  function ZeroWords(n: nat): (z: seq<Word>)
    ensures |z| == n
  {
    seq(n, _ => 0)
  }

  /** Eight groups of one to four hexadecimal digits, or at most seven with one "::" among or around them,
      standing for the zero groups that are missing. */
  predicate Full(addr: Bytes, nums: Groups, parts: seq<Bytes>)
  {
    |parts| == 8 && AllGroups(parts) && addr == Join(parts, COLON) && nums == Values(parts)
  }

  predicate Short(addr: Bytes, nums: Groups, l: seq<Bytes>, r: seq<Bytes>)
  {
    && AllGroups(l) && AllGroups(r) && |l| + |r| <= 7
    && addr == Join(l, COLON) + [COLON, COLON] + Join(r, COLON)
    && nums == Values(l) + ZeroWords(8 - |l| - |r|) + Values(r)
  }

  ghost predicate Spelling(addr: Bytes, nums: Groups)
  {
    (exists parts :: Full(addr, nums, parts)) || (exists l, r :: Short(addr, nums, l, r))
  }

  lemma NoColonInGroup(g: Bytes)
    requires IsGroup(g)
    ensures COLON !in g
  {
    assert forall j :: 0 <= j < |g| ==> IsDigit(g[j], 16);
    assert !IsDigit(COLON, 16);
  }

  lemma GroupsAreClean(parts: seq<Bytes>)
    requires AllGroups(parts)
    ensures Clean(parts)
  {
    forall i | 0 <= i < |parts| ensures COLON !in parts[i] {
      NoColonInGroup(parts[i]);
    }
  }

  lemma NumsOfGroups(raw: seq<Bytes>, nums: Groups)
    ensures NumsOf(raw) == Ok(nums) <==> |raw| == 8 && AllGroups(raw) && nums == Values(raw)
  {
    if |raw| == 8 && AllGroups(raw) {
      assert Values(raw) == seq(8, i requires 0 <= i < 8 => GroupValue(raw[i]));
    }
  }

  lemma ZeroGroup()
    ensures IsGroup(NumText(0, 16)) && GroupValue(NumText(0, 16)) == 0
  {
    NumRoundTrip(0, 16);
  }

  lemma ExpandedValues(l: seq<Bytes>, r: seq<Bytes>)
    requires AllGroups(l) && AllGroups(r) && |l| + |r| <= 7
    ensures var raw := l + Zeros(8 - |l| - |r|) + r;
            AllGroups(raw) && Values(raw) == Values(l) + ZeroWords(8 - |l| - |r|) + Values(r)
  {
    ZeroGroup();
    var n := 8 - |l| - |r|;
    var raw := l + Zeros(n) + r;
    forall i | 0 <= i < 8
      ensures IsGroup(raw[i]) && GroupValue(raw[i]) == (Values(l) + ZeroWords(n) + Values(r))[i]
    {
      if i < |l| {
        assert raw[i] == l[i];
      } else if i < |l| + n {
        assert raw[i] == NumText(0, 16);
      } else {
        assert raw[i] == r[i - |l| - n];
      }
    }
  }

  lemma SpellingReads(addr: Bytes, nums: Groups)
    requires Spelling(addr, nums)
    ensures RawGroups(addr).Ok? && NumsOf(RawGroups(addr).value) == Ok(nums)
  {
    if parts :| Full(addr, nums, parts) {
      GroupsAreClean(parts);
      FullTextReads(parts);
      NumsOfGroups(parts, nums);
    } else {
      var l, r :| Short(addr, nums, l, r);
      GroupsAreClean(l);
      GroupsAreClean(r);
      ShortTextReads(l, r);
      ExpandedValues(l, r);
      NumsOfGroups(l + Zeros(8 - |l| - |r|) + r, nums);
    }
  }

  lemma SideIsJoin(side: Bytes)
    requires side != [] ==> Pieces(side) == Split(side, COLON)
    ensures Join(Pieces(side), COLON) == side
  {
    if side != [] {
      JoinSplit(side, COLON);
    }
  }

  lemma FullRead(addr: Bytes, nums: Groups, raw: seq<Bytes>)
    requires FindDouble(addr, 0) == -1 && RawGroups(addr) == Ok(raw) && NumsOf(raw) == Ok(nums)
    ensures Full(addr, nums, raw)
  {
    NumsOfGroups(raw, nums);
    if addr != [] {
      FilterDropsNothing(addr);
    }
    SideIsJoin(addr);
  }

  lemma SidesJoin(addr: Bytes, dbl: nat)
    requires addr != [] && ColonFault(addr) == None && FindDouble(addr, 0) == dbl
    ensures Join(Pieces(addr[..dbl]), COLON) == addr[..dbl] && Join(Pieces(addr[dbl + 2..]), COLON) == addr[dbl + 2..]
  {
    FilterDropsNothing(addr);
    SideIsJoin(addr[..dbl]);
    SideIsJoin(addr[dbl + 2..]);
  }

  lemma AroundDouble(addr: Bytes, dbl: nat)
    requires DoubleAt(addr, dbl)
    ensures addr == addr[..dbl] + [COLON, COLON] + addr[dbl + 2..]
  {
  }

  lemma SidesRead(addr: Bytes, raw: seq<Bytes>, dbl: nat)
    requires FindDouble(addr, 0) == dbl && RawGroups(addr) == Ok(raw)
    ensures var l, r := Pieces(addr[..dbl]), Pieces(addr[dbl + 2..]);
            && Expand(l, r) == Ok(raw)
            && addr == Join(l, COLON) + [COLON, COLON] + Join(r, COLON)
  {
    assert DoubleAt(addr, dbl);
    SidesJoin(addr, dbl);
    AroundDouble(addr, dbl);
  }

  lemma ShortRead(addr: Bytes, nums: Groups, raw: seq<Bytes>, dbl: nat)
    requires FindDouble(addr, 0) == dbl && RawGroups(addr) == Ok(raw) && NumsOf(raw) == Ok(nums)
    ensures Short(addr, nums, Pieces(addr[..dbl]), Pieces(addr[dbl + 2..]))
  {
    SidesRead(addr, raw, dbl);
    ShortParts(addr, nums, raw, Pieces(addr[..dbl]), Pieces(addr[dbl + 2..]));
  }

  lemma ShortParts(addr: Bytes, nums: Groups, raw: seq<Bytes>, l: seq<Bytes>, r: seq<Bytes>)
    requires Expand(l, r) == Ok(raw) && NumsOf(raw) == Ok(nums)
    requires addr == Join(l, COLON) + [COLON, COLON] + Join(r, COLON)
    ensures Short(addr, nums, l, r)
  {
    NumsOfGroups(raw, nums);
    SidesOfExpanded(l, r, raw);
    ExpandedValues(l, r);
  }

  lemma ReadIsSpelling(addr: Bytes, nums: Groups)
    requires RawGroups(addr).Ok? && NumsOf(RawGroups(addr).value) == Ok(nums)
    ensures Spelling(addr, nums)
  {
    var dbl := FindDouble(addr, 0);
    if dbl == -1 {
      FullRead(addr, nums, RawGroups(addr).value);
    } else {
      ShortRead(addr, nums, RawGroups(addr).value, dbl);
    }
  }

  lemma SidesOfExpanded(l: seq<Bytes>, r: seq<Bytes>, raw: seq<Bytes>)
    requires Expand(l, r) == Ok(raw) && AllGroups(raw)
    ensures |l| + |r| <= 7 && raw == l + Zeros(8 - |l| - |r|) + r && AllGroups(l) && AllGroups(r)
  {
    forall i | 0 <= i < |l| ensures IsGroup(l[i]) {
      assert raw[i] == l[i];
    }
    forall i | 0 <= i < |r| ensures IsGroup(r[i]) {
      assert raw[8 - |r| + i] == r[i];
    }
  }

  /** The IPv6 parser accepts exactly the spellings, in either case, of the groups it returns. */
  lemma Ipv6Exactly(addr: Bytes, nums: Groups)
    requires DOT !in addr
    ensures Ipv6Groups(addr) == Ok(nums) <==> Spelling(Lower(addr), nums)
  {
    LowerAvoids(addr, DOT);
    if Spelling(Lower(addr), nums) {
      SpellingReads(Lower(addr), nums);
    }
    if Ipv6Groups(addr) == Ok(nums) {
      ReadIsSpelling(Lower(addr), nums);
    }
  }

  lemma LowerAvoids(s: Bytes, c: byte)
    requires c !in s && !('a' as int <= c <= 'z' as int)
    ensures c !in Lower(s)
  {
    forall i | 0 <= i < |s| ensures Lower(s)[i] != c {
      assert s[i] in s;
    }
  }

  // ---- a dotted tail --------------------------------------------------------

  /** The two groups the octets fill. */
  function TwoGroups(a: byte, b: byte, c: byte, d: byte): Bytes
  {
    NumText(a * 256 + b, 16) + [COLON] + NumText(c * 256 + d, 16)
  }

  /** What comes before a dotted tail. */
  predicate Head(head: Bytes)
  {
    head != [] && head[|head| - 1] == COLON && DOT !in head && NEWLINE !in head
  }

  lemma LowerConcat(s: Bytes, t: Bytes)
    ensures Lower(s + t) == Lower(s) + Lower(t)
  {
  }

  predicate Caseless(t: Bytes)
  {
    forall c :: c in t ==> !('A' as int <= c <= 'Z' as int)
  }

  lemma CaselessStays(t: Bytes)
    requires Caseless(t)
    ensures Lower(t) == t
  {
    assert forall i :: 0 <= i < |t| ==> t[i] in t;
  }

  lemma HexTextCaseless(n: nat)
    ensures Caseless(NumText(n, 16)) && DOT !in NumText(n, 16)
  {
    NumeralAvoids(n, 16, DOT);
    forall c | c in NumText(n, 16) ensures !('A' as int <= c <= 'Z' as int) {
      var i :| 0 <= i < |NumText(n, 16)| && NumText(n, 16)[i] == c;
      assert IsDigit(c, 16);
    }
  }

  lemma OctetsTextShape(a: byte, b: byte, c: byte, d: byte)
    ensures var t := OctetsText(a, b, c, d);
            Caseless(t) && COLON !in t && DOT in t
            && Split(t, DOT) == [NumText(a, 10), NumText(b, 10), NumText(c, 10), NumText(d, 10)]
  {
    var parts := [NumText(a, 10), NumText(b, 10), NumText(c, 10), NumText(d, 10)];
    OctetsTextReads(a, b, c, d);
    OctetReads(a);
    OctetReads(b);
    OctetReads(c);
    OctetReads(d);
    SplitJoin(parts, DOT);
    var t := OctetsText(a, b, c, d);
    assert t[|parts[0]|] == DOT;
    forall x | x in t ensures !('A' as int <= x <= 'Z' as int) {
      JoinAlphabet(parts, DOT, x);
      if x != DOT {
        var i :| 0 <= i < 4 && x in parts[i];
        var j :| 0 <= j < |parts[i]| && parts[i][j] == x;
        assert IsDigit(x, 10);
      }
    }
  }

  lemma TailAfterHead(head: Bytes, tail: Bytes)
    requires Head(head) && COLON !in tail && DOT in tail
    ensures var addr := head + tail;
            && DOT in addr && LastIndexOf(addr, COLON) == |head| - 1
            && NEWLINE !in addr[..|head| - 1] && addr[|head|..] == tail && addr[..|head|] == head
  {
    var addr := head + tail;
    assert addr[|head| - 1 + 1..] == tail;
    LastIndexOfIs(addr, COLON, |head| - 1);
    assert addr[..|head|] == head && addr[..|head| - 1] == head[..|head| - 1];
    var i :| 0 <= i < |tail| && tail[i] == DOT;
    assert addr[|head| + i] == DOT;
  }

  lemma HeadLowers(head: Bytes)
    requires Head(head)
    ensures Head(Lower(head))
  {
    LowerAvoids(head, DOT);
    LowerAvoids(head, NEWLINE);
  }

  lemma FlattensBy(head: Bytes, tail: Bytes)
    requires Head(head) && COLON !in tail && DOT in tail
    ensures FlattenQuad(head + tail) == match TailGroups(Split(tail, DOT))
                                        case Err(e) => Err(e)
                                        case Ok(groups) => Ok(head + groups)
  {
    TailAfterHead(head, tail);
  }

  lemma VettedGroups(octs: seq<Bytes>, a: byte, b: byte, c: byte, d: byte)
    requires FourNumerals(octs) && forall i :: 0 <= i < 4 ==> !HasLeadingZero(octs[i])
    requires NumValue(octs[0], 10) == a && NumValue(octs[1], 10) == b && NumValue(octs[2], 10) == c && NumValue(octs[3], 10) == d
    ensures TailGroups(octs) == Ok(TwoGroups(a, b, c, d))
  {
  }

  lemma OctetsFill(a: byte, b: byte, c: byte, d: byte)
    ensures TailGroups([NumText(a, 10), NumText(b, 10), NumText(c, 10), NumText(d, 10)]) == Ok(TwoGroups(a, b, c, d))
  {
    OctetReads(a);
    OctetReads(b);
    OctetReads(c);
    OctetReads(d);
    VettedGroups([NumText(a, 10), NumText(b, 10), NumText(c, 10), NumText(d, 10)], a, b, c, d);
  }

  lemma FlattensTo(head: Bytes, a: byte, b: byte, c: byte, d: byte)
    requires Head(head)
    ensures FlattenQuad(head + OctetsText(a, b, c, d)) == Ok(head + TwoGroups(a, b, c, d))
  {
    OctetsTextShape(a, b, c, d);
    FlattensBy(head, OctetsText(a, b, c, d));
    OctetsFill(a, b, c, d);
  }

  lemma SameFlattening(s: Bytes, t: Bytes)
    requires FlattenQuad(Lower(s)) == FlattenQuad(Lower(t))
    ensures Ipv6Groups(s) == Ipv6Groups(t)
  {
  }

  lemma FlattenedStays(head: Bytes, a: byte, b: byte, c: byte, d: byte)
    requires Head(head)
    ensures FlattenQuad(head + TwoGroups(a, b, c, d)) == Ok(head + TwoGroups(a, b, c, d))
  {
    HexTextCaseless(a * 256 + b);
    HexTextCaseless(c * 256 + d);
    assert DOT !in TwoGroups(a, b, c, d);
  }

  lemma TailsCaseless(a: byte, b: byte, c: byte, d: byte)
    ensures Caseless(OctetsText(a, b, c, d)) && Caseless(TwoGroups(a, b, c, d))
  {
    OctetsTextShape(a, b, c, d);
    HexTextCaseless(a * 256 + b);
    HexTextCaseless(c * 256 + d);
  }

  /** A dotted quad behind a colon reads as the two hexadecimal groups its octets fill, in order. */
  lemma DottedTailReads(head: Bytes, a: byte, b: byte, c: byte, d: byte)
    requires Head(head)
    ensures Ipv6Groups(head + OctetsText(a, b, c, d)) == Ipv6Groups(head + TwoGroups(a, b, c, d))
  {
    TailsCaseless(a, b, c, d);
    TailsAgree(head, OctetsText(a, b, c, d), TwoGroups(a, b, c, d), a, b, c, d);
  }

  lemma TailsAgree(head: Bytes, t: Bytes, u: Bytes, a: byte, b: byte, c: byte, d: byte)
    requires Head(head) && Caseless(t) && Caseless(u) && t == OctetsText(a, b, c, d) && u == TwoGroups(a, b, c, d)
    ensures Ipv6Groups(head + t) == Ipv6Groups(head + u)
  {
    LowerConcat(head, t);
    LowerConcat(head, u);
    CaselessStays(t);
    CaselessStays(u);
    HeadLowers(head);
    FlattensTo(Lower(head), a, b, c, d);
    FlattenedStays(Lower(head), a, b, c, d);
    SameFlattening(head + t, head + u);
  }

  /** What is wrong with the pieces of a dotted tail, if anything: not four numerals, else a leading zero, else
      an octet over 255. */
  function TailFault(octs: seq<Bytes>): Option<IpError>
  {
    if |octs| != 4 || (exists i :: 0 <= i < |octs| && !IsNumeral(octs[i], 10)) then Some(BadV4InV6)
    else if exists i :: 0 <= i < 4 && HasLeadingZero(octs[i]) then Some(V4InV6LeadingZero)
    else if exists i :: 0 <= i < 4 && NumValue(octs[i], 10) > 255 then Some(BadV4InV6)
    else None
  }

  lemma TailGroupsFail(octs: seq<Bytes>)
    ensures var fault := TailFault(octs); if fault.Some? then TailGroups(octs) == Err(fault.value) else TailGroups(octs).Ok?
  {
  }

  lemma FlattenFails(head: Bytes, tail: Bytes)
    requires Head(head) && COLON !in tail && DOT in tail
    ensures var fault := TailFault(Split(tail, DOT));
            if fault.Some? then FlattenQuad(head + tail) == Err(fault.value) else FlattenQuad(head + tail).Ok?
  {
    FlattensBy(head, tail);
    TailGroupsFail(Split(tail, DOT));
  }

  lemma GoodTail(tail: Bytes)
    requires TailFault(Split(tail, DOT)) == None
    ensures exists a: byte, b: byte, c: byte, d: byte :: tail == OctetsText(a, b, c, d)
  {
    var octs := Split(tail, DOT);
    VettedQuad(octs);
    JoinSplit(tail, DOT);
    var a: byte, b: byte := NumValue(octs[0], 10), NumValue(octs[1], 10);
    var c: byte, d: byte := NumValue(octs[2], 10), NumValue(octs[3], 10);
    assert tail == OctetsText(a, b, c, d);
  }

  /** Which tails are refused, and how; all others are dotted quads of four octets in plain decimal. */
  lemma DottedTailRefusals(head: Bytes, tail: Bytes)
    requires Head(head) && COLON !in tail && DOT in tail && Caseless(tail)
    ensures var fault := TailFault(Split(tail, DOT));
            if fault.Some? then Ipv6Groups(head + tail) == Err(fault.value)
            else exists a: byte, b: byte, c: byte, d: byte :: tail == OctetsText(a, b, c, d)
  {
    LowerConcat(head, tail);
    CaselessStays(tail);
    HeadLowers(head);
    FlattenFails(Lower(head), tail);
    if TailFault(Split(tail, DOT)) == None {
      GoodTail(tail);
    }
  }

  // ---- case -----------------------------------------------------------------

  lemma ColonLowers(s: Bytes)
    ensures COLON in Lower(s) <==> COLON in s
  {
    if COLON !in s {
      LowerAvoids(s, COLON);
    } else {
      var i :| 0 <= i < |s| && s[i] == COLON;
      assert Lower(s)[i] == COLON;
    }
  }

  lemma SameAddress(s: Bytes, t: Bytes, p: int, q: int)
    requires s != [] && t != [] && ParseAddr(s) == ParseAddr(t)
    ensures CanonIp(s, p, q) == CanonIp(t, p, q)
  {
    if 0 <= p <= 128 && 0 <= q <= 32 {
      CanonIpMeaning(s, p, q);
      CanonIpMeaning(t, p, q);
    }
  }

  /** Hexadecimal groups read alike in capitals and in small letters, and are canonicalized alike. */
  lemma HexCaseIsIgnored(s: Bytes, p: int, q: int)
    ensures Ipv6Groups(Lower(s)) == Ipv6Groups(s)
    ensures COLON in s ==> CanonIp(Lower(s), p, q) == CanonIp(s, p, q)
  {
    assert Lower(Lower(s)) == Lower(s);
    ColonLowers(s);
    if COLON in s {
      SameAddress(Lower(s), s, p, q);
    }
  }

  // ---- IPv4-mapped ----------------------------------------------------------

  lemma FfffGroup()
    ensures NumText(0xffff, 16) == Ascii("ffff")
  {
    assert NumText(0xf, 16) == Ascii("f");
    assert NumText(0xff, 16) == Ascii("ff");
    assert NumText(0xfff, 16) == Ascii("fff");
  }

  lemma HexGroup(n: Word)
    ensures IsGroup(NumText(n, 16)) && GroupValue(NumText(n, 16)) == n
  {
    assert Pow(16, 4) == 16 * Pow(16, 3) == 65536;
    NumLength(n, 16, 4);
    NumRoundTrip(n, 16);
  }

  lemma JoinMore(x: Bytes, rest: seq<Bytes>)
    requires rest != []
    ensures Join([x] + rest, COLON) == x + [COLON] + Join(rest, COLON)
  {
    assert ([x] + rest)[1..] == rest;
  }

  lemma JoinThree(x: Bytes, y: Bytes, z: Bytes)
    ensures Join([x, y, z], COLON) == x + [COLON] + (y + [COLON] + z)
  {
    assert [x, y, z] == [x] + [y, z] && [y, z] == [y] + [z];
    JoinMore(x, [y, z]);
    JoinMore(y, [z]);
  }

  lemma MappedText(a: byte, b: byte, c: byte, d: byte)
    ensures var r := [NumText(0xffff, 16), NumText(a * 256 + b, 16), NumText(c * 256 + d, 16)];
            Ascii("::ffff:") + TwoGroups(a, b, c, d) == [COLON, COLON] + Join(r, COLON)
  {
    FfffGroup();
    JoinThree(NumText(0xffff, 16), NumText(a * 256 + b, 16), NumText(c * 256 + d, 16));
    assert Ascii("::ffff:") == [COLON, COLON] + Ascii("ffff") + [COLON];
  }

  lemma MappedSpelling(a: byte, b: byte, c: byte, d: byte)
    ensures Spelling(Ascii("::ffff:") + TwoGroups(a, b, c, d), [0, 0, 0, 0, 0, 0xffff, a * 256 + b, c * 256 + d])
  {
    var l: seq<Bytes>, r := [], [NumText(0xffff, 16), NumText(a * 256 + b, 16), NumText(c * 256 + d, 16)];
    var nums: Groups := [0, 0, 0, 0, 0, 0xffff, a * 256 + b, c * 256 + d];
    HexGroup(0xffff);
    HexGroup(a * 256 + b);
    HexGroup(c * 256 + d);
    MappedText(a, b, c, d);
    assert Values(r) == [0xffff, a * 256 + b, c * 256 + d];
    assert nums == Values(l) + ZeroWords(5) + Values(r);
    assert Join(l, COLON) == [];
    assert Short(Ascii("::ffff:") + TwoGroups(a, b, c, d), nums, l, r);
  }

  lemma MappedGroups(a: byte, b: byte, c: byte, d: byte)
    ensures Ipv6Groups(Ascii("::ffff:") + TwoGroups(a, b, c, d)) == Ok([0, 0, 0, 0, 0, 0xffff, a * 256 + b, c * 256 + d])
  {
    var addr := Ascii("::ffff:") + TwoGroups(a, b, c, d);
    TailsCaseless(a, b, c, d);
    HexTextCaseless(a * 256 + b);
    HexTextCaseless(c * 256 + d);
    assert DOT !in TwoGroups(a, b, c, d);
    CaselessStays(addr);
    MappedSpelling(a, b, c, d);
    Ipv6Exactly(addr, [0, 0, 0, 0, 0, 0xffff, a * 256 + b, c * 256 + d]);
  }

  lemma PackedHalves(a: byte, b: byte, c: byte, d: byte)
    ensures (a as nat * 256 + b) * 65536 + (c * 256 + d) == PackOctets(a, b, c, d)
  {
  }

  lemma MappedCollapses(nums: Groups, a: byte, b: byte, c: byte, d: byte)
    requires nums == [0, 0, 0, 0, 0, 0xffff, a * 256 + b, c * 256 + d]
    ensures Collapse(nums) == V4(PackOctets(a, b, c, d))
  {
    PackedHalves(a, b, c, d);
  }

  lemma MappedParses(text: Bytes, a: byte, b: byte, c: byte, d: byte)
    requires Ipv6Groups(text) == Ok([0, 0, 0, 0, 0, 0xffff, a * 256 + b, c * 256 + d]) && COLON in text
    ensures ParseAddr(text) == ParseAddr(OctetsText(a, b, c, d))
  {
    OctetsTextReads(a, b, c, d);
    MappedCollapses(Ipv6Groups(text).value, a, b, c, d);
  }

  /** An IPv4-mapped address, with its tail dotted or in hexadecimal, is canonicalized as the IPv4 address. */
  lemma MappedIsIpv4(a: byte, b: byte, c: byte, d: byte, p: int, q: int)
    ensures CanonIp(Ascii("::ffff:") + OctetsText(a, b, c, d), p, q) == CanonIp(OctetsText(a, b, c, d), p, q)
    ensures CanonIp(Ascii("::ffff:") + TwoGroups(a, b, c, d), p, q) == CanonIp(OctetsText(a, b, c, d), p, q)
  {
    var head := Ascii("::ffff:");
    var t, u := OctetsText(a, b, c, d), TwoGroups(a, b, c, d);
    OctetsTextReads(a, b, c, d);
    assert head[0] == COLON && (head + t)[0] == COLON && (head + u)[0] == COLON;
    assert Head(head);
    DottedTailReads(head, a, b, c, d);
    MappedGroups(a, b, c, d);
    MappedParses(head + t, a, b, c, d);
    MappedParses(head + u, a, b, c, d);
    SameAddress(head + t, t, p, q);
    SameAddress(head + u, t, p, q);
  }
}
