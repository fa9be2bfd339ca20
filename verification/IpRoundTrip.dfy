/** Parsing inverts printing, and what `canon_ip` computes is parse, collapse, mask, print. */
module IpRoundTrip {
  import opened ByteStrings
  import opened Numerals
  import opened IpAddresses
  import opened IpMasking

  // ---- lists of hexadecimal pieces ------------------------------------------

  predicate Clean(parts: seq<Bytes>)
  {
    forall i :: 0 <= i < |parts| ==> parts[i] != [] && COLON !in parts[i]
  }

  lemma {:induction false} JoinClean(parts: seq<Bytes>)
    requires Clean(parts) && |parts| >= 1
    ensures var s := Join(parts, COLON);
            s != [] && s[0] != COLON && s[|s| - 1] != COLON && forall k :: !DoubleAt(s, k)
  {
    var p := parts[0];
    assert p[0] in p && p[|p| - 1] in p;
    if |parts| > 1 {
      var rest := Join(parts[1..], COLON);
      JoinClean(parts[1..]);
      var s := Join(parts, COLON);
      assert s == p + [COLON] + rest;
      forall k ensures !DoubleAt(s, k) {
        if 0 <= k < |p| {
          assert s[k] == p[k] && p[k] in p;
        } else if |p| < k && k + 1 < |s| {
          assert s[k] == rest[k - |p| - 1] && s[k + 1] == rest[k - |p|];
          assert !DoubleAt(rest, k - |p| - 1);
        }
      }
    } else {
      forall k ensures !DoubleAt(p, k) {
        if 0 <= k < |p| {
          assert p[k] in p;
        }
      }
    }
  }

  lemma {:induction false} NonEmptyKeepsAll(parts: seq<Bytes>)
    requires forall i :: 0 <= i < |parts| ==> parts[i] != []
    ensures NonEmpty(parts) == parts
  {
    if parts != [] {
      NonEmptyKeepsAll(parts[1..]);
    }
  }

  /** No colon at either end and no two in a row. */
  predicate Tidy(s: Bytes)
  {
    s != [] && s[0] != COLON && s[|s| - 1] != COLON && forall k :: 0 <= k < |s| ==> !DoubleAt(s, k)
  }

  lemma {:induction false} TidyPieces(s: Bytes, i: nat)
    requires Tidy(s) && i < |Split(s, COLON)|
    ensures Split(s, COLON)[i] != []
  {
    var c := IndexOf(s, COLON);
    if c != -1 && i > 0 {
      var t := s[c + 1..];
      assert !DoubleAt(s, c);
      forall k | 0 <= k < |t| ensures !DoubleAt(t, k) {
        assert !DoubleAt(s, c + 1 + k);
      }
      TidyPieces(t, i - 1);
    }
  }

  lemma PiecesKeepAll(s: Bytes)
    requires Tidy(s)
    ensures Pieces(s) == Split(s, COLON)
  {
    var parts := Split(s, COLON);
    forall i | 0 <= i < |parts| ensures parts[i] != [] {
      TidyPieces(s, i);
    }
    NonEmptyKeepsAll(parts);
  }

  /** On every address that passes the colon checks, the empty-piece filter drops nothing. */
  lemma FilterDropsNothing(addr: Bytes)
    requires addr != [] && ColonFault(addr) == None
    ensures var dbl := FindDouble(addr, 0);
            if dbl == -1 then Pieces(addr) == Split(addr, COLON)
            else var left, right := addr[..dbl], addr[dbl + 2..];
                 && (left != [] ==> Pieces(left) == Split(left, COLON))
                 && (right != [] ==> Pieces(right) == Split(right, COLON))
  {
    var dbl := FindDouble(addr, 0);
    if dbl == -1 {
      PiecesKeepAll(addr);
    } else {
      var left, right := addr[..dbl], addr[dbl + 2..];
      SidesTidy(addr, dbl);
      if left != [] {
        PiecesKeepAll(left);
      }
      if right != [] {
        PiecesKeepAll(right);
      }
    }
  }

  lemma SidesTidy(addr: Bytes, dbl: nat)
    requires addr != [] && ColonFault(addr) == None && FindDouble(addr, 0) == dbl
    ensures dbl > 0 ==> Tidy(addr[..dbl])
    ensures dbl + 2 < |addr| ==> Tidy(addr[dbl + 2..])
  {
    assert DoubleAt(addr, dbl) && !DoubleAt(addr, dbl + 1) && !DoubleAt(addr, dbl - 1);
    assert forall k :: DoubleAt(addr, k) ==> k == dbl;
    var left, right := addr[..dbl], addr[dbl + 2..];
    forall k | 0 <= k < |left| ensures !DoubleAt(left, k) {
      assert !DoubleAt(addr, k);
    }
    forall k | 0 <= k < |right| ensures !DoubleAt(right, k) {
      assert !DoubleAt(addr, dbl + 2 + k);
    }
  }

  // ---- groups ---------------------------------------------------------------

  lemma HexPartsClean(nums: seq<Word>)
    ensures Clean(HexParts(nums))
    ensures forall i :: 0 <= i < |nums| ==> IsGroup(HexParts(nums)[i]) && GroupValue(HexParts(nums)[i]) == nums[i]
  {
    forall i | 0 <= i < |nums|
      ensures COLON !in NumText(nums[i], 16)
      ensures IsGroup(NumText(nums[i], 16)) && GroupValue(NumText(nums[i], 16)) == nums[i]
    {
      NumeralAvoids(nums[i], 16, COLON);
      assert Pow(16, 4) == 16 * Pow(16, 3) == 65536;
      NumLength(nums[i], 16, 4);
      NumRoundTrip(nums[i], 16);
    }
  }

  lemma HexPartsRead(nums: Groups)
    ensures NumsOf(HexParts(nums)) == Ok(nums)
  {
    HexPartsClean(nums);
    assert nums == seq(8, i requires 0 <= i < 8 => GroupValue(HexParts(nums)[i]));
  }

  lemma PiecesOfJoin(parts: seq<Bytes>)
    requires Clean(parts)
    ensures Pieces(Join(parts, COLON)) == parts
  {
    if parts != [] {
      JoinClean(parts);
      SplitJoin(parts, COLON);
      NonEmptyKeepsAll(parts);
    }
  }

  lemma FullTextReads(parts: seq<Bytes>)
    requires Clean(parts) && |parts| == 8
    ensures RawGroups(Join(parts, COLON)) == Ok(parts)
  {
    JoinClean(parts);
    PiecesOfJoin(parts);
  }

  lemma OneDoubleReads(s: Bytes, n: nat)
    requires forall k :: DoubleAt(s, k) <==> k == n
    requires n + 1 < |s| && !StrayColons(s)
    ensures RawGroups(s) == Expand(Pieces(s[..n]), Pieces(s[n + 2..]))
  {
    assert DoubleAt(s, n);
    assert FindDouble(s, 0) == n;
    assert ColonFault(s) == None;
  }

  lemma ShortTextReads(left: seq<Bytes>, right: seq<Bytes>)
    requires Clean(left) && Clean(right)
    ensures RawGroups(Join(left, COLON) + [COLON, COLON] + Join(right, COLON)) == Expand(left, right)
  {
    var l, r := Join(left, COLON), Join(right, COLON);
    var s := l + [COLON, COLON] + r;
    ShortTextDoubles(left, right);
    OneDoubleReads(s, |l|);
    assert s[..|l|] == l && s[|l| + 2..] == r;
    PiecesOfJoin(left);
    PiecesOfJoin(right);
  }

  /** The marker is the only pair of colons in a shortened text. */
  lemma ShortTextDoubles(left: seq<Bytes>, right: seq<Bytes>)
    requires Clean(left) && Clean(right)
    ensures var l, r := Join(left, COLON), Join(right, COLON);
            var s := l + [COLON, COLON] + r;
            && (forall k :: DoubleAt(s, k) <==> k == |l|)
            && !StrayColons(s)
  {
    var l, r := Join(left, COLON), Join(right, COLON);
    var s := l + [COLON, COLON] + r;
    var n := |l|;
    if left != [] { JoinClean(left); }
    if right != [] { JoinClean(right); }
    forall k ensures DoubleAt(s, k) <==> k == n {
      if 0 <= k < n - 1 {
        assert s[k] == l[k] && s[k + 1] == l[k + 1];
        assert !DoubleAt(l, k);
      } else if n + 2 <= k && k + 1 < |s| {
        assert s[k] == r[k - n - 2] && s[k + 1] == r[k - n - 1];
        assert !DoubleAt(r, k - n - 2);
      }
    }
    assert DoubleAt(s, n);
    if right == [] {
      assert |s| - 2 == n;
    }
  }

  lemma ZerosAreHexZeros(nums: Groups, start: nat, len: nat)
    requires start + len <= 8 && forall j :: start <= j < start + len ==> nums[j] == 0
    ensures HexParts(nums)[..start] + Zeros(len) + HexParts(nums)[start + len..] == HexParts(nums)
  {
  }

  lemma GroupsTextReads(nums: Groups, start: nat, len: nat)
    requires start + len <= 8 && forall j :: start <= j < start + len ==> nums[j] == 0
    ensures RawGroups(GroupsText(nums, start, len)) == Ok(HexParts(nums))
  {
    var parts := HexParts(nums);
    HexPartsClean(nums);
    if len >= 2 {
      ShortTextReads(parts[..start], parts[start + len..]);
      ZerosAreHexZeros(nums, start, len);
    } else {
      FullTextReads(parts);
    }
  }

  /** Printed groups hold only colons and lower-case hexadecimal digits. */
  lemma GroupsTextAlphabet(nums: Groups, start: nat, len: nat, c: byte)
    requires start + len <= 8 && c in GroupsText(nums, start, len)
    ensures c == COLON || IsDigit(c, 16)
  {
    var parts := HexParts(nums);
    if len >= 2 && c != COLON {
      if c in Join(parts[..start], COLON) {
        JoinAlphabet(parts[..start], COLON, c);
      } else {
        assert c in Join(parts[start + len..], COLON);
        JoinAlphabet(parts[start + len..], COLON, c);
      }
    } else if len < 2 {
      JoinAlphabet(parts, COLON, c);
    }
  }

  /** Parsing inverts printing, for all eight 16-bit groups. */
  lemma Ipv6RoundTrip(nums: Groups)
    ensures Ipv6Groups(CompressText(nums)) == Ok(nums)
  {
    BestRunIsLeftmostLongest(nums, 0, 0, 0);
    var (s, len) := BestRun(nums, 0, 0, 0);
    var start := if len == 0 then 0 else s;
    var text := GroupsText(nums, start, len);
    forall c | c in text ensures c == COLON || IsDigit(c, 16) {
      GroupsTextAlphabet(nums, start, len, c);
    }
    assert forall i :: 0 <= i < |text| ==> text[i] in text;
    assert Lower(text) == text;
    GroupsTextReads(nums, start, len);
    HexPartsRead(nums);
  }

  /** What RFC 5952 section 4 asks of the text: the leftmost longest run of two or more zero
      groups is shortened, nothing shorter is, and every group is a lower-case numeral with no
      leading zero. */
  ghost predicate Rfc5952(nums: Groups, text: Bytes)
  {
    && (forall i :: 0 <= i < 8 ==> !HasLeadingZero(HexParts(nums)[i]))
    && ((exists s, n :: n >= 2 && LeftmostLongest(nums, s, n)
                     && text == Join(HexParts(nums)[..s], COLON) + [COLON, COLON] + Join(HexParts(nums)[s + n..], COLON))
        || ((forall s, n :: ZeroRun(nums, s, n) ==> n < 2) && text == Join(HexParts(nums), COLON)))
  }

  lemma CompressIsRfc5952(nums: Groups)
    ensures Rfc5952(nums, CompressText(nums))
  {
    BestRunIsLeftmostLongest(nums, 0, 0, 0);
    var (s, len) := BestRun(nums, 0, 0, 0);
    if len >= 2 {
      assert LeftmostLongest(nums, s, len);
    } else {
      forall a, n | ZeroRun(nums, a, n) ensures n < 2 {
        assert nums[a] == 0;
      }
    }
  }

  // ---- whole addresses ------------------------------------------------------

  /** IPv4-mapped IPv6 is the IPv4 address it carries. */
  function Collapse(nums: Groups): (a: Addr)
    ensures Collapsed(a)
  {
    var hi: nat, lo: nat := nums[6], nums[7];
    if Mapped(nums) then V4(hi * 65536 + lo) else V6(nums)
  }

  predicate Collapsed(a: Addr)
  {
    a.V6? ==> !Mapped(a.groups)
  }

  function PackOctets(o1: nat, o2: nat, o3: nat, o4: nat): nat
  {
    ((o1 * 256 + o2) * 256 + o3) * 256 + o4
  }

  function ParseAddr(text: Bytes): (r: Parse<Addr>)
    ensures r.Ok? ==> Collapsed(r.value)
  {
    if text == [] then Err(EmptyAddress)
    else if COLON in text then
      match Ipv6Groups(text)
      case Err(e) => Err(e)
      case Ok(nums) => Ok(Collapse(nums))
    else
      match ParseIpv4(text)
      case Err(e) => Err(e)
      case Ok(o) => Ok(V4(PackOctets(o[0], o[1], o[2], o[3])))
  }

  function MaskAddr(a: Addr, v6Prefix: nat, v4Prefix: nat): (m: Addr)
    requires v6Prefix <= 128 && v4Prefix <= 32
  {
    match a
    case V4(n) =>
      DivBrackets(n, Pow(2, 32 - v4Prefix));
      V4(FloorTo(n, Pow(2, 32 - v4Prefix)))
    case V6(g) => V6(MaskV6(g, v6Prefix))
  }

  function AddrText(a: Addr): Bytes
  {
    match a
    case V4(n) => QuadText(n)
    case V6(g) => CompressText(g)
  }

  /** `canon_ip` is: parse, collapse, floor to the prefix, print. */
  lemma CanonIpMeaning(addr: Bytes, p: nat, q: nat)
    requires p <= 128 && q <= 32
    ensures CanonIp(addr, p, q) == match ParseAddr(addr)
                                   case Err(e) => Err(e)
                                   case Ok(a) => Ok(AddrText(MaskAddr(a, p, q)))
  {
    if addr != [] && COLON in addr {
      CanonIpv6Meaning(addr, p, q);
    } else if addr != [] {
      CanonIpv4Meaning(addr, q);
    }
  }

  lemma CanonIpv4Meaning(addr: Bytes, q: nat)
    requires q <= 32
    ensures CanonIpv4(addr, q) == match ParseIpv4(addr)
                                  case Err(e) => Err(e)
                                  case Ok(o) => Ok(AddrText(MaskAddr(V4(PackOctets(o[0], o[1], o[2], o[3])), 0, q)))
  {
    var r := ParseIpv4(addr);
    if r.Ok? {
      QuadMaskIsFloor(r.value[0], r.value[1], r.value[2], r.value[3], q);
    }
  }

  lemma MaskedV4Text(n: nat, p: nat, q: nat)
    requires p <= 128 && q <= 32 && n < 0x1_0000_0000
    ensures AddrText(MaskAddr(V4(n), p, q)) == QuadText(FloorTo(n, Pow(2, 32 - q)))
  {
  }

  lemma MappedGroupsMeaning(nums: Groups, p: nat, q: nat)
    requires p <= 128 && q <= 32 && Mapped(nums)
    ensures CanonIpv4Nums(nums[6] / 256, nums[6] % 256, nums[7] / 256, nums[7] % 256, q) == AddrText(MaskAddr(Collapse(nums), p, q))
  {
    MappedMeaning(nums[6], nums[7], q);
    MaskedV4Text(nums[6] as nat * 65536 + nums[7], p, q);
  }

  lemma CanonIpv6Meaning(addr: Bytes, p: nat, q: nat)
    requires p <= 128 && q <= 32
    ensures CanonIpv6(addr, p, q) == match Ipv6Groups(addr)
                                     case Err(e) => Err(e)
                                     case Ok(nums) => Ok(AddrText(MaskAddr(Collapse(nums), p, q)))
  {
    var r := Ipv6Groups(addr);
    if r.Ok? && Mapped(r.value) {
      MappedGroupsMeaning(r.value, p, q);
    }
  }

  lemma MappedMeaning(hi: Word, lo: Word, q: nat)
    requires q <= 32
    ensures CanonIpv4Nums(hi / 256, hi % 256, lo / 256, lo % 256, q)
         == QuadText(FloorTo(hi as nat * 65536 + lo, Pow(2, 32 - q)))
  {
    QuadMaskIsFloor(hi / 256, hi % 256, lo / 256, lo % 256, q);
    assert PackOctets(hi / 256, hi % 256, lo / 256, lo % 256) == hi as nat * 65536 + lo;
  }

  lemma OctetReads(o: byte)
    ensures var t := NumText(o, 10);
            DOT !in t && COLON !in t && !HasLeadingZero(t) && IsNumeral(t, 10) && NumValue(t, 10) == o
  {
    NumeralAvoids(o, 10, DOT);
    NumeralAvoids(o, 10, COLON);
    NoLeadingZero(o, 10);
    NumRoundTrip(o, 10);
  }

  lemma VettedPartsRead(parts: seq<Bytes>)
    requires FourNumerals(parts)
    requires forall i :: 0 <= i < 4 ==> DOT !in parts[i] && !HasLeadingZero(parts[i]) && NumValue(parts[i], 10) <= 255
    ensures ParseIpv4(Join(parts, DOT))
         == Ok([NumValue(parts[0], 10), NumValue(parts[1], 10), NumValue(parts[2], 10), NumValue(parts[3], 10)])
  {
    SplitJoin(parts, DOT);
    CheckedOctetsFit(parts);
  }

  lemma OctetsTextReads(o1: byte, o2: byte, o3: byte, o4: byte)
    ensures COLON !in OctetsText(o1, o2, o3, o4) && OctetsText(o1, o2, o3, o4) != []
    ensures ParseIpv4(OctetsText(o1, o2, o3, o4)) == Ok([o1, o2, o3, o4])
  {
    var parts := [NumText(o1, 10), NumText(o2, 10), NumText(o3, 10), NumText(o4, 10)];
    OctetReads(o1);
    OctetReads(o2);
    OctetReads(o3);
    OctetReads(o4);
    VettedPartsRead(parts);
    if COLON in Join(parts, DOT) {
      JoinAlphabet(parts, DOT, COLON);
    }
  }

  lemma QuadDigits(n: Quad)
    ensures PackOctets(n / 16777216 % 256, n / 65536 % 256, n / 256 % 256, n % 256) == n
  {
    var a := n / 256;
    var b := a / 256;
    assert n / 65536 == b && n / 16777216 == b / 256;
    assert n / 16777216 < 256;
  }

  lemma CompressHasColon(nums: Groups)
    ensures COLON in CompressText(nums)
  {
    BestRunIsLeftmostLongest(nums, 0, 0, 0);
    var (s, len) := BestRun(nums, 0, 0, 0);
    var text := CompressText(nums);
    if len >= 2 {
      assert text[|Join(HexParts(nums)[..s], COLON)|] == COLON;
    } else {
      assert text[|HexParts(nums)[0]|] == COLON;
    }
  }

  /** Reading back a printed address gives the address. */
  lemma AddrRoundTrip(a: Addr)
    requires Collapsed(a)
    ensures ParseAddr(AddrText(a)) == Ok(a)
  {
    match a
    case V4(n) =>
      OctetsTextReads(n / 16777216 % 256, n / 65536 % 256, n / 256 % 256, n % 256);
      QuadDigits(n);
    case V6(g) =>
      CompressHasColon(g);
      Ipv6RoundTrip(g);
  }

  lemma MaskAddrTwice(a: Addr, p: nat, q: nat, p': nat, q': nat)
    requires p <= 128 && q <= 32 && p' <= 128 && q' <= 32
    ensures MaskAddr(MaskAddr(a, p, q), p', q')
         == MaskAddr(a, if p <= p' then p else p', if q <= q' then q else q')
  {
    match a
    case V4(n) => FloorTwice(n, 32 - q, 32 - q');
    case V6(g) => MaskTwice(g, p, p');
  }

  lemma MaskKeepsCollapsed(a: Addr, p: nat, q: nat)
    requires p <= 128 && q <= 32 && Collapsed(a)
    ensures Collapsed(MaskAddr(a, p, q))
  {
    if a.V6? && Mapped(MaskV6(a.groups, p)) {
      MaskNeverMaps(a.groups, p);
    }
  }

  /** Canonicalizing a canonical address again is canonicalizing once at the shorter prefixes. */
  lemma CanonIpTwice(addr: Bytes, p: nat, q: nat, p': nat, q': nat)
    requires p <= 128 && q <= 32 && p' <= 128 && q' <= 32
    requires CanonIp(addr, p, q).Ok?
    ensures CanonIp(CanonIp(addr, p, q).value, p', q')
         == CanonIp(addr, if p <= p' then p else p', if q <= q' then q else q')
  {
    CanonIpMeaning(addr, p, q);
    CanonIpMeaning(addr, if p <= p' then p else p', if q <= q' then q else q');
    var a := ParseAddr(addr).value;
    MaskKeepsCollapsed(a, p, q);
    AddrRoundTrip(MaskAddr(a, p, q));
    CanonIpMeaning(AddrText(MaskAddr(a, p, q)), p', q');
    MaskAddrTwice(a, p, q, p', q');
  }

  lemma CanonIpIdempotent(addr: Bytes, p: nat, q: nat)
    requires p <= 128 && q <= 32 && CanonIp(addr, p, q).Ok?
    ensures CanonIp(CanonIp(addr, p, q).value, p, q) == CanonIp(addr, p, q)
  {
    CanonIpTwice(addr, p, q, p, q);
  }

  /** Two outputs are equal exactly when the collapsed, masked addresses are. */
  lemma CanonIpEqual(a: Bytes, b: Bytes, p: nat, q: nat)
    requires p <= 128 && q <= 32 && CanonIp(a, p, q).Ok? && CanonIp(b, p, q).Ok?
    ensures ParseAddr(a).Ok? && ParseAddr(b).Ok?
    ensures CanonIp(a, p, q) == CanonIp(b, p, q)
       <==> MaskAddr(ParseAddr(a).value, p, q) == MaskAddr(ParseAddr(b).value, p, q)
  {
    CanonIpMeaning(a, p, q);
    CanonIpMeaning(b, p, q);
    MaskKeepsCollapsed(ParseAddr(a).value, p, q);
    MaskKeepsCollapsed(ParseAddr(b).value, p, q);
    AddrRoundTrip(MaskAddr(ParseAddr(a).value, p, q));
    AddrRoundTrip(MaskAddr(ParseAddr(b).value, p, q));
  }

  // ---- shape of canonical text ----------------------------------------------

  lemma {:induction false} JoinLength(parts: seq<Bytes>, sep: byte, m: nat)
    requires forall i :: 0 <= i < |parts| ==> |parts[i]| <= m
    ensures |Join(parts, sep)| <= |parts| * (m + 1)
  {
    if |parts| > 1 {
      JoinLength(parts[1..], sep, m);
      assert |parts| * (m + 1) == |parts[1..]| * (m + 1) + (m + 1);
    }
  }

  /** Canonical text is short, far shorter than a 64-character hash. */
  lemma AddrTextShort(a: Addr)
    ensures 0 < |AddrText(a)| <= 40
  {
    match a
    case V4(n) => OctetsTextShort(n / 16777216 % 256, n / 65536 % 256, n / 256 % 256, n % 256);
    case V6(g) => CompressTextShort(g);
  }

  lemma OctetsTextShort(o1: byte, o2: byte, o3: byte, o4: byte)
    ensures 0 < |OctetsText(o1, o2, o3, o4)| <= 16
  {
    OctetsTextReads(o1, o2, o3, o4);
    assert Pow(10, 3) == 10 * Pow(10, 2) == 1000;
    NumLength(o1, 10, 3);
    NumLength(o2, 10, 3);
    NumLength(o3, 10, 3);
    NumLength(o4, 10, 3);
    JoinLength([NumText(o1, 10), NumText(o2, 10), NumText(o3, 10), NumText(o4, 10)], DOT, 3);
  }

  lemma HexPartsShort(g: Groups)
    ensures forall i :: 0 <= i < 8 ==> |HexParts(g)[i]| <= 4
  {
    HexPartsClean(g);
    forall i | 0 <= i < 8 ensures |HexParts(g)[i]| <= 4 {
      assert IsGroup(HexParts(g)[i]);
    }
  }

  lemma GroupsTextShort(g: Groups, s: nat, len: nat)
    requires s + len <= 8
    ensures |GroupsText(g, s, len)| <= 40
  {
    HexPartsShort(g);
    PartsTextShort(HexParts(g), s, len);
  }

  lemma PartsTextShort(parts: seq<Bytes>, s: nat, len: nat)
    requires |parts| == 8 && s + len <= 8 && forall i :: 0 <= i < 8 ==> |parts[i]| <= 4
    ensures |Join(parts, COLON)| <= 40
    ensures len >= 2 ==> |Join(parts[..s], COLON) + [COLON, COLON] + Join(parts[s + len..], COLON)| <= 40
  {
    JoinLength(parts, COLON, 4);
    JoinLength(parts[..s], COLON, 4);
    JoinLength(parts[s + len..], COLON, 4);
  }

  lemma CompressTextShort(g: Groups)
    ensures 0 < |CompressText(g)| <= 40
  {
    CompressHasColon(g);
    BestRunIsLeftmostLongest(g, 0, 0, 0);
    var (s, len) := BestRun(g, 0, 0, 0);
    GroupsTextShort(g, if len == 0 then 0 else s, len);
  }

  /** Canonical text is made of digits, dots and colons. */
  lemma AddrTextAlphabet(a: Addr, c: byte)
    requires c in AddrText(a)
    ensures c == COLON || c == DOT || IsDigit(c, 16)
  {
    match a
    case V4(n) =>
      var parts := [NumText(n / 16777216 % 256, 10), NumText(n / 65536 % 256, 10),
                    NumText(n / 256 % 256, 10), NumText(n % 256, 10)];
      JoinAlphabet(parts, DOT, c);
      if c != DOT {
        var i :| 0 <= i < 4 && c in parts[i];
        assert IsDigit(c, 10);
      }
    case V6(g) =>
      BestRunIsLeftmostLongest(g, 0, 0, 0);
      var (s, len) := BestRun(g, 0, 0, 0);
      GroupsTextAlphabet(g, if len == 0 then 0 else s, len, c);
  }

  lemma CanonIpShort(addr: Bytes, p: int, q: int)
    requires CanonIp(addr, p, q).Ok?
    ensures 0 < |CanonIp(addr, p, q).value| <= 40
  {
    CanonIpMeaning(addr, p, q);
    AddrTextShort(MaskAddr(ParseAddr(addr).value, p, q));
  }

  /** `canon_ipv6` in the list-updating form it is written in. */
  method CanonIpv6InPlace(addr: Bytes, prefix: nat, v4Prefix: nat) returns (r: Parse<Bytes>)
    requires prefix <= 128 && v4Prefix <= 32
    ensures r == CanonIpv6(addr, prefix, v4Prefix)
  {
    var parsed := Ipv6Groups(addr);
    if parsed.Err? {
      return Err(parsed.error);
    }
    var g := parsed.value;
    if g[..6] == [0, 0, 0, 0, 0, 0xffff] {
      return Ok(CanonIpv4Nums(g[6] / 256, g[6] % 256, g[7] / 256, g[7] % 256, v4Prefix));
    }
    var nums := new Word[8](i requires 0 <= i < 8 => g[i]);
    assert nums[..] == g;
    if prefix < 128 {
      MaskInPlace(nums, prefix);
    }
    var text := Compress(nums[..]);
    r := Ok(text);
  }
}
