/** The IPv4/IPv6 canonicalizer written out in core/lua/canon_port_check.py: parse, mask, print.
    Text is handled at the byte level, as the Lua it stands in for does. */
module IpAddresses {
  import opened ByteStrings
  import opened Numerals

  type Word = x: int | 0 <= x < 65536

  type Groups = g: seq<Word> | |g| == 8 witness [0, 0, 0, 0, 0, 0, 0, 0]

  type Quad = n: int | 0 <= n < 0x1_0000_0000

  datatype Addr = V4(n: Quad) | V6(groups: Groups)

  datatype IpError =
    | EmptyAddress | BadV6Prefix | BadV4Prefix
    | BadIpv4 | Ipv4LeadingZero | Ipv4OctetTooBig
    | BadV4InV6 | V4InV6LeadingZero
    | MultipleDouble | ColonRun | StrayColon | BadDouble | NeedsEightGroups | BadGroup

  type Parse<T> = Result<T, IpError>

  // ---- IPv4 -----------------------------------------------------------------

  function FloorTo(n: nat, d: nat): nat
    requires d > 0
  {
    Div(n, d) * d
  }

  function Div(n: nat, d: nat): (q: nat)
    requires d > 0
  {
    n / d
  }

  function OctetsText(o1: byte, o2: byte, o3: byte, o4: byte): Bytes
  {
    Join([NumText(o1, 10), NumText(o2, 10), NumText(o3, 10), NumText(o4, 10)], DOT)
  }

  function CanonIpv4Nums(o1: byte, o2: byte, o3: byte, o4: byte, prefix: nat): Bytes
    requires prefix <= 32
  {
    if prefix < 32 then
      var n := FloorTo(((o1 * 256 + o2) * 256 + o3) * 256 + o4, Pow(2, 32 - prefix));
      OctetsText(n / 16777216 % 256, n / 65536 % 256, n / 256 % 256, n % 256)
    else OctetsText(o1, o2, o3, o4)
  }

  /** Octets are vetted one by one, the leading zero before the range. */
  function CheckOctets(octs: seq<Bytes>): Option<IpError>
    requires forall i :: 0 <= i < |octs| ==> IsNumeral(octs[i], 10)
  {
    if octs == [] then None
    else
      assert IsNumeral(octs[0], 10);
      if HasLeadingZero(octs[0]) then Some(Ipv4LeadingZero)
      else if NumValue(octs[0], 10) > 255 then Some(Ipv4OctetTooBig)
      else CheckOctets(octs[1..])
  }

  predicate FourNumerals(parts: seq<Bytes>)
  {
    |parts| == 4 && forall i :: 0 <= i < 4 ==> IsNumeral(parts[i], 10)
  }

  function OctetValues(octs: seq<Bytes>): (r: Parse<seq<byte>>)
    requires FourNumerals(octs)
    ensures r.Ok? ==> |r.value| == 4
  {
    var err := CheckOctets(octs);
    if err.Some? then Err(err.value)
    else
      CheckedOctetsFit(octs);
      Ok([NumValue(octs[0], 10), NumValue(octs[1], 10), NumValue(octs[2], 10), NumValue(octs[3], 10)])
  }

  lemma {:induction false} CheckedOctetsFit(octs: seq<Bytes>)
    requires forall i :: 0 <= i < |octs| ==> IsNumeral(octs[i], 10)
    ensures CheckOctets(octs) == None
       <==> forall i :: 0 <= i < |octs| ==> !HasLeadingZero(octs[i]) && NumValue(octs[i], 10) <= 255
  {
    if octs != [] {
      CheckedOctetsFit(octs[1..]);
      assert forall i :: 1 <= i < |octs| ==> octs[i] == octs[1..][i - 1];
    }
  }

  function ParseIpv4(addr: Bytes): (r: Parse<seq<byte>>)
    ensures r.Ok? ==> |r.value| == 4
  {
    var octs := Split(addr, DOT);
    if !FourNumerals(octs) then Err(BadIpv4) else OctetValues(octs)
  }

  function CanonIpv4(addr: Bytes, prefix: nat): Parse<Bytes>
    requires prefix <= 32
  {
    match ParseIpv4(addr)
    case Err(e) => Err(e)
    case Ok(o) => Ok(CanonIpv4Nums(o[0], o[1], o[2], o[3], prefix))
  }

  // ---- IPv6 parsing ---------------------------------------------------------

  predicate DoubleAt(s: Bytes, k: int)
  {
    0 <= k && k + 1 < |s| && s[k] == COLON && s[k + 1] == COLON
  }

  /** Python's `s.find("::", from)`. */
  function FindDouble(s: Bytes, from: nat): (i: int)
    ensures i == -1 || (from <= i && DoubleAt(s, i))
    ensures forall k :: from <= k && (i == -1 || k < i) ==> !DoubleAt(s, k)
    decreases |s| - from
  {
    if from + 1 >= |s| then -1
    else if DoubleAt(s, from) then from
    else FindDouble(s, from + 1)
  }

  predicate HasTriple(s: Bytes)
  {
    exists k :: 0 <= k < |s| && DoubleAt(s, k) && DoubleAt(s, k + 1)
  }

  predicate StrayColons(s: Bytes)
  {
    || (s != [] && s[0] == COLON && !DoubleAt(s, 0))
    || (s != [] && s[|s| - 1] == COLON && !DoubleAt(s, |s| - 2))
  }

  function NonEmpty(parts: seq<Bytes>): seq<Bytes>
  {
    if parts == [] then []
    else (if parts[0] != [] then [parts[0]] else []) + NonEmpty(parts[1..])
  }

  /** `[g for g in s.split(":") if g] if s else []` */
  function Pieces(s: Bytes): seq<Bytes>
  {
    if s == [] then [] else NonEmpty(Split(s, COLON))
  }

  /** The two hexadecimal groups a dotted tail stands for. */
  function TailGroups(octs: seq<Bytes>): Parse<Bytes>
  {
    if !FourNumerals(octs) then Err(BadV4InV6)
    else if exists j :: 0 <= j < 4 && HasLeadingZero(octs[j]) then Err(V4InV6LeadingZero)
    else
      var a, b := NumValue(octs[0], 10), NumValue(octs[1], 10);
      var c, d := NumValue(octs[2], 10), NumValue(octs[3], 10);
      if a > 255 || b > 255 || c > 255 || d > 255 then Err(BadV4InV6)
      else Ok(NumText(a * 256 + b, 16) + [COLON] + NumText(c * 256 + d, 16))
  }

  /** A dotted quad at the tail is rewritten as two hexadecimal groups. */
  function FlattenQuad(addr: Bytes): Parse<Bytes>
  {
    if DOT !in addr then Ok(addr)
    else
      var i := LastIndexOf(addr, COLON);
      if i == -1 || NEWLINE in addr[..i] then Err(BadV4InV6)
      else
        match TailGroups(Split(addr[i + 1..], DOT))
        case Err(e) => Err(e)
        case Ok(groups) => Ok(addr[..i + 1] + groups)
  }

  predicate IsGroup(g: Bytes)
  {
    1 <= |g| <= 4 && IsNumeral(g, 16)
  }

  lemma {:induction false} GroupFits(g: Bytes)
    requires forall i :: 0 <= i < |g| ==> IsDigit(g[i], 16)
    ensures NumValue(g, 16) < Pow(16, |g|)
  {
    if g != [] {
      GroupFits(g[..|g| - 1]);
      assert IsDigit(g[|g| - 1], 16);
    }
  }

  function GroupValue(g: Bytes): Word
    requires IsGroup(g)
  {
    GroupFits(g);
    assert Pow(16, 4) == 16 * Pow(16, 3) == 65536;
    assert Pow(16, |g|) <= 65536;
    NumValue(g, 16)
  }

  function NumsOf(raw: seq<Bytes>): Parse<Groups>
  {
    if |raw| != 8 then Err(NeedsEightGroups)
    else if exists i :: 0 <= i < 8 && !IsGroup(raw[i]) then Err(BadGroup)
    else Ok(seq(8, i requires 0 <= i < 8 => GroupValue(raw[i])))
  }

  function Zeros(n: nat): (z: seq<Bytes>)
    ensures |z| == n
  {
    seq(n, i => NumText(0, 16))
  }

  /** The checks on colons, in the order they are made. */
  function ColonFault(addr: Bytes): Option<IpError>
  {
    var dbl := FindDouble(addr, 0);
    if dbl != -1 && FindDouble(addr, dbl + 2) != -1 then Some(MultipleDouble)
    else if HasTriple(addr) then Some(ColonRun)
    else if StrayColons(addr) then Some(StrayColon)
    else None
  }

  function Expand(left: seq<Bytes>, right: seq<Bytes>): Parse<seq<Bytes>>
  {
    if |left| + |right| > 7 then Err(BadDouble)
    else Ok(left + Zeros(8 - |left| - |right|) + right)
  }

  function RawGroups(addr: Bytes): Parse<seq<Bytes>>
  {
    var fault := ColonFault(addr);
    if fault.Some? then Err(fault.value)
    else
      var dbl := FindDouble(addr, 0);
      if dbl != -1 then Expand(Pieces(addr[..dbl]), Pieces(addr[dbl + 2..]))
      else Ok(Pieces(addr))
  }

  function Ipv6Groups(text: Bytes): Parse<Groups>
  {
    match FlattenQuad(Lower(text))
    case Err(e) => Err(e)
    case Ok(addr) =>
      match RawGroups(addr)
      case Err(e) => Err(e)
      case Ok(raw) => NumsOf(raw)
  }

  /** The loop that turns the eight pieces into numbers, stopping at the first bad one. */
  method ParseGroups(raw: seq<Bytes>) returns (r: Parse<Groups>)
    ensures r == NumsOf(raw)
  {
    if |raw| != 8 {
      return Err(NeedsEightGroups);
    }
    var nums: seq<Word> := [];
    for i := 0 to 8
      invariant |nums| == i
      invariant forall k :: 0 <= k < i ==> IsGroup(raw[k]) && nums[k] == GroupValue(raw[k])
    {
      if !IsGroup(raw[i]) {
        return Err(BadGroup);
      }
      nums := nums + [GroupValue(raw[i])];
    }
    assert nums == seq(8, i requires 0 <= i < 8 => GroupValue(raw[i]));
    r := Ok(nums);
  }

  // ---- IPv6 printing --------------------------------------------------------

  function HexParts(nums: seq<Word>): (parts: seq<Bytes>)
    ensures |parts| == |nums|
    ensures forall i :: 0 <= i < |nums| ==> parts[i] == NumText(nums[i], 16)
  {
    seq(|nums|, i requires 0 <= i < |nums| => NumText(nums[i], 16))
  }

  predicate ZeroRun(nums: Groups, start: int, len: int)
  {
    0 <= start && 1 <= len && start + len <= 8 && forall j :: start <= j < start + len ==> nums[j] == 0
  }

  /** The run RFC 5952 section 4.2 asks for: the longest, and the first of several as long. */
  ghost predicate LeftmostLongest(nums: Groups, start: int, len: int)
  {
    && ZeroRun(nums, start, len)
    && forall i, k :: ZeroRun(nums, i, k) ==> k < len || (k == len && start <= i)
  }

  function RunEnd(nums: Groups, i: nat): (j: nat)
    requires i <= 8
    ensures i <= j <= 8 && (j == 8 || nums[j] != 0)
    ensures forall k :: i <= k < j ==> nums[k] == 0
    decreases 8 - i
  {
    if i < 8 && nums[i] == 0 then RunEnd(nums, i + 1) else i
  }

  /** The scan of `compress`, from position i with the best run found so far. */
  function BestRun(nums: Groups, i: nat, start: nat, len: nat): (nat, nat)
    requires i <= 8
    decreases 8 - i
  {
    if i == 8 then (start, len)
    else if nums[i] == 0 then
      var j := RunEnd(nums, i);
      if j - i > len then BestRun(nums, j, i, j - i) else BestRun(nums, j, start, len)
    else BestRun(nums, i + 1, start, len)
  }

  function GroupsText(nums: Groups, start: nat, len: nat): Bytes
    requires start + len <= 8
  {
    var parts := HexParts(nums);
    if len >= 2 then Join(parts[..start], COLON) + [COLON, COLON] + Join(parts[start + len..], COLON)
    else Join(parts, COLON)
  }

  /** What is best among the runs that end at or before i. */
  ghost predicate BestBefore(nums: Groups, i: nat, start: nat, len: nat)
  {
    && i <= 8
    && (0 < i < 8 ==> nums[i - 1] != 0 || nums[i] != 0)
    && (len > 0 ==> ZeroRun(nums, start, len) && start + len <= i)
    && forall a, k :: ZeroRun(nums, a, k) && a + k <= i ==> k < len || (k == len && start <= a)
  }

  lemma {:induction false} BestRunIsLeftmostLongest(nums: Groups, i: nat, start: nat, len: nat)
    requires BestBefore(nums, i, start, len)
    ensures var (s, l) := BestRun(nums, i, start, len);
            if l == 0 then forall j :: 0 <= j < 8 ==> nums[j] != 0 else LeftmostLongest(nums, s, l)
    decreases 8 - i
  {
    if i == 8 {
      if len == 0 {
        forall j | 0 <= j < 8 ensures nums[j] != 0 {
          assert !ZeroRun(nums, j, 1);
        }
      }
    } else if nums[i] == 0 {
      var j := RunEnd(nums, i);
      assert forall a, k :: ZeroRun(nums, a, k) && a + k <= j && a + k > i ==> a >= i;
      if j - i > len {
        BestRunIsLeftmostLongest(nums, j, i, j - i);
      } else {
        BestRunIsLeftmostLongest(nums, j, start, len);
      }
    } else {
      assert forall a, k :: ZeroRun(nums, a, k) && a + k <= i + 1 ==> a + k <= i;
      BestRunIsLeftmostLongest(nums, i + 1, start, len);
    }
  }

  function CompressText(nums: Groups): Bytes
  {
    var (start, len) := BestRun(nums, 0, 0, 0);
    BestRunIsLeftmostLongest(nums, 0, 0, 0);
    GroupsText(nums, if len == 0 then 0 else start, len)
  }

  method Compress(nums: Groups) returns (text: Bytes)
    ensures text == CompressText(nums)
  {
    BestRunIsLeftmostLongest(nums, 0, 0, 0);
    var bestStart, bestLen, i := 0, 0, 0;
    while i < 8
      invariant 0 <= i <= 8 && 0 <= bestStart && 0 <= bestLen
      invariant BestRun(nums, i, bestStart, bestLen) == BestRun(nums, 0, 0, 0)
    {
      if nums[i] == 0 {
        var j := i;
        while j < 8 && nums[j] == 0
          invariant i <= j <= 8
          invariant RunEnd(nums, j) == RunEnd(nums, i)
        {
          j := j + 1;
        }
        if j - i > bestLen {
          bestStart, bestLen := i, j - i;
        }
        i := j;
      } else {
        i := i + 1;
      }
    }
    var parts := HexParts(nums);
    if bestLen >= 2 {
      text := Join(parts[..bestStart], COLON) + [COLON, COLON] + Join(parts[bestStart + bestLen..], COLON);
    } else {
      text := Join(parts, COLON);
    }
  }

  // ---- masking --------------------------------------------------------------

  function MaskWord(g: Word, i: nat, prefix: nat): Word
  {
    if prefix >= (i + 1) * 16 then g
    else if prefix <= i * 16 then 0
    else
      DivMod(g, Pow2Positive(16 - (prefix - i * 16)));
      FloorTo(g, Pow2Positive(16 - (prefix - i * 16)))
  }

  function Pow2Positive(e: nat): (p: nat)
    requires e > 0
    ensures p >= 2 && p == Pow(2, e)
  {
    assert Pow(2, e) == 2 * Pow(2, e - 1);
    Pow(2, e)
  }

  function MaskWords(ws: seq<Word>, prefix: nat): (r: seq<Word>)
    ensures |r| == |ws|
  {
    seq(|ws|, i requires 0 <= i < |ws| => MaskWord(ws[i], i, prefix))
  }

  /** The masking loop of `canon_ipv6`, in place on its list of groups. */
  method MaskInPlace(nums: array<Word>, prefix: nat)
    requires nums.Length == 8 && prefix < 128
    modifies nums
    ensures nums[..] == MaskWords(old(nums[..]), prefix)
  {
    for i := 0 to 8
      invariant forall k :: 0 <= k < i ==> nums[k] == MaskWord(old(nums[k]), k, prefix)
      invariant forall k :: i <= k < 8 ==> nums[k] == old(nums[k])
    {
      var lo := i * 16;
      if prefix >= (i + 1) * 16 {
        continue;
      }
      if prefix <= lo {
        nums[i] := 0;
      } else {
        nums[i] := MaskWord(nums[i], i, prefix);
      }
    }
  }

  predicate Mapped(nums: Groups)
  {
    nums[..6] == [0, 0, 0, 0, 0, 0xffff]
  }

  function MaskV6(nums: Groups, prefix: nat): (r: Groups)
    requires prefix <= 128
  {
    if prefix < 128 then MaskWords(nums, prefix) else nums
  }

  function CanonIpv6(addr: Bytes, prefix: nat, v4Prefix: nat): Parse<Bytes>
    requires prefix <= 128 && v4Prefix <= 32
  {
    match Ipv6Groups(addr)
    case Err(e) => Err(e)
    case Ok(nums) =>
      if Mapped(nums) then
        Ok(CanonIpv4Nums(nums[6] / 256, nums[6] % 256, nums[7] / 256, nums[7] % 256, v4Prefix))
      else Ok(CompressText(MaskV6(nums, prefix)))
  }

  function CanonIp(addr: Bytes, v6Prefix: int, v4Prefix: int): Parse<Bytes>
  {
    if addr == [] then Err(EmptyAddress)
    else if v6Prefix < 0 || v6Prefix > 128 then Err(BadV6Prefix)
    else if v4Prefix < 0 || v4Prefix > 32 then Err(BadV4Prefix)
    else if COLON in addr then CanonIpv6(addr, v6Prefix, v4Prefix)
    else CanonIpv4(addr, v4Prefix)
  }
}
