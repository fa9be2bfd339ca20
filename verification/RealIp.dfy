/** Who the client is and what it asked for, across the forward-auth boundary: authorizer/realip.go. */
module RealIp {
  import opened ByteStrings
  import opened Numerals
  import opened IpAddresses
  import opened IpMasking
  import opened IpRoundTrip

  // ---- trusted peers --------------------------------------------------------

  /** A CIDR of trusted proxies. An IPv6 prefix is not collapsed, so a mapped one matches nothing. */
  datatype Prefix = Prefix(addr: Addr, bits: nat)
  {
    predicate Valid()
    {
      bits <= if addr.V4? then 32 else 128
    }

    /** netip's Prefix.Contains. */
    predicate Contains(a: Addr)
      requires Valid()
    {
      && a.V4? == addr.V4?
      && MaskAddr(a, if a.V4? then 0 else bits, if a.V4? then bits else 0)
      == MaskAddr(addr, if a.V4? then 0 else bits, if a.V4? then bits else 0)
    }
  }

  /** An address as a number, and how many bits it takes. */
  function NumberOf(a: Addr): nat
  {
    match a
    case V4(n) => n
    case V6(g) => Value(g)
  }

  function WidthOf(a: Addr): nat
  {
    if a.V4? then 32 else 128
  }

  lemma SameFloor(x: nat, y: nat, size: nat)
    requires size > 0
    ensures FloorTo(x, size) == FloorTo(y, size) <==> x / size * size <= y < x / size * size + size
  {
    DivBrackets(x, size);
    DivBrackets(y, size);
    if x / size * size <= y < x / size * size + size {
      DivIs(y, size, x / size);
    }
  }

  lemma MasksAgree(a: Addr, b: Addr, bits: nat)
    requires a.V4? == b.V4? && bits <= WidthOf(a)
    ensures MaskAddr(a, if a.V4? then 0 else bits, if a.V4? then bits else 0)
         == MaskAddr(b, if a.V4? then 0 else bits, if a.V4? then bits else 0)
       <==> FloorTo(NumberOf(a), Pow(2, WidthOf(a) - bits)) == FloorTo(NumberOf(b), Pow(2, WidthOf(a) - bits))
  {
    match a
    case V4(n) =>
    case V6(g) =>
      MaskV6IsFloor(g, bits);
      MaskV6IsFloor(b.groups, bits);
      if Value(MaskV6(g, bits)) == Value(MaskV6(b.groups, bits)) {
        ValueInjective(MaskV6(g, bits), MaskV6(b.groups, bits));
      }
  }

  lemma {:induction false} ValueFits(ws: seq<Word>)
    ensures Value(ws) < Pow(2, 16 * |ws|)
  {
    if ws != [] {
      var n := |ws| - 1;
      ValueFits(ws[..n]);
      PowSum(2, 16 * n, 16);
      Pow16();
      MulMonotone(Value(ws[..n]) + 1, Pow(2, 16 * n), 65536);
    }
  }

  lemma NumberFits(a: Addr)
    ensures NumberOf(a) < Pow(2, WidthOf(a))
  {
    match a
    case V4(n) =>
      Pow16();
      PowSum(2, 16, 16);
    case V6(g) => ValueFits(g);
  }

  /** A prefix covers exactly the addresses of its own family from its base on, 2^(width - bits) of them. */
  lemma ContainsExactly(p: Prefix, a: Addr)
    requires p.Valid()
    ensures var size := Pow(2, WidthOf(p.addr) - p.bits);
            var base := NumberOf(p.addr) / size * size;
            p.Contains(a) <==> a.V4? == p.addr.V4? && base <= NumberOf(a) < base + size
  {
    if a.V4? == p.addr.V4? {
      MasksAgree(p.addr, a, p.bits);
      SameFloor(NumberOf(p.addr), NumberOf(a), Pow(2, WidthOf(p.addr) - p.bits));
    }
  }

  /** With no bits it covers its whole family, with all of them one address. */
  lemma ContainsAtTheEnds(p: Prefix, a: Addr)
    requires p.Valid()
    ensures p.bits == 0 ==> (p.Contains(a) <==> a.V4? == p.addr.V4?)
    ensures p.bits == WidthOf(p.addr) ==> (p.Contains(a) <==> a == p.addr)
  {
    if p.bits == 0 {
      NoBitsCoverAll(p, a);
    }
    if p.bits == WidthOf(p.addr) {
      AllBitsCoverOne(p, a);
    }
  }

  lemma NoBitsCoverAll(p: Prefix, a: Addr)
    requires p.Valid() && p.bits == 0
    ensures p.Contains(a) <==> a.V4? == p.addr.V4?
  {
    ContainsExactly(p, a);
    NumberFits(p.addr);
    NumberFits(a);
    DivIs(NumberOf(p.addr), Pow(2, WidthOf(p.addr)), 0);
  }

  lemma AllBitsCoverOne(p: Prefix, a: Addr)
    requires p.Valid() && p.bits == WidthOf(p.addr)
    ensures p.Contains(a) <==> a == p.addr
  {
    ContainsExactly(p, a);
    DivIs(NumberOf(p.addr), 1, NumberOf(p.addr));
    if a.V6? && p.addr.V6? && NumberOf(a) == NumberOf(p.addr) {
      ValueInjective(a.groups, p.addr.groups);
    }
  }

  predicate ValidTrust(trusted: seq<Prefix>)
  {
    forall i :: 0 <= i < |trusted| ==> trusted[i].Valid()
  }

  predicate IsTrusted(trusted: seq<Prefix>, a: Addr)
    requires ValidTrust(trusted)
  {
    exists i :: 0 <= i < |trusted| && trusted[i].Contains(a)
  }

  method IsTrustedLoop(trusted: seq<Prefix>, a: Addr) returns (yes: bool)
    requires ValidTrust(trusted)
    ensures yes == IsTrusted(trusted, a)
  {
    for i := 0 to |trusted|
      invariant forall k :: 0 <= k < i ==> !trusted[k].Contains(a)
    {
      if trusted[i].Contains(a) {
        return true;
      }
    }
    yes := false;
  }

  // ---- the forwarded chain --------------------------------------------------

  /** What parsing an address gives: nothing, an address with a zone, or a collapsed address. */
  datatype Parsed = Unparseable | Zoned | Plain(addr: Addr)

  /** The library's part: how one comma-separated part becomes an entry, and how an entry parses. */
  datatype Net = Net(entry: Bytes -> Bytes, parse: Bytes -> Parsed)
  {
    ghost predicate Valid()
    {
      forall s :: parse(s).Plain? ==> Collapsed(parse(s).addr)
    }
  }

  function Entries(net: Net, parts: seq<Bytes>): seq<Bytes>
  {
    if parts == [] then []
    else (if net.entry(parts[0]) != [] then [net.entry(parts[0])] else []) + Entries(net, parts[1..])
  }

  /** The entries of every line of the configured header, in order. */
  function ForwardedList(net: Net, lines: seq<Bytes>): seq<Bytes>
  {
    if lines == [] then [] else Entries(net, Split(lines[0], COMMA)) + ForwardedList(net, lines[1..])
  }

  lemma {:induction false} EntriesConcat(net: Net, a: seq<Bytes>, b: seq<Bytes>)
    ensures Entries(net, a + b) == Entries(net, a) + Entries(net, b)
  {
    if a == [] {
      assert a + b == b;
    } else {
      assert (a + b)[1..] == a[1..] + b;
      EntriesConcat(net, a[1..], b);
    }
  }

  lemma {:induction false} ForwardedConcat(net: Net, a: seq<Bytes>, b: seq<Bytes>)
    ensures ForwardedList(net, a + b) == ForwardedList(net, a) + ForwardedList(net, b)
  {
    if a == [] {
      assert a + b == b;
    } else {
      assert (a + b)[1..] == a[1..] + b;
      ForwardedConcat(net, a[1..], b);
    }
  }

  lemma ForwardedSnoc(net: Net, lines: seq<Bytes>, i: nat)
    requires i < |lines|
    ensures ForwardedList(net, lines[..i + 1]) == ForwardedList(net, lines[..i]) + Entries(net, Split(lines[i], COMMA))
  {
    assert lines[..i + 1] == lines[..i] + [lines[i]];
    ForwardedConcat(net, lines[..i], [lines[i]]);
    assert ForwardedList(net, [lines[i]][1..]) == [];
  }

  method ForwardedListLoop(net: Net, lines: seq<Bytes>) returns (out: seq<Bytes>)
    ensures out == ForwardedList(net, lines)
  {
    out := [];
    for i := 0 to |lines|
      invariant out == ForwardedList(net, lines[..i])
    {
      out := EntriesLoop(net, Split(lines[i], COMMA), out);
      ForwardedSnoc(net, lines, i);
    }
    assert lines[..|lines|] == lines;
  }

  method EntriesLoop(net: Net, parts: seq<Bytes>, before: seq<Bytes>) returns (out: seq<Bytes>)
    ensures out == before + Entries(net, parts)
  {
    out := before;
    for j := 0 to |parts|
      invariant out == before + Entries(net, parts[..j])
    {
      var p := net.entry(parts[j]);
      assert parts[..j + 1] == parts[..j] + [parts[j]];
      EntriesConcat(net, parts[..j], [parts[j]]);
      assert Entries(net, [parts[j]][1..]) == [];
      if p != [] {
        out := out + [p];
      }
    }
    assert parts[..|parts|] == parts;
  }

  // ---- the client address ---------------------------------------------------

  /** The canonical client address, or a denial. */
  type Client = Option<Bytes>

  function CanonText(p: Parsed, v6Prefix: int): Client
  {
    match p
    case Plain(a) =>
      (match CanonIp(AddrText(a), v6Prefix, 32)
       case Ok(t) => Some(t)
       case Err(_) => None)
    case _ => None
  }

  /** An entry the walk steps over: unreadable, or one of our own hops. */
  predicate Skipped(net: Net, trusted: seq<Prefix>, e: Bytes)
    requires ValidTrust(trusted)
  {
    match net.parse(e)
    case Unparseable => true
    case Zoned => false
    case Plain(a) => IsTrusted(trusted, a)
  }

  /** The walk from the right: what the first entry not stepped over parses to. */
  function Walk(net: Net, trusted: seq<Prefix>, entries: seq<Bytes>): Parsed
    requires ValidTrust(trusted)
  {
    if entries == [] then Unparseable
    else
      var e := entries[|entries| - 1];
      if Skipped(net, trusted, e) then Walk(net, trusted, entries[..|entries| - 1]) else net.parse(e)
  }

  predicate PeerTrusted(trusted: seq<Prefix>, peer: Parsed)
    requires ValidTrust(trusted)
  {
    peer.Plain? && IsTrusted(trusted, peer.addr)
  }

  /** Whose address the request is keyed on. */
  function Source(net: Net, trusted: seq<Prefix>, peer: Parsed, lines: seq<Bytes>): Parsed
    requires ValidTrust(trusted)
  {
    if PeerTrusted(trusted, peer) then Walk(net, trusted, ForwardedList(net, lines)) else peer
  }

  function ClientIp(net: Net, trusted: seq<Prefix>, v6Prefix: int, peer: Parsed, lines: seq<Bytes>): Client
    requires ValidTrust(trusted)
  {
    CanonText(Source(net, trusted, peer, lines), v6Prefix)
  }

  method WalkLoop(net: Net, trusted: seq<Prefix>, candidates: seq<Bytes>) returns (r: Parsed)
    requires ValidTrust(trusted)
    ensures r == Walk(net, trusted, candidates)
  {
    var i := |candidates|;
    assert candidates[..i] == candidates;
    while i > 0
      invariant 0 <= i <= |candidates|
      invariant Walk(net, trusted, candidates[..i]) == Walk(net, trusted, candidates)
    {
      i := i - 1;
      var a := net.parse(candidates[i]);
      assert candidates[..i + 1][..i] == candidates[..i];
      if a.Unparseable? {
        continue;
      }
      if a.Plain? {
        var ours := IsTrustedLoop(trusted, a.addr);
        if ours {
          continue;
        }
      }
      return a;
    }
    r := Unparseable;
  }

  method ClientIpLoop(net: Net, trusted: seq<Prefix>, v6Prefix: int, peer: Parsed, lines: seq<Bytes>) returns (r: Client)
    requires ValidTrust(trusted)
    ensures r == ClientIp(net, trusted, v6Prefix, peer, lines)
  {
    if peer.Unparseable? {
      return None;
    }
    var peerIsTrusted := false;
    if peer.Plain? {
      peerIsTrusted := IsTrustedLoop(trusted, peer.addr);
    }
    if !peerIsTrusted {
      return CanonText(peer, v6Prefix);
    }
    var candidates := ForwardedListLoop(net, lines);
    var source := WalkLoop(net, trusted, candidates);
    r := CanonText(source, v6Prefix);
  }

  /** What a canonical client address is: the address masked to the configured prefix. */
  lemma CanonTextIsMasked(a: Addr, v6Prefix: int)
    requires Collapsed(a) && 0 <= v6Prefix <= 128
    ensures CanonText(Plain(a), v6Prefix) == Some(AddrText(MaskAddr(a, v6Prefix, 32)))
  {
    AddrRoundTrip(a);
    CanonIpMeaning(AddrText(a), v6Prefix, 32);
  }

  lemma {:induction false} WalkFindsCollapsed(net: Net, trusted: seq<Prefix>, entries: seq<Bytes>)
    requires ValidTrust(trusted) && net.Valid()
    ensures Walk(net, trusted, entries).Plain? ==> Collapsed(Walk(net, trusted, entries).addr)
  {
    if entries != [] {
      WalkFindsCollapsed(net, trusted, entries[..|entries| - 1]);
    }
  }

  /** The client address is the source's, masked and printed, and is its own canonical form: canonicalizing it
      again, as the nonce does, succeeds and changes nothing. A source with no address, or a zone, is denied. */
  lemma ClientIsCanonical(net: Net, trusted: seq<Prefix>, v6Prefix: int, peer: Parsed, lines: seq<Bytes>)
    requires ValidTrust(trusted) && net.Valid() && 0 <= v6Prefix <= 128 && (peer.Plain? ==> Collapsed(peer.addr))
    ensures var (source, r) := (Source(net, trusted, peer, lines), ClientIp(net, trusted, v6Prefix, peer, lines));
            && (r.Some? <==> source.Plain?)
            && (source.Plain? ==> r == Some(AddrText(MaskAddr(source.addr, v6Prefix, 32)))
                                  && CanonIp(r.value, v6Prefix, 32) == Ok(r.value))
  {
    WalkFindsCollapsed(net, trusted, ForwardedList(net, lines));
    var source := Source(net, trusted, peer, lines);
    if source.Plain? {
      CanonTextIsMasked(source.addr, v6Prefix);
      AddrRoundTrip(source.addr);
      CanonIpMeaning(AddrText(source.addr), v6Prefix, 32);
      CanonIpIdempotent(AddrText(source.addr), v6Prefix, 32);
    }
  }

  predicate HasClient(net: Net, trusted: seq<Prefix>, entries: seq<Bytes>)
    requires ValidTrust(trusted)
  {
    exists i :: 0 <= i < |entries| && !Skipped(net, trusted, entries[i])
  }

  /** What one more entry on the right does: an unreadable one, or one of our own hops, is stepped over; any
      other decides, be it an address or a zone that will be denied. */
  lemma OneMoreEntry(net: Net, trusted: seq<Prefix>, entries: seq<Bytes>, e: Bytes)
    requires ValidTrust(trusted)
    ensures var p := net.parse(e);
            Walk(net, trusted, entries + [e])
            == if p.Unparseable? || (p.Plain? && exists i :: 0 <= i < |trusted| && trusted[i].Contains(p.addr))
               then Walk(net, trusted, entries) else p
  {
    assert (entries + [e])[..|entries|] == entries;
  }

  /** The walk ends at the rightmost entry it cannot step over, and a chain with none names nobody. */
  lemma {:induction false} RightmostDecides(net: Net, trusted: seq<Prefix>, entries: seq<Bytes>, i: nat)
    requires ValidTrust(trusted) && i <= |entries|
    requires forall j :: i <= j < |entries| ==> Skipped(net, trusted, entries[j])
    ensures i == 0 ==> Walk(net, trusted, entries) == Unparseable
    ensures i > 0 && !Skipped(net, trusted, entries[i - 1]) ==> Walk(net, trusted, entries) == net.parse(entries[i - 1])
  {
    if i < |entries| {
      RightmostDecides(net, trusted, entries[..|entries| - 1], i);
    }
  }

  /** A chain that names a client cannot be outvoted by anything put in front of it. */
  lemma {:induction false} PrependingIsPowerless(net: Net, trusted: seq<Prefix>, front: seq<Bytes>, chain: seq<Bytes>)
    requires ValidTrust(trusted) && HasClient(net, trusted, chain)
    ensures Walk(net, trusted, front + chain) == Walk(net, trusted, chain)
  {
    var n := |chain| - 1;
    assert (front + chain)[..|front| + n] == front + chain[..n];
    if Skipped(net, trusted, chain[n]) {
      var i :| 0 <= i < |chain| && !Skipped(net, trusted, chain[i]);
      assert !Skipped(net, trusted, chain[..n][i]);
      PrependingIsPowerless(net, trusted, front, chain[..n]);
    }
  }

  lemma SplitAcrossComma(text: Bytes, line: Bytes)
    ensures Split(text + [COMMA] + line, COMMA) == Split(text, COMMA) + Split(line, COMMA)
  {
    JoinSplit(text, COMMA);
    JoinSplit(line, COMMA);
    JoinConcat(Split(text, COMMA), Split(line, COMMA), COMMA);
    SplitJoin(Split(text, COMMA) + Split(line, COMMA), COMMA);
  }

  /** Lines in front, and text at the front of a line, only add entries at the front. */
  lemma ForgedLines(net: Net, extra: seq<Bytes>, text: Bytes, line: Bytes, lines: seq<Bytes>)
    ensures ForwardedList(net, extra + ([text + [COMMA] + line] + lines))
         == (ForwardedList(net, extra) + Entries(net, Split(text, COMMA))) + ForwardedList(net, [line] + lines)
  {
    var forged := text + [COMMA] + line;
    SplitAcrossComma(text, line);
    EntriesConcat(net, Split(text, COMMA), Split(line, COMMA));
    ForwardedConcat(net, extra, [forged] + lines);
    FirstLine(net, forged, lines);
    FirstLine(net, line, lines);
  }

  lemma FirstLine(net: Net, line: Bytes, lines: seq<Bytes>)
    ensures ForwardedList(net, [line] + lines) == Entries(net, Split(line, COMMA)) + ForwardedList(net, lines)
  {
    assert ([line] + lines)[1..] == lines;
  }

  /** From a trusted peer, extra header lines in front and extra text at the front of a line change
      nothing once the rest of the chain names a client; from any other peer no header does. */
  lemma ForgedHeadersArePowerless(net: Net, trusted: seq<Prefix>, v6Prefix: int, peer: Parsed,
                                  extra: seq<Bytes>, text: Bytes, line: Bytes, lines: seq<Bytes>)
    requires ValidTrust(trusted)
    requires PeerTrusted(trusted, peer) ==> HasClient(net, trusted, ForwardedList(net, [line] + lines))
    ensures ClientIp(net, trusted, v6Prefix, peer, extra + ([text + [COMMA] + line] + lines))
         == ClientIp(net, trusted, v6Prefix, peer, [line] + lines)
  {
    if PeerTrusted(trusted, peer) {
      ForgedLines(net, extra, text, line, lines);
      PrependingIsPowerless(net, trusted, ForwardedList(net, extra) + Entries(net, Split(text, COMMA)),
                            ForwardedList(net, [line] + lines));
    }
  }

  /** A trusted proxy that forwards no usable address, or only its own hops, is denied. */
  lemma NoClientIsDenied(net: Net, trusted: seq<Prefix>, v6Prefix: int, peer: Parsed, lines: seq<Bytes>)
    requires ValidTrust(trusted) && PeerTrusted(trusted, peer)
    requires !HasClient(net, trusted, ForwardedList(net, lines))
    ensures ClientIp(net, trusted, v6Prefix, peer, lines) == None
  {
    RightmostDecides(net, trusted, ForwardedList(net, lines), 0);
  }

  /** p is an address inside one of the configured prefixes. */
  predicate OwnHop(trusted: seq<Prefix>, p: Parsed)
    requires ValidTrust(trusted)
  {
    p.Plain? && exists i :: 0 <= i < |trusted| && trusted[i].Contains(p.addr)
  }

  /** Who is believed: a peer outside the configured prefixes is the client itself, whatever it forwards; one
      inside names the rightmost entry that reads as an address or a zone and is not inside them either. The
      client is keyed on that address, floored and printed, a zone or an unreadable peer on none. */
  lemma WhoIsBelieved(net: Net, trusted: seq<Prefix>, v6Prefix: int, peer: Parsed, lines: seq<Bytes>, i: nat)
    requires ValidTrust(trusted) && net.Valid() && 0 <= v6Prefix <= 128 && (peer.Plain? ==> Collapsed(peer.addr))
    requires var list := ForwardedList(net, lines);
             && i < |list| && !net.parse(list[i]).Unparseable? && !OwnHop(trusted, net.parse(list[i]))
             && forall j :: i < j < |list| ==> net.parse(list[j]).Unparseable? || OwnHop(trusted, net.parse(list[j]))
    ensures ClientIp(net, trusted, v6Prefix, peer, lines)
         == var p := if OwnHop(trusted, peer) then net.parse(ForwardedList(net, lines)[i]) else peer;
            if p.Plain? then Some(AddrText(MaskAddr(p.addr, v6Prefix, 32))) else None
  {
    var list := ForwardedList(net, lines);
    forall j | 0 <= j < |list| ensures Skipped(net, trusted, list[j]) <==> net.parse(list[j]).Unparseable? || OwnHop(trusted, net.parse(list[j])) {
    }
    RightmostDecides(net, trusted, list, i + 1);
    ClientIsCanonical(net, trusted, v6Prefix, peer, lines);
  }
}
