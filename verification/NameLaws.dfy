/** What a server name keeps and what it loses, written out: the laws that settle every canonical name. */
module NameLaws {
  import opened ByteStrings
  import opened ServerNames

  // ---- case -----------------------------------------------------------------

  /** A to Z. */
  predicate IsCapital(b: byte)
  {
    65 <= b <= 90
  }

  /** ASCII capitals, and only they, become the letter 32 places on. */
  lemma LowerByteExactly(b: byte)
    ensures LowerByte(b) == if IsCapital(b) then b + 32 else b
  {
  }

  lemma {:induction false} IndexLower(s: Bytes, c: byte)
    requires !('A' as int <= c <= 'Z' as int) && !('a' as int <= c <= 'z' as int)
    ensures IndexOf(Lower(s), c) == IndexOf(s, c) && (c in Lower(s) <==> c in s)
  {
    forall i | 0 <= i < |s| ensures Lower(s)[i] == c <==> s[i] == c {
    }
    var i := IndexOf(s, c);
    if i == -1 {
      assert c !in Lower(s);
    } else {
      assert Lower(s)[i] == c;
      assert c !in Lower(s)[..i];
      IndexOfIs(Lower(s), c, i);
    }
  }

  lemma UnbracketLower(h: Bytes)
    ensures Unbracket(Lower(h)) == Lower(Unbracket(h))
  {
    IndexLower(h, CLOSE_BRACKET);
    if h != [] && h[0] == OPEN_BRACKET && CLOSE_BRACKET in h {
      var k := IndexOf(h, CLOSE_BRACKET);
      assert Lower(h)[1..k] == Lower(h[1..k]);
      TrimmedLower(h[1..k]);
    }
  }

  lemma AllDigitsLower(s: Bytes)
    ensures AllDigits(Lower(s)) <==> AllDigits(s)
  {
    DigitsLower(s);
  }

  lemma LowerPrefix(s: Bytes, i: nat)
    requires i <= |s|
    ensures Lower(s)[..i] == Lower(s[..i])
  {
  }

  lemma CutLowers(h: Bytes, i: nat)
    requires i < |h|
    ensures Lower(h)[..i] == Lower(h[..i]) && (AllDigits(Lower(h)[i + 1..]) <==> AllDigits(h[i + 1..]))
  {
    LowerPrefix(h, i);
    LowerTail(h, i + 1);
    AllDigitsLower(h[i + 1..]);
  }

  lemma StripPortLowers(h: Bytes)
    ensures StripPort(Lower(h)) == Lower(StripPort(h))
  {
    var i := LastIndexOf(h, COLON);
    CountLower(h);
    LastIndexLower(h);
    if i != -1 {
      CutLowers(h, i);
    }
  }

  /** Names that differ only in the case of their letters are one name. */
  lemma CaseIsIgnored(h: Bytes)
    ensures CanonServerName(Lower(h)) == CanonServerName(h)
  {
    var t := Trimmed(h);
    var u := Unbracket(t);
    TrimmedLower(h);
    UnbracketLower(t);
    StripPortLowers(u);
    TrimmedLower(StripPort(u));
    LowerTwice(Trimmed(StripPort(u)));
  }

  /** A canonical name has no capitals. */
  lemma NoCapitals(h: Bytes, i: nat)
    requires i < |CanonServerName(h)|
    ensures !IsCapital(CanonServerName(h)[i])
  {
    LowerByteExactly(Trimmed(StripPort(Unbracket(Trimmed(h))))[i]);
  }

  // ---- what surrounds a name ------------------------------------------------

  /** Blank, tab, newline, vertical tab, form feed and carriage return. */
  predicate Blanks(s: Bytes)
  {
    forall i :: 0 <= i < |s| ==> s[i] in [32, 9, 10, 11, 12, 13]
  }

  predicate BlanksAndDots(s: Bytes)
  {
    forall i :: 0 <= i < |s| ==> s[i] in [32, 9, 10, 11, 12, 13, 46]
  }

  lemma {:induction false} LeadGone(lead: Bytes, s: Bytes)
    requires Blanks(lead)
    ensures DropLeading(lead + s) == DropLeading(s)
  {
    if lead == [] {
      assert lead + s == s;
    } else {
      assert IsSpace(lead[0]);
      assert (lead + s)[1..] == lead[1..] + s;
      LeadGone(lead[1..], s);
    }
  }

  lemma {:induction false} TailGone(s: Bytes, trail: Bytes)
    requires BlanksAndDots(trail)
    ensures DropTail(s + trail) == DropTail(s)
  {
    if trail == [] {
      assert s + trail == s;
    } else {
      var n := |trail| - 1;
      assert IsTail(trail[n]);
      assert (s + trail)[..|s + trail| - 1] == s + trail[..n];
      TailGone(s, trail[..n]);
    }
  }

  lemma {:induction false} LeadingBeforeTail(s: Bytes, trail: Bytes)
    ensures DropLeading(s) != [] ==> DropLeading(s + trail) == DropLeading(s) + trail
    ensures DropLeading(s) == [] ==> DropLeading(s + trail) == DropLeading(trail)
  {
    if s == [] {
      assert s + trail == trail;
    } else if IsSpace(s[0]) {
      assert (s + trail)[1..] == s[1..] + trail;
      LeadingBeforeTail(s[1..], trail);
    }
  }

  lemma {:induction false} DropLeadingKeepsTail(trail: Bytes)
    requires BlanksAndDots(trail)
    ensures BlanksAndDots(DropLeading(trail))
  {
    if trail != [] && IsSpace(trail[0]) {
      DropLeadingKeepsTail(trail[1..]);
    }
  }

  /** Blanks before a name, and blanks and dots behind it, make no difference. */
  lemma SurroundingsAreIgnored(lead: Bytes, h: Bytes, trail: Bytes)
    requires Blanks(lead) && BlanksAndDots(trail)
    ensures CanonServerName(lead + h + trail) == CanonServerName(h)
  {
    assert lead + h + trail == lead + (h + trail);
    LeadGone(lead, h + trail);
    LeadingBeforeTail(h, trail);
    if DropLeading(h) == [] {
      DropLeadingKeepsTail(trail);
      TailGone([], DropLeading(trail));
      assert [] + DropLeading(trail) == DropLeading(trail);
    } else {
      TailGone(DropLeading(h), trail);
    }
    assert Trimmed(lead + h + trail) == Trimmed(h);
  }

  // ---- names that stay as they are ------------------------------------------

  /** A host and a port: no colon but the one before a run of digits. */
  predicate IsHostPort(s: Bytes, host: Bytes, port: Bytes)
  {
    && s == host + ([COLON] + port) && COLON !in host
    && port != [] && forall i :: 0 <= i < |port| ==> '0' as int <= port[i] <= '9' as int
  }

  ghost predicate HasPort(s: Bytes)
  {
    exists host, port :: IsHostPort(s, host, port)
  }

  lemma StrippedHadPort(s: Bytes)
    requires StripPort(s) != s
    ensures HasPort(s)
  {
    var i := LastIndexOf(s, COLON);
    assert s == s[..i] + ([COLON] + s[i + 1..]);
    OneColonBefore(s, i);
    assert IsHostPort(s, s[..i], s[i + 1..]);
  }

  lemma PortIsStripped(s: Bytes)
    ensures if HasPort(s) then |StripPort(s)| < |s| else StripPort(s) == s
  {
    if host, port :| IsHostPort(s, host, port) {
      PortStripped(host, port);
    }
    if StripPort(s) != s {
      StrippedHadPort(s);
    }
  }

  lemma OneColonBefore(s: Bytes, i: nat)
    requires Count(s, COLON) == 1 && i < |s| && s[i] == COLON
    ensures COLON !in s[..i]
  {
    CountConcat(s[..i], [COLON] + s[i + 1..], COLON);
    CountConcat([COLON], s[i + 1..], COLON);
    assert s == s[..i] + ([COLON] + s[i + 1..]);
    assert Count([COLON], COLON) == 1;
  }

  /** What a canonical name looks like: no capitals, no blank in front, no blank or dot behind, no bracketed
      literal at the start, and no port. */
  ghost predicate IsName(s: Bytes)
  {
    && (forall i :: 0 <= i < |s| ==> !IsCapital(s[i]))
    && (s != [] ==> s[0] !in [32, 9, 10, 11, 12, 13] && s[|s| - 1] !in [32, 9, 10, 11, 12, 13, 46])
    && !(s != [] && s[0] == '[' as int && ']' as int in s)
    && !HasPort(s)
  }

  lemma LowerStays(s: Bytes)
    ensures Lower(s) == s <==> forall i :: 0 <= i < |s| ==> !IsCapital(s[i])
  {
    forall i | 0 <= i < |s| ensures LowerByte(s[i]) == s[i] <==> !IsCapital(s[i]) {
      LowerByteExactly(s[i]);
    }
  }

  lemma TrimmedStays(s: Bytes)
    ensures Trimmed(s) == s
       <==> (s != [] ==> s[0] !in [32, 9, 10, 11, 12, 13] && s[|s| - 1] !in [32, 9, 10, 11, 12, 13, 46])
    ensures |Trimmed(s)| <= |s| && (|Trimmed(s)| == |s| ==> Trimmed(s) == s)
  {
    DropLeadingShrinks(s);
    if s != [] {
      DropLeadingShrinks(s[1..]);
    }
  }

  lemma UnbracketStays(s: Bytes)
    ensures if s != [] && s[0] == '[' as int && ']' as int in s then |Unbracket(s)| < |s| else Unbracket(s) == s
  {
    if s != [] && s[0] == OPEN_BRACKET && CLOSE_BRACKET in s {
      TrimmedStays(s[1..IndexOf(s, CLOSE_BRACKET)]);
    }
  }

  /** Exactly the names that are already canonical stay as they are. With the laws of brackets, ports, case and
      surroundings, this settles every name. */
  lemma CanonicalNamesStay(s: Bytes)
    ensures CanonServerName(s) == s <==> IsName(s)
  {
    var t := Trimmed(s);
    var u := Unbracket(t);
    var v := StripPort(u);
    TrimmedStays(s);
    UnbracketStays(t);
    PortIsStripped(u);
    TrimmedStays(v);
    LowerStays(Trimmed(v));
    LowerStays(s);
  }
}
