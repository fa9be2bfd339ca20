/** Unpadded base64url (RFC 4648 section 5) as core/go/crypto.go encodes and decodes it. */
module Base64 {
  import opened ByteStrings

  predicate InAlphabet(c: byte)
  {
    || 'A' as int <= c <= 'Z' as int
    || 'a' as int <= c <= 'z' as int
    || '0' as int <= c <= '9' as int
    || c == '-' as int
    || c == '_' as int
  }

  function Char64(v: nat): (c: byte)
    requires v < 64
    ensures InAlphabet(c)
  {
    if v < 26 then 'A' as int + v
    else if v < 52 then 'a' as int + v - 26
    else if v < 62 then '0' as int + v - 52
    else if v == 62 then '-' as int
    else '_' as int
  }

  function Value64(c: byte): (v: nat)
    requires InAlphabet(c)
    ensures v < 64 && Char64(v) == c
  {
    if 'A' as int <= c <= 'Z' as int then c - 'A' as int
    else if 'a' as int <= c <= 'z' as int then c - 'a' as int + 26
    else if '0' as int <= c <= '9' as int then c - '0' as int + 52
    else if c == '-' as int then 62
    else 63
  }

  function B64u(b: Bytes): (s: Bytes)
    ensures forall i :: 0 <= i < |s| ==> InAlphabet(s[i])
  {
    if b == [] then []
    else if |b| == 1 then [Char64(b[0] / 4), Char64(b[0] % 4 * 16)]
    else if |b| == 2 then [Char64(b[0] / 4), Char64(b[0] % 4 * 16 + b[1] / 16), Char64(b[1] % 16 * 4)]
    else Quad(b[0], b[1], b[2]) + B64u(b[3..])
  }

  function Quad(x: byte, y: byte, z: byte): (q: Bytes)
    ensures |q| == 4 && forall i :: 0 <= i < 4 ==> InAlphabet(q[i])
  {
    [Char64(x / 4), Char64(x % 4 * 16 + y / 16), Char64(y % 16 * 4 + z / 64), Char64(z % 64)]
  }

  /** The library's decoder: a lone trailing character is an error, spare trailing bits are not looked at. */
  function RawDecode(s: Bytes): Option<Bytes>
    requires forall i :: 0 <= i < |s| ==> InAlphabet(s[i])
  {
    if s == [] then Some([])
    else if |s| == 1 then None
    else
      var b0 := Merge1(Value64(s[0]), Value64(s[1]));
      if |s| == 2 then Some([b0])
      else
        var b1 := Merge2(Value64(s[1]), Value64(s[2]));
        if |s| == 3 then Some([b0, b1])
        else
          match RawDecode(s[4..])
          case None => None
          case Some(rest) => Some([b0, b1, Merge3(Value64(s[2]), Value64(s[3]))] + rest)
  }

  function Merge1(v0: nat, v1: nat): byte
    requires v0 < 64 && v1 < 64
  {
    v0 * 4 + v1 / 16
  }

  function Merge2(v1: nat, v2: nat): byte
    requires v1 < 64 && v2 < 64
  {
    v1 % 16 * 16 + v2 / 4
  }

  function Merge3(v2: nat, v3: nat): byte
    requires v2 < 64 && v3 < 64
  {
    v2 % 4 * 64 + v3
  }

  function TrimPadding(s: Bytes): (r: Bytes)
    ensures r <= s && (r == [] || r[|r| - 1] != EQUALS)
  {
    if s != [] && s[|s| - 1] == EQUALS then TrimPadding(s[..|s| - 1]) else s
  }

  function B64uDecode(s: Bytes): Option<Bytes>
  {
    var t := TrimPadding(s);
    if forall i :: 0 <= i < |t| ==> InAlphabet(t[i]) then RawDecode(t) else None
  }

  /** The alphabet check as the byte loop it is. */
  method B64uDecodeLoop(s: Bytes) returns (r: Option<Bytes>)
    ensures r == B64uDecode(s)
  {
    var t := TrimPadding(s);
    for i := 0 to |t|
      invariant forall k :: 0 <= k < i ==> InAlphabet(t[k])
    {
      if !InAlphabet(t[i]) {
        return None;
      }
    }
    r := RawDecode(t);
  }

  function Padding(n: nat): (p: Bytes)
    ensures |p| == n
  {
    seq(n, i => EQUALS)
  }

  lemma {:induction false} TrimPaddingOff(s: Bytes, n: nat)
    requires s == [] || s[|s| - 1] != EQUALS
    ensures TrimPadding(s + Padding(n)) == s
  {
    if n == 0 {
      assert s + Padding(0) == s;
    } else {
      assert (s + Padding(n))[..|s| + n - 1] == s + Padding(n - 1);
      TrimPaddingOff(s, n - 1);
    }
  }

  lemma MergeInverts(x: byte, y: byte, z: byte)
    ensures Merge1(x / 4, x % 4 * 16 + y / 16) == x
    ensures Merge2(x % 4 * 16 + y / 16, y % 16 * 4 + z / 64) == y
    ensures Merge3(y % 16 * 4 + z / 64, z % 64) == z
  {
    var y1, z1 := y / 16, z / 64;
    assert (x % 4 * 16 + y1) / 16 == x % 4 && (x % 4 * 16 + y1) % 16 == y1;
    assert (y % 16 * 4 + z1) / 4 == y % 16 && (y % 16 * 4 + z1) % 4 == z1;
  }

  lemma QuadValues(x: byte, y: byte, z: byte)
    ensures var q := Quad(x, y, z);
            && Merge1(Value64(q[0]), Value64(q[1])) == x
            && Merge2(Value64(q[1]), Value64(q[2])) == y
            && Merge3(Value64(q[2]), Value64(q[3])) == z
  {
    MergeInverts(x, y, z);
    Char64Inverts(x / 4);
    Char64Inverts(x % 4 * 16 + y / 16);
    Char64Inverts(y % 16 * 4 + z / 64);
    Char64Inverts(z % 64);
  }

  lemma FourDecode(q: Bytes, tail: Bytes)
    requires |q| == 4 && (forall i :: 0 <= i < 4 ==> InAlphabet(q[i]))
    requires forall i :: 0 <= i < |tail| ==> InAlphabet(tail[i])
    ensures RawDecode(q + tail) == match RawDecode(tail)
                                   case None => None
                                   case Some(rest) => Some([Merge1(Value64(q[0]), Value64(q[1])),
                                                            Merge2(Value64(q[1]), Value64(q[2])),
                                                            Merge3(Value64(q[2]), Value64(q[3]))] + rest)
  {
    var s := q + tail;
    assert s[4..] == tail;
    assert s[0] == q[0] && s[1] == q[1] && s[2] == q[2] && s[3] == q[3];
  }

  lemma Char64Inverts(v: nat)
    requires v < 64
    ensures Value64(Char64(v)) == v
  {
  }

  /** A short tail reads as the same bytes with zeros where characters are missing. */
  lemma TailDecodes(s: Bytes)
    requires 2 <= |s| <= 3 && forall i :: 0 <= i < |s| ==> InAlphabet(s[i])
    ensures RawDecode(s) == Some(if |s| == 2 then [Merge1(Value64(s[0]), Value64(s[1]))]
                                 else [Merge1(Value64(s[0]), Value64(s[1])), Merge2(Value64(s[1]), Value64(s[2]))])
  {
  }

  lemma OneByte(x: byte)
    ensures RawDecode(B64u([x])) == Some([x])
  {
    TailDecodes(B64u([x]));
    QuadValues(x, 0, 0);
  }

  lemma TwoBytes(x: byte, y: byte)
    ensures RawDecode(B64u([x, y])) == Some([x, y])
  {
    TailDecodes(B64u([x, y]));
    QuadValues(x, y, 0);
  }

  lemma QuadThenMore(x: byte, y: byte, z: byte, tail: Bytes)
    requires RawDecode(B64u(tail)) == Some(tail)
    ensures RawDecode(Quad(x, y, z) + B64u(tail)) == Some([x, y, z] + tail)
  {
    QuadValues(x, y, z);
    FourDecode(Quad(x, y, z), B64u(tail));
  }

  lemma {:induction false} RawRoundTrip(b: Bytes)
    ensures RawDecode(B64u(b)) == Some(b)
  {
    if |b| >= 3 {
      RawRoundTrip(b[3..]);
      QuadThenMore(b[0], b[1], b[2], b[3..]);
      assert b == [b[0], b[1], b[2]] + b[3..];
    } else if |b| == 1 {
      OneByte(b[0]);
      assert b == [b[0]];
    } else if |b| == 2 {
      TwoBytes(b[0], b[1]);
      assert b == [b[0], b[1]];
    }
  }

  /** Decoding inverts encoding, with any amount of padding behind the text. */
  lemma RoundTrip(b: Bytes, n: nat)
    ensures B64uDecode(B64u(b) + Padding(n)) == Some(b)
  {
    TrimPaddingOff(B64u(b), n);
    RawRoundTrip(b);
  }

  lemma Injective(a: Bytes, b: Bytes)
    ensures B64u(a) == B64u(b) <==> a == b
  {
    RawRoundTrip(a);
    RawRoundTrip(b);
  }

  /** The alphabet, in order: RFC 4648 section 5. */
  lemma AlphabetIs(v: nat)
    requires v < 64
    ensures v < 26 ==> Char64(v) == Ascii("ABCDEFGHIJKLMNOPQRSTUVWXYZ")[v]
    ensures 26 <= v < 52 ==> Char64(v) == Ascii("abcdefghijklmnopqrstuvwxyz")[v - 26]
    ensures 52 <= v < 62 ==> Char64(v) == Ascii("0123456789")[v - 52]
    ensures v == 62 ==> [Char64(v)] == Ascii("-")
    ensures v == 63 ==> [Char64(v)] == Ascii("_")
  {
  }
}
