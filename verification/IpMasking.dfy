/** Masking group by group is flooring the whole address. */
module IpMasking {
  import opened ByteStrings
  import opened Numerals
  import opened IpAddresses

  // ---- floors ---------------------------------------------------------------

  /** The quotient is the one number that brackets n between multiples of d. */
  lemma DivIs(n: nat, d: nat, q: nat)
    requires d > 0 && q * d <= n < q * d + d
    ensures Div(n, d) == q
  {
    var p := n / d;
    assert p * d <= n < p * d + d;
    if p < q {
      MulMonotone(p + 1, q, d);
    } else if q < p {
      MulMonotone(q + 1, p, d);
    }
  }

  lemma DivBrackets(n: nat, d: nat)
    requires d > 0
    ensures FloorTo(n, d) <= n < FloorTo(n, d) + d
  {
  }

  /** Scaling by c and adding less than c does not change which multiple of d is reached. */
  lemma FloorScaled(v: nat, c: nat, g: nat, d: nat)
    requires d > 0 && g < c && c * d > 0
    ensures FloorTo(v * c + g, c * d) == FloorTo(v, d) * c
  {
    var q := Div(v, d);
    DivBrackets(v, d);
    var r := v - q * d;
    assert v * c == q * (c * d) + r * c by {
      assert v == q * d + r;
      Distribute(q, d, r, c);
    }
    assert r * c + c <= c * d by {
      MulMonotone(r + 1, d, c);
    }
    DivIs(v * c + g, c * d, q);
    Associate(q, c, d);
  }

  lemma Distribute(q: nat, d: nat, r: nat, c: nat)
    ensures (q * d + r) * c == q * (c * d) + r * c
  {
  }

  lemma Associate(q: nat, c: nat, d: nat)
    ensures q * (c * d) == (q * d) * c
  {
  }

  /** A floor by a divisor of c touches only the part below c. */
  lemma FloorLow(v: nat, c: nat, g: nat, d: nat, m: nat)
    requires d > 0 && c == m * d
    ensures FloorTo(v * c + g, d) == v * c + FloorTo(g, d)
  {
    var q := Div(g, d);
    DivBrackets(g, d);
    assert (v * m + q) * d == v * c + q * d by {
      Distribute(v, m, q, d);
      assert v * (d * m) == v * c;
    }
    DivIs(v * c + g, d, v * m + q);
  }

  lemma {:induction false} PowSum(b: nat, m: nat, n: nat)
    ensures Pow(b, m + n) == Pow(b, m) * Pow(b, n)
  {
    if m > 0 {
      PowSum(b, m - 1, n);
      Associate(b, Pow(b, n), Pow(b, m - 1));
    }
  }

  /** Flooring twice by powers of two keeps only the coarser floor. */
  lemma FloorTwice(x: nat, a: nat, b: nat)
    ensures FloorTo(FloorTo(x, Pow(2, a)), Pow(2, b)) == FloorTo(x, Pow(2, if a <= b then b else a))
  {
    var A, B := Pow(2, a), Pow(2, b);
    if a <= b {
      PowSum(2, a, b - a);
      var m := Pow(2, b - a);
      var q := Div(x, A);
      DivBrackets(x, A);
      FloorScaled(q, A, x - q * A, m);
      FloorScaled(q, A, 0, m);
    } else {
      PowSum(2, a - b, b);
      var m := Pow(2, a - b);
      var q := Div(x, A);
      FloorLow(q, A, 0, B, m);
      DivIs(0, B, 0);
    }
  }

  // ---- whole addresses as numbers -------------------------------------------

  /** The big-endian number a list of 16-bit groups spells. */
  function Value(ws: seq<Word>): nat
  {
    if ws == [] then 0 else Value(ws[..|ws| - 1]) * 65536 + ws[|ws| - 1]
  }

  lemma {:induction false} ValueInjective(a: seq<Word>, b: seq<Word>)
    requires |a| == |b| && Value(a) == Value(b)
    ensures a == b
  {
    if a != [] {
      var n := |a| - 1;
      assert a[n] == Value(a) % 65536 && b[n] == Value(b) % 65536;
      ValueInjective(a[..n], b[..n]);
      assert a == a[..n] + [a[n]] && b == b[..n] + [b[n]];
    }
  }

  lemma Pow16()
    ensures Pow(2, 16) == 65536
  {
    assert Pow(2, 8) == 256 by {
      assert Pow(2, 4) == 16;
      PowSum(2, 4, 4);
    }
    PowSum(2, 8, 8);
  }

  /** Masking to `prefix` bits floors the whole number to a multiple of 2^(width - prefix). */
  lemma {:induction false} MaskIsFloor(ws: seq<Word>, prefix: nat)
    requires prefix <= 16 * |ws|
    ensures Value(MaskWords(ws, prefix)) == FloorTo(Value(ws), Pow(2, 16 * |ws| - prefix))
  {
    if ws == [] {
      assert FloorTo(0, 1) == 0;
    } else {
      var n := |ws| - 1;
      var front, last := ws[..n], ws[n];
      assert MaskWords(ws, prefix)[..n] == MaskWords(front, prefix);
      var e := 16 * (n + 1) - prefix;
      Pow16();
      if prefix <= 16 * n {
        MaskIsFloor(front, prefix);
        PowSum(2, 16, 16 * n - prefix);
        FloorScaled(Value(front), 65536, last, Pow(2, 16 * n - prefix));
      } else {
        assert MaskWords(front, prefix) == front;
        PowSum(2, 16 - e, e);
        FloorLow(Value(front), 65536, last, Pow(2, e), Pow(2, 16 - e));
        if e == 0 {
          DivIs(last, 1, last);
        }
      }
    }
  }

  /** The IPv4 branch packs, floors and unpacks the same number. */
  lemma QuadMaskIsFloor(o1: byte, o2: byte, o3: byte, o4: byte, prefix: nat)
    requires prefix <= 32
    ensures var n := ((o1 * 256 + o2) * 256 + o3) * 256 + o4;
            CanonIpv4Nums(o1, o2, o3, o4, prefix) == QuadText(FloorTo(n, Pow(2, 32 - prefix)))
  {
    if prefix == 32 {
      var n := ((o1 * 256 + o2) * 256 + o3) * 256 + o4;
      DivIs(n, 1, n);
      Unpack(o1, o2, o3, o4);
    }
  }

  lemma Quotient(n: nat, d: nat, q: nat, r: nat)
    requires n == q * d + r && r < d
    ensures n / d == q && n % d == r
  {
    DivIs(n, d, q);
  }

  lemma Unpack(o1: byte, o2: byte, o3: byte, o4: byte)
    ensures var n := ((o1 * 256 + o2) * 256 + o3) * 256 + o4;
            n / 16777216 % 256 == o1 && n / 65536 % 256 == o2 && n / 256 % 256 == o3 && n % 256 == o4
  {
    var n := ((o1 * 256 + o2) * 256 + o3) * 256 + o4;
    Quotient(n, 256, (o1 * 256 + o2) * 256 + o3, o4);
    Quotient(n, 65536, o1 * 256 + o2, o3 * 256 + o4);
    Quotient(n, 16777216, o1, (o2 * 256 + o3) * 256 + o4);
    Quotient((o1 * 256 + o2) * 256 + o3, 256, o1 * 256 + o2, o3);
    Quotient(o1 * 256 + o2, 256, o1, o2);
  }

  function QuadText(n: nat): Bytes
  {
    OctetsText(n / 16777216 % 256, n / 65536 % 256, n / 256 % 256, n % 256)
  }

  /** Masking at p and then at q is masking at the shorter of the two. */
  lemma MaskTwice(g: Groups, p: nat, q: nat)
    requires p <= 128 && q <= 128
    ensures MaskV6(MaskV6(g, p), q) == MaskV6(g, if p <= q then p else q)
  {
    MaskV6IsFloor(g, p);
    MaskV6IsFloor(MaskV6(g, p), q);
    MaskV6IsFloor(g, if p <= q then p else q);
    FloorTwice(Value(g), 128 - p, 128 - q);
    ValueInjective(MaskV6(MaskV6(g, p), q), MaskV6(g, if p <= q then p else q));
  }

  lemma MaskV6IsFloor(g: Groups, prefix: nat)
    requires prefix <= 128
    ensures Value(MaskV6(g, prefix)) == FloorTo(Value(g), Pow(2, 128 - prefix))
  {
    if prefix < 128 {
      MaskIsFloor(g, prefix);
    } else {
      DivIs(Value(g), 1, Value(g));
    }
  }

  lemma EvenFloor(n: nat, e: nat)
    requires e > 0
    ensures FloorTo(n, Pow(2, e)) % 2 == 0
  {
    var half := Pow(2, e - 1);
    var q := Div(n, Pow(2, e));
    assert Pow(2, e) == 2 * half;
    assert q * (2 * half) == 2 * (q * half);
  }

  /** Masking never turns another address into an IPv4-mapped one (RFC 4291 section 2.5.5.2). */
  lemma MaskNeverMaps(g: Groups, prefix: nat)
    requires prefix <= 128 && Mapped(MaskV6(g, prefix))
    ensures Mapped(g)
  {
    var m := MaskV6(g, prefix);
    assert m[..6][5] == 0xffff;
    if prefix < 128 {
      assert m[5] == MaskWord(g[5], 5, prefix);
      if 80 < prefix < 96 {
        var e := 16 - (prefix - 80);
        EvenFloor(g[5], e);
      }
      assert m[..6] == g[..6];
    }
  }
}
