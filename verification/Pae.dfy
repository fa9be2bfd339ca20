/** Pre-Authentication Encoding: core/go/pae.go. */
module Pae {
  import opened ByteStrings
  import opened Numerals

  const TWO63: nat := 0x8000_0000_0000_0000

  // ---- fixed-width integers -------------------------------------------------

  /** The k low-order bytes of n, least significant first. */
  function LeBytes(n: nat, k: nat): (b: Bytes)
    ensures |b| == k
  {
    if k == 0 then [] else [n % 256] + LeBytes(n / 256, k - 1)
  }

  function LeValue(b: Bytes): nat
  {
    if b == [] then 0 else b[0] + 256 * LeValue(b[1..])
  }

  /** The length encoding: eight little-endian bytes with the top bit of the last one cleared. */
  function Le64(n: nat): (b: Bytes)
    ensures |b| == 8
  {
    var b := LeBytes(n, 8);
    b[7 := b[7] % 128]
  }

  /** LE64 as written: fill the buffer, then clear the bit in place. */
  method Le64InPlace(n: nat) returns (b: array<byte>)
    ensures fresh(b) && b[..] == Le64(n)
  {
    b := new byte[8](_ => 0);
    var rest := n;
    for i := 0 to 8
      invariant LeBytes(n, 8) == b[..i] + LeBytes(rest, 8 - i)
    {
      b[i] := rest % 256;
      LeNext(b[..i], rest, 8 - i);
      assert b[..i + 1] == b[..i] + [rest % 256];
      rest := rest / 256;
    }
    assert b[..] == LeBytes(n, 8);
    b[7] := b[7] % 128;
  }

  lemma LeNext(before: Bytes, n: nat, k: nat)
    requires k > 0
    ensures before + LeBytes(n, k) == before + [n % 256] + LeBytes(n / 256, k - 1)
  {
  }

  /** One more byte of the expansion. */
  lemma LeStep(n: nat, k: nat)
    requires k > 0
    ensures LeBytes(n, k)[0] == n % 256 && LeBytes(n, k)[1..] == LeBytes(n / 256, k - 1)
  {
  }

  lemma {:induction false} LeRoundTrip(n: nat, k: nat, bound: nat)
    requires bound == Pow256(k) && n < bound
    ensures LeValue(LeBytes(n, k)) == n
    decreases k
  {
    if k > 0 {
      LeStep(n, k);
      LeRoundTrip(n / 256, k - 1, Pow256(k - 1));
    }
  }

  function Pow256(k: nat): nat
  {
    if k == 0 then 1 else 256 * Pow256(k - 1)
  }

  /** Clearing the top bit is reducing modulo 2^63, and nothing else is lost. */
  lemma {:induction false} Le64Value(n: nat)
    requires n < 2 * TWO63
    ensures LeValue(Le64(n)) == n % TWO63
  {
    var v := n % TWO63;
    TopBit(n, 8);
    assert LeBytes(v, 8) == Le64(n);
    assert Pow256(8) == 2 * TWO63 by {
      assert Pow256(4) == 0x1_0000_0000;
      assert Pow256(8) == 256 * (256 * (256 * (256 * Pow256(4))));
    }
    LeRoundTrip(v, 8, Pow256(8));
  }

  /** Dropping the bit of weight 128 * 256^(k-1) changes only the last byte. */
  lemma {:induction false} TopBit(n: nat, k: nat)
    requires 1 <= k && n < Pow256(k)
    ensures var h := 128 * Pow256(k - 1);
            var b := LeBytes(n, k);
            h > 0 && LeBytes(n % h, k) == b[k - 1 := b[k - 1] % 128]
    decreases k
  {
    Pow256Positive(k - 1);
    var h := 128 * Pow256(k - 1);
    if k == 1 {
      assert Pow256(1) == 256 * Pow256(0) == 256;
      assert LeBytes(n, 1) == [n % 256] && LeBytes(n % 128, 1) == [n % 128 % 256];
    } else {
      Pow256Positive(k - 2);
      var h' := 128 * Pow256(k - 2);
      assert h == 256 * h';
      TopBit(n / 256, k - 1);
      LeStep(n, k);
      LeStep(n % h, k);
      ModSplit(n, h');
    }
  }

  lemma {:induction false} Pow256Positive(k: nat)
    ensures Pow256(k) > 0
  {
    if k > 0 {
      Pow256Positive(k - 1);
    }
  }

  lemma ModSplit(n: nat, m: nat)
    requires m > 0
    ensures n % (256 * m) % 256 == n % 256
    ensures n % (256 * m) / 256 == (n / 256) % m
  {
    var q, r := n / (256 * m), n % (256 * m);
    assert n == 256 * (m * q) + r;
    assert r / 256 < m;
    assert n / 256 == m * q + r / 256;
    ModIs(n / 256, m, q, r / 256);
  }

  lemma ModIs(n: nat, m: nat, q: nat, r: nat)
    requires m > 0 && n == m * q + r && r < m
    ensures n % m == r
  {
    var p, s := n / m, n % m;
    assert n == m * p + s;
    if p < q {
      MulMonotone(p + 1, q, m);
    } else if q < p {
      MulMonotone(q + 1, p, m);
    }
  }

  // ---- the encoding ---------------------------------------------------------

  function PaeBody(pieces: seq<Bytes>): Bytes
  {
    if pieces == [] then [] else Le64(|pieces[0]|) + pieces[0] + PaeBody(pieces[1..])
  }

  function Encode(pieces: seq<Bytes>): Bytes
  {
    Le64(|pieces|) + PaeBody(pieces)
  }

  lemma {:induction false} PaeBodySnoc(pieces: seq<Bytes>, p: Bytes)
    ensures PaeBody(pieces + [p]) == PaeBody(pieces) + (Le64(|p|) + p)
  {
    if pieces == [] {
      assert pieces + [p] == [p] && PaeBody([p][1..]) == [];
    } else {
      assert (pieces + [p])[1..] == pieces[1..] + [p];
      PaeBodySnoc(pieces[1..], p);
    }
  }

  /** PAE as the append loop it is. */
  method EncodeLoop(pieces: seq<Bytes>) returns (out: Bytes)
    ensures out == Encode(pieces)
  {
    var count := Le64InPlace(|pieces|);
    out := count[..];
    for i := 0 to |pieces|
      invariant out == Le64(|pieces|) + PaeBody(pieces[..i])
    {
      ghost var before := out;
      var length := Le64InPlace(|pieces[i]|);
      out := out + length[..];
      out := out + pieces[i];
      assert out == before + (Le64(|pieces[i]|) + pieces[i]);
      NextPiece(pieces, i);
    }
    assert pieces[..|pieces|] == pieces;
  }

  lemma NextPiece(pieces: seq<Bytes>, i: nat)
    requires i < |pieces|
    ensures Le64(|pieces|) + PaeBody(pieces[..i]) + (Le64(|pieces[i]|) + pieces[i])
         == Le64(|pieces|) + PaeBody(pieces[..i + 1])
  {
    PaeBodySnoc(pieces[..i], pieces[i]);
    assert pieces[..i + 1] == pieces[..i] + [pieces[i]];
  }

  // ---- its left inverse -----------------------------------------------------

  function ReadPieces(b: Bytes, n: nat): Option<seq<Bytes>>
  {
    if n == 0 then (if b == [] then Some([]) else None)
    else if |b| < 8 then None
    else
      var len := LeValue(b[..8]);
      if |b| - 8 < len then None
      else
        match ReadPieces(b[8 + len..], n - 1)
        case None => None
        case Some(rest) => Some([b[8..8 + len]] + rest)
  }

  function Decode(b: Bytes): Option<seq<Bytes>>
  {
    if |b| < 8 then None else ReadPieces(b[8..], LeValue(b[..8]))
  }

  /** What Go's `int` lengths guarantee. */
  predicate Fits(pieces: seq<Bytes>)
  {
    |pieces| < TWO63 && forall i :: 0 <= i < |pieces| ==> |pieces[i]| < TWO63
  }

  lemma FirstPiece(p: Bytes, rest: Bytes)
    requires |p| < TWO63
    ensures var b := Le64(|p|) + p + rest;
            LeValue(b[..8]) == |p| && b[8..8 + |p|] == p && b[8 + |p|..] == rest
  {
    var b := Le64(|p|) + p + rest;
    Le64Value(|p|);
    assert b[..8] == Le64(|p|);
  }

  lemma {:induction false} BodyRoundTrip(pieces: seq<Bytes>)
    requires forall i :: 0 <= i < |pieces| ==> |pieces[i]| < TWO63
    ensures ReadPieces(PaeBody(pieces), |pieces|) == Some(pieces)
  {
    if pieces != [] {
      var p, rest := pieces[0], PaeBody(pieces[1..]);
      FirstPiece(p, rest);
      BodyRoundTrip(pieces[1..]);
      var b := PaeBody(pieces);
      assert b == Le64(|p|) + p + rest;
      assert [p] + pieces[1..] == pieces;
    }
  }

  lemma CountComesFirst(count: Bytes, body: Bytes, pieces: seq<Bytes>)
    requires |count| == 8 && ReadPieces(body, LeValue(count)) == Some(pieces)
    ensures Decode(count + body) == Some(pieces)
  {
    assert (count + body)[..8] == count && (count + body)[8..] == body;
  }

  /** Decoding recovers every list of byte strings. */
  lemma RoundTrip(pieces: seq<Bytes>)
    requires Fits(pieces)
    ensures Decode(Encode(pieces)) == Some(pieces)
  {
    Le64Value(|pieces|);
    BodyRoundTrip(pieces);
    CountComesFirst(Le64(|pieces|), PaeBody(pieces), pieces);
  }

  /** No two lists serialize alike. */
  lemma Injective(a: seq<Bytes>, b: seq<Bytes>)
    requires Fits(a) && Fits(b)
    ensures Encode(a) == Encode(b) <==> a == b
  {
    RoundTrip(a);
    RoundTrip(b);
  }

  /** Why the lengths must stay below 2^63: the encoding sees them only modulo 2^63. */
  lemma Le64Collides(m: nat, n: nat)
    requires m < 2 * TWO63 && n < 2 * TWO63
    ensures Le64(m) == Le64(n) <==> m % TWO63 == n % TWO63
  {
    Le64Value(m);
    Le64Value(n);
    if m % TWO63 == n % TWO63 {
      Pow256Eight();
      TopBit(m, 8);
      TopBit(n, 8);
    }
  }

  lemma Pow256Eight()
    ensures Pow256(8) == 2 * TWO63 && 128 * Pow256(7) == TWO63
  {
    assert Pow256(4) == 0x1_0000_0000;
    assert Pow256(8) == 256 * (256 * (256 * (256 * Pow256(4))));
  }
}
