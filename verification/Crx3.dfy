/** The CRX3 container: extension/crx3.py. Varints, length-delimited fields, and the byte layout
    that `pack` builds and `verify` takes apart. */
module Crx3 {
  import opened ByteStrings
  import opened Numerals
  import Pae

  // ---- varints --------------------------------------------------------------

  /** Seven bits a byte, low end first, the top bit saying that more follow. */
  function Varint(n: nat): (b: Bytes)
    ensures b != []
  {
    if n < 128 then [n] else [n % 128 + 128] + Varint(n / 128)
  }

  method VarintLoop(n: nat) returns (out: Bytes)
    ensures out == Varint(n)
  {
    out := [];
    var rest := n;
    while true
      invariant out + Varint(rest) == Varint(n)
      decreases rest
    {
      var b := rest % 128;
      ghost var was := rest;
      rest := rest / 128;
      if rest == 0 {
        out := out + [b];
        return;
      }
      assert Varint(was) == [b + 128] + Varint(rest);
      assert out + Varint(was) == out + [b + 128] + Varint(rest);
      out := out + [b + 128];
    }
  }

  /** The number at position i and the position after it; None where Python runs off the end. */
  function ReadVarint(b: Bytes, i: nat): (r: Option<(nat, nat)>)
    ensures r.Some? ==> i < r.value.1 <= |b|
    decreases |b| - i
  {
    if i >= |b| then None
    else if b[i] < 128 then Some((b[i], i + 1))
    else
      match ReadVarint(b, i + 1)
      case None => None
      case Some((n, j)) => Some((b[i] - 128 + 128 * n, j))
  }

  /** The accumulator loop: `scale` is 1 << shift, and bits are added where none are set yet. */
  method ReadVarintLoop(b: Bytes, start: nat) returns (r: Option<(nat, nat)>)
    ensures r == ReadVarint(b, start)
  {
    var n, scale, i := 0, 1, start;
    while true
      invariant start <= i && scale > 0
      invariant ReadVarint(b, start).Some? <==> ReadVarint(b, i).Some?
      invariant ReadVarint(b, i).Some? ==>
                  ReadVarint(b, start).value == (n + scale * ReadVarint(b, i).value.0, ReadVarint(b, i).value.1)
      decreases |b| - i
    {
      if i >= |b| {
        return None;
      }
      var x := b[i];
      i := i + 1;
      if x < 128 {
        return Some((n + scale * x, i));
      }
      if ReadVarint(b, i).Some? {
        Regroup(scale, x - 128, ReadVarint(b, i).value.0);
      }
      n := n + scale * (x - 128);
      scale := scale * 128;
    }
  }

  lemma Regroup(scale: nat, low: nat, high: nat)
    ensures scale * (low + 128 * high) == scale * low + scale * 128 * high
  {
  }

  /** Reading inverts writing, for every number and at every offset. */
  lemma {:induction false} VarintRoundTrip(front: Bytes, n: nat, back: Bytes)
    ensures ReadVarint(front + Varint(n) + back, |front|) == Some((n, |front| + |Varint(n)|))
    decreases n
  {
    var b := front + Varint(n) + back;
    assert b[|front|] == Varint(n)[0];
    if n >= 128 {
      var low := n % 128 + 128;
      assert b == (front + [low]) + Varint(n / 128) + back;
      VarintRoundTrip(front + [low], n / 128, back);
    }
  }

  // ---- fields ---------------------------------------------------------------

  datatype Field = Field(num: nat, payload: Bytes)

  /** One length-delimited field: wire type 2 in the low three bits of the key. */
  function FieldBytes(f: Field): (b: Bytes)
    ensures b != []
  {
    Varint(f.num * 8 + 2) + Varint(|f.payload|) + f.payload
  }

  function AllFields(fs: seq<Field>): Bytes
  {
    if fs == [] then [] else FieldBytes(fs[0]) + AllFields(fs[1..])
  }

  type Dict = map<nat, Bytes>

  /** Python's slice, which stops at the end. */
  function Slice(b: Bytes, i: nat, j: nat): Bytes
    requires i <= |b| && i <= j
  {
    if j <= |b| then b[i..j] else b[i..]
  }

  /** The reading loop from position i with the entries found so far. */
  function ReadFieldsFrom(b: Bytes, i: nat, found: Dict): Option<Dict>
    decreases |b| - i
  {
    if i >= |b| then Some(found)
    else
      match ReadVarint(b, i)
      case None => None
      case Some((key, j)) =>
        match ReadVarint(b, j)
        case None => None
        case Some((len, k)) => ReadFieldsFrom(b, k + len, found[key / 8 := Slice(b, k, k + len)])
  }

  function ReadFields(b: Bytes): Option<Dict>
  {
    ReadFieldsFrom(b, 0, map[])
  }

  method ReadFieldsLoop(b: Bytes) returns (r: Option<Dict>)
    ensures r == ReadFields(b)
  {
    var i: nat, out: Dict := 0, map[];
    while i < |b|
      invariant ReadFieldsFrom(b, i, out) == ReadFields(b)
      decreases |b| - i
    {
      var key := ReadVarint(b, i);
      if key.None? {
        return None;
      }
      var len := ReadVarint(b, key.value.1);
      if len.None? {
        return None;
      }
      var k := len.value.1;
      out := out[key.value.0 / 8 := Slice(b, k, k + len.value.0)];
      i := k + len.value.0;
    }
    r := Some(out);
  }

  /** A list of fields as a dict, later entries winning. */
  function DictOf(fs: seq<Field>, found: Dict): Dict
  {
    if fs == [] then found else DictOf(fs[1..], found[fs[0].num := fs[0].payload])
  }

  lemma KeyReads(front: Bytes, n: nat, back: Bytes, b: Bytes)
    requires b == front + (Varint(n) + back)
    ensures ReadVarint(b, |front|) == Some((n, |front| + |Varint(n)|))
  {
    assert b == front + Varint(n) + back;
    VarintRoundTrip(front, n, back);
  }

  lemma Reassociate(front: Bytes, key: Bytes, len: Bytes, p: Bytes, back: Bytes)
    ensures var b := front + (key + len + p) + back;
            && b == front + (key + (len + p + back))
            && b == (front + key) + (len + (p + back))
            && b[|front| + |key| + |len|..][..|p|] == p
  {
  }

  lemma FieldHeadReads(front: Bytes, f: Field, back: Bytes, b: Bytes) returns (j: nat, k: nat)
    requires b == front + FieldBytes(f) + back
    ensures ReadVarint(b, |front|) == Some((f.num * 8 + 2, j))
    ensures ReadVarint(b, j) == Some((|f.payload|, k))
    ensures k + |f.payload| == |front + FieldBytes(f)| <= |b|
    ensures b[k..][..|f.payload|] == f.payload
  {
    var key, len := Varint(f.num * 8 + 2), Varint(|f.payload|);
    j := |front| + |key|;
    k := j + |len|;
    Reassociate(front, key, len, f.payload, back);
    KeyReads(front, f.num * 8 + 2, len + f.payload + back, b);
    KeyReads(front + key, |f.payload|, f.payload + back, b);
  }

  lemma ReadStep(b: Bytes, i: nat, found: Dict, f: Field, j: nat, k: nat, next: nat)
    requires ReadVarint(b, i) == Some((f.num * 8 + 2, j)) && ReadVarint(b, j) == Some((|f.payload|, k))
    requires next == k + |f.payload| <= |b| && b[k..][..|f.payload|] == f.payload && i < |b|
    ensures ReadFieldsFrom(b, i, found) == ReadFieldsFrom(b, next, found[f.num := f.payload])
  {
    assert Slice(b, k, next) == b[k..][..|f.payload|];
    assert (f.num * 8 + 2) / 8 == f.num;
  }

  lemma OneFieldReads(front: Bytes, f: Field, back: Bytes, found: Dict, b: Bytes)
    requires b == front + FieldBytes(f) + back
    ensures ReadFieldsFrom(b, |front|, found) == ReadFieldsFrom(b, |front + FieldBytes(f)|, found[f.num := f.payload])
  {
    var j, k := FieldHeadReads(front, f, back, b);
    ReadStep(b, |front|, found, f, j, k, |front + FieldBytes(f)|);
  }

  lemma Prepend(front: Bytes, f: Bytes, rest: Bytes, b: Bytes)
    requires b == front + (f + rest)
    ensures b == front + f + rest && b == (front + f) + rest
  {
  }

  lemma {:induction false} FieldsRoundTripFrom(front: Bytes, fs: seq<Field>, found: Dict, b: Bytes)
    requires b == front + AllFields(fs)
    ensures ReadFieldsFrom(b, |front|, found) == Some(DictOf(fs, found))
    decreases fs
  {
    if fs != [] {
      var f, rest := fs[0], AllFields(fs[1..]);
      Prepend(front, FieldBytes(f), rest, b);
      FieldsRoundTripFrom(front + FieldBytes(f), fs[1..], found[f.num := f.payload], b);
      OneFieldReads(front, f, rest, found, b);
    } else {
      assert b == front;
    }
  }

  /** Every list of fields is recovered, the last of several with one number standing for them. */
  lemma FieldsRoundTrip(fs: seq<Field>)
    ensures ReadFields(AllFields(fs)) == Some(DictOf(fs, map[]))
  {
    FieldsRoundTripFrom([], fs, map[], AllFields(fs));
  }

  predicate Distinct(fs: seq<Field>)
  {
    forall i, j :: 0 <= i < j < |fs| ==> fs[i].num != fs[j].num
  }

  predicate HasNumber(fs: seq<Field>, n: nat)
  {
    exists i :: 0 <= i < |fs| && fs[i].num == n
  }

  lemma {:induction false} DictLookup(fs: seq<Field>, found: Dict, n: nat)
    requires Distinct(fs)
    ensures var d := DictOf(fs, found);
            if HasNumber(fs, n) then n in d && forall i :: 0 <= i < |fs| && fs[i].num == n ==> d[n] == fs[i].payload
            else n in d <==> n in found
    ensures !HasNumber(fs, n) && n in found ==> DictOf(fs, found)[n] == found[n]
  {
    if fs != [] {
      var rest := fs[1..];
      DictLookup(rest, found[fs[0].num := fs[0].payload], n);
      assert forall i :: 0 <= i < |rest| ==> rest[i] == fs[i + 1];
      assert HasNumber(fs, n) <==> fs[0].num == n || HasNumber(rest, n) by {
        if HasNumber(rest, n) {
          var i :| 0 <= i < |rest| && rest[i].num == n;
          assert fs[i + 1].num == n;
        }
      }
    }
  }

  /** Distinctly numbered fields come back exactly: every one, and no other. */
  lemma DistinctFieldsRoundTrip(fs: seq<Field>)
    requires Distinct(fs)
    ensures ReadFields(AllFields(fs)).Some?
    ensures var d := ReadFields(AllFields(fs)).value;
            && (forall i :: 0 <= i < |fs| ==> fs[i].num in d && d[fs[i].num] == fs[i].payload)
            && (forall n :: n in d ==> HasNumber(fs, n))
  {
    FieldsRoundTrip(fs);
    forall n ensures var d := DictOf(fs, map[]);
                     if HasNumber(fs, n) then n in d && forall i :: 0 <= i < |fs| && fs[i].num == n ==> d[n] == fs[i].payload
                     else n !in d
    {
      DictLookup(fs, map[], n);
    }
  }

  // ---- the file -------------------------------------------------------------

  const TWO32: nat := 0x1_0000_0000

  function U32(n: nat): (b: Bytes)
    ensures |b| == 4
  {
    Pae.LeBytes(n, 4)
  }

  lemma U32RoundTrip(n: nat)
    requires n < TWO32
    ensures Pae.LeValue(U32(n)) == n
  {
    assert Pae.Pow256(4) == TWO32;
    Pae.LeRoundTrip(n, 4, TWO32);
  }

  function Magic(): Bytes
  {
    Ascii("Cr24")
  }

  function SigContext(): Bytes
  {
    Ascii("CRX3 SignedData") + [0]
  }

  /** The bytes the signature covers. */
  function SignedBytes(signedHeader: Bytes, payload: Bytes): Bytes
  {
    SigContext() + U32(|signedHeader|) + signedHeader + payload
  }

  datatype Signer = Signer(spki: Bytes, sha256: Bytes -> Bytes, sign: Bytes -> Bytes)

  function Prefix16(b: Bytes): Bytes
  {
    if |b| <= 16 then b else b[..16]
  }

  function SignedHeader(s: Signer): Bytes
  {
    FieldBytes(Field(1, Prefix16(s.sha256(s.spki))))
  }

  function Header(s: Signer, payload: Bytes): Bytes
  {
    var shd := SignedHeader(s);
    var proof := AllFields([Field(1, s.spki), Field(2, s.sign(SignedBytes(shd, payload)))]);
    AllFields([Field(2, proof), Field(10000, shd)])
  }

  /** `pack`; struct.pack refuses a header of 2^32 bytes or more. */
  function Pack(s: Signer, payload: Bytes): Option<Bytes>
  {
    var header := Header(s, payload);
    if |header| >= TWO32 then None
    else Some(Magic() + U32(3) + U32(|header|) + header + payload)
  }

  datatype Opened = Opened(spki: Bytes, signature: Bytes, signedHeader: Bytes, payload: Bytes, signed: Bytes)

  datatype Refusal = BadMagic | Truncated | BadVersion | BadHeader | MissingField

  /** The slicing of `verify`, up to the signature check itself. */
  function Open(raw: Bytes): Result<Opened, Refusal>
  {
    if Slice(raw, 0, 4) != Magic() then Err(BadMagic)
    else if |raw| < 12 then Err(Truncated)
    else if Pae.LeValue(raw[4..8]) != 3 then Err(BadVersion)
    else
      var hlen := Pae.LeValue(raw[8..12]);
      var header, payload := Slice(raw, 12, 12 + hlen), if 12 + hlen <= |raw| then raw[12 + hlen..] else [];
      match ReadFields(header)
      case None => Err(BadHeader)
      case Some(f) =>
        if 2 !in f then Err(MissingField)
        else
          match ReadFields(f[2])
          case None => Err(BadHeader)
          case Some(proof) =>
            if 1 !in proof || 2 !in proof || 10000 !in f then Err(MissingField)
            else Ok(Opened(proof[1], proof[2], f[10000], payload, SignedBytes(f[10000], payload)))
  }

  lemma TwoFields(a: Field, b: Field)
    requires a.num != b.num
    ensures ReadFields(AllFields([a, b])) == Some(map[a.num := a.payload, b.num := b.payload])
  {
    var fs := [a, b];
    FieldsRoundTrip(fs);
    assert fs[1..] == [b] && [b][1..] == [];
    var first := map[][a.num := a.payload];
    assert DictOf(fs, map[]) == DictOf([b], first);
    assert DictOf([b], first) == first[b.num := b.payload];
  }

  lemma LaidOut(magic: Bytes, version: Bytes, len: Bytes, header: Bytes, payload: Bytes)
    requires |magic| == |version| == |len| == 4
    ensures var raw := magic + version + len + header + payload;
            && Slice(raw, 0, 4) == magic && raw[4..8] == version && raw[8..12] == len
            && Slice(raw, 12, 12 + |header|) == header && raw[12 + |header|..] == payload
  {
  }

  /** What `verify` slices out of a packed file is what `pack` put in, down to the signed bytes. */
  lemma PackRoundTrip(s: Signer, payload: Bytes)
    requires Pack(s, payload).Some?
    ensures var shd := SignedHeader(s);
            var signed := SignedBytes(shd, payload);
            Open(Pack(s, payload).value) == Ok(Opened(s.spki, s.sign(signed), shd, payload, signed))
  {
    var shd := SignedHeader(s);
    var sig := s.sign(SignedBytes(shd, payload));
    var proof := AllFields([Field(1, s.spki), Field(2, sig)]);
    var header := Header(s, payload);
    var raw := Pack(s, payload).value;
    U32RoundTrip(3);
    U32RoundTrip(|header|);
    LaidOut(Magic(), U32(3), U32(|header|), header, payload);
    TwoFields(Field(1, s.spki), Field(2, sig));
    TwoFields(Field(2, proof), Field(10000, shd));
  }
}
