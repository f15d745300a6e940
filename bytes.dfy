/** Fixed-width integers as Python's struct module encodes them in its standard
    sizes: unsigned or two's complement, little- or big-endian. */
module Bytes {

  newtype byte = x: int | 0 <= x < 256

  function Pow256(n: nat): (p: nat)
    ensures p >= 1
  {
    if n == 0 then 1 else 256 * Pow256(n - 1)
  }

  /** The unsigned value of a little-endian byte string. */
  function FromLE(bs: seq<byte>): (v: nat)
    ensures v < Pow256(|bs|)
  {
    if bs == [] then 0
    else
      var rest := FromLE(bs[1..]);
      assert rest <= Pow256(|bs| - 1) - 1;
      bs[0] as nat + 256 * rest
  }

  /** The n low-order bytes of v, least significant first. */
  function ToLE(v: nat, n: nat): (bs: seq<byte>)
    ensures |bs| == n
  {
    if n == 0 then [] else [(v % 256) as byte] + ToLE(v / 256, n - 1)
  }

  function Reverse(s: seq<byte>): (r: seq<byte>)
    ensures |r| == |s|
    ensures forall i :: 0 <= i < |s| ==> r[i] == s[|s| - 1 - i]
  {
    if s == [] then [] else Reverse(s[1..]) + [s[0]]
  }

  function FromBE(bs: seq<byte>): (v: nat)
    ensures v < Pow256(|bs|)
  {
    FromLE(Reverse(bs))
  }

  function ToBE(v: nat, n: nat): (bs: seq<byte>)
    ensures |bs| == n
  {
    Reverse(ToLE(v, n))
  }

  /** Two adjacent windows of a byte string concatenate to the window spanning both. */
  lemma AdjacentWindows(s: seq<byte>, a: nat, b: nat, c: nat)
    requires a <= b <= c <= |s|
    ensures s[a..b] + s[b..c] == s[a..c]
  {
  }

  /** The two halves of a window, split at b, are the windows on either side of b. */
  lemma WindowHalves(s: seq<byte>, a: nat, b: nat, c: nat)
    requires a <= b <= c <= |s|
    ensures s[a..c][..b - a] == s[a..b] && s[a..c][b - a..] == s[b..c]
  {
  }

  lemma {:induction false} FromToLE(v: nat, n: nat)
    requires v < Pow256(n)
    ensures FromLE(ToLE(v, n)) == v
  {
    if n > 0 {
      assert v / 256 < Pow256(n - 1);
      FromToLE(v / 256, n - 1);
      assert ToLE(v, n)[1..] == ToLE(v / 256, n - 1);
    }
  }

  lemma {:induction false} ToFromLE(bs: seq<byte>)
    ensures ToLE(FromLE(bs), |bs|) == bs
  {
    if bs != [] {
      var v := FromLE(bs);
      assert v == bs[0] as nat + 256 * FromLE(bs[1..]);
      assert v % 256 == bs[0] as nat;
      assert v / 256 == FromLE(bs[1..]);
      ToFromLE(bs[1..]);
    }
  }

  lemma ReverseReverse(s: seq<byte>)
    ensures Reverse(Reverse(s)) == s
  {
  }

  /** Whether v fits in n bytes, as a two's-complement (signed) or plain value. */
  predicate InRange(v: int, n: nat, signed: bool)
  {
    var p: int := Pow256(n);
    if signed then -p <= 2 * v < p else 0 <= v < p
  }

  /** The n-byte encoding of v ('<' when little, '>' otherwise). */
  function EncodeInt(v: int, n: nat, signed: bool, little: bool): (bs: seq<byte>)
    requires InRange(v, n, signed)
    ensures |bs| == n
  {
    var u: nat := if v < 0 then v + Pow256(n) else v;
    if little then ToLE(u, n) else ToBE(u, n)
  }

  /** The integer an encoding stands for. */
  function DecodeInt(bs: seq<byte>, signed: bool, little: bool): (v: int)
    ensures InRange(v, |bs|, signed)
  {
    var u := if little then FromLE(bs) else FromBE(bs);
    if signed && 2 * u >= Pow256(|bs|) then u - Pow256(|bs|) else u
  }

  lemma DecodeEncodeInt(v: int, n: nat, signed: bool, little: bool)
    requires InRange(v, n, signed)
    ensures DecodeInt(EncodeInt(v, n, signed, little), signed, little) == v
  {
    var u: nat := if v < 0 then v + Pow256(n) else v;
    assert u < Pow256(n);
    FromToLE(u, n);
    if !little {
      ReverseReverse(ToLE(u, n));
    }
  }

  lemma EncodeDecodeInt(bs: seq<byte>, signed: bool, little: bool)
    ensures EncodeInt(DecodeInt(bs, signed, little), |bs|, signed, little) == bs
  {
    var n := |bs|;
    var p := Pow256(n);
    var u := if little then FromLE(bs) else FromBE(bs);
    var v := DecodeInt(bs, signed, little);
    var u': nat := if v < 0 then v + p else v;
    assert u' == u by {
      if signed && 2 * u >= p {
        assert v == u - p < 0;
      } else {
        assert v == u;
      }
    }
    assert EncodeInt(v, n, signed, little) == if little then ToLE(u, n) else ToBE(u, n);
    if little {
      ToFromLE(bs);
    } else {
      ToFromLE(Reverse(bs));
      ReverseReverse(bs);
    }
  }
}
