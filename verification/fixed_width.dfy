/** Fixed-width integer encoding as numpy's `tobytes` / `frombuffer` lay it
    out on a little-endian machine: `w` bytes, least significant first,
    negative values in two's complement. */
module FixedWidth {
  import opened Bits

  /** Number of distinct values of a `w`-byte integer. */
  function Radix(w: nat): (r: nat)
    ensures r >= 1
  {
    if w == 0 then 1 else 256 * Radix(w - 1)
  }

  /** Inclusive range of a signed `w`-byte integer. */
  predicate SignedFits(x: int, w: nat)
  {
    w > 0 && -(Radix(w) / 2) <= x < Radix(w) / 2
  }

  predicate UnsignedFits(x: int, w: nat)
  {
    0 <= x < Radix(w)
  }

  /** The low `w` bytes of `x`, least significant first. */
  function EncodeUnsigned(x: nat, w: nat): (r: seq<Byte>)
    ensures |r| == w
  {
    if w == 0 then [] else [x % 256] + EncodeUnsigned(x / 256, w - 1)
  }

  /** The unsigned value of a little-endian byte string. */
  function DecodeUnsigned(bytes: seq<Byte>): (r: nat)
    ensures r < Radix(|bytes|)
  {
    if |bytes| == 0 then 0 else bytes[0] + 256 * DecodeUnsigned(bytes[1..])
  }

  lemma {:induction false} DecodeEncodeUnsigned(x: nat, w: nat)
    requires x < Radix(w)
    ensures DecodeUnsigned(EncodeUnsigned(x, w)) == x
  {
    if w > 0 {
      var r := EncodeUnsigned(x, w);
      assert r[1..] == EncodeUnsigned(x / 256, w - 1);
      DecodeEncodeUnsigned(x / 256, w - 1);
    }
  }

  lemma {:induction false} EncodeDecodeUnsigned(bytes: seq<Byte>)
    ensures EncodeUnsigned(DecodeUnsigned(bytes), |bytes|) == bytes
  {
    if |bytes| > 0 {
      var v := DecodeUnsigned(bytes);
      assert v % 256 == bytes[0];
      assert v / 256 == DecodeUnsigned(bytes[1..]);
      EncodeDecodeUnsigned(bytes[1..]);
      assert bytes == [bytes[0]] + bytes[1..];
    }
  }

  /** Two's complement: a value is stored as its residue modulo `Radix(w)`. */
  function EncodeSigned(x: int, w: nat): (r: seq<Byte>)
    ensures |r| == w
  {
    EncodeUnsigned(x % Radix(w), w)
  }

  /** Two's complement read-back: residues in the upper half are negative. */
  function DecodeSigned(bytes: seq<Byte>): (r: int)
    requires |bytes| > 0
    ensures SignedFits(r, |bytes|)
  {
    var u := DecodeUnsigned(bytes);
    RadixEven(|bytes|);
    if u >= Radix(|bytes|) / 2 then u - Radix(|bytes|) else u
  }

  lemma {:induction false} RadixEven(w: nat)
    requires w > 0
    ensures Radix(w) % 2 == 0
  {
  }

  /** Residues of values one modulus below zero. */
  lemma ModOfNegative(x: int, m: int)
    requires m > 0 && -m <= x < 0
    ensures x % m == x + m
  {
    assert x / m == -1 by {
      assert x == m * (-1) + (x + m);
      assert 0 <= x + m < m;
    }
  }

  lemma ModOfSmall(x: int, m: int)
    requires 0 <= x < m
    ensures x % m == x
  {
  }

  lemma SignedRoundTrip(x: int, w: nat)
    requires SignedFits(x, w)
    ensures DecodeSigned(EncodeSigned(x, w)) == x
  {
    var m := Radix(w);
    RadixEven(w);
    if x < 0 {
      ModOfNegative(x, m);
    } else {
      ModOfSmall(x, m);
    }
    DecodeEncodeUnsigned(x % m, w);
  }

  lemma SignedEncodeDecode(bytes: seq<Byte>)
    requires |bytes| > 0
    ensures EncodeSigned(DecodeSigned(bytes), |bytes|) == bytes
  {
    var w := |bytes|;
    var m: int := Radix(w);
    RadixEven(w);
    var u: int := DecodeUnsigned(bytes);
    var v := DecodeSigned(bytes);
    if u >= m / 2 {
      assert v == u as int - m;
      ModOfNegative(v, m);
    } else {
      ModOfSmall(v, m);
    }
    assert v % m == u;
    EncodeDecodeUnsigned(bytes);
  }
}
