/** Bytes, bit strings, and the bit packing numpy applies to boolean arrays
    (`packbits` / `unpackbits` with the default big-endian bit order: the
    first boolean of each group of eight is the most significant bit). */
module Bits {

  type Byte = b: int | 0 <= b < 256

  function Pow2(n: nat): (r: nat)
    ensures r >= 1
  {
    if n == 0 then 1 else 2 * Pow2(n - 1)
  }

  lemma {:induction false} Pow2Add(a: nat, b: nat)
    ensures Pow2(a + b) == Pow2(a) * Pow2(b)
  {
    if b > 0 {
      Pow2Add(a, b - 1);
    }
  }

  lemma {:induction false} Pow2Monotonic(a: nat, b: nat)
    requires a <= b
    ensures Pow2(a) <= Pow2(b)
  {
    if a < b {
      Pow2Monotonic(a, b - 1);
    }
  }

  /** The unsigned value of a bit string read most significant bit first. */
  function FromBits(bits: seq<bool>): (r: nat)
    ensures r < Pow2(|bits|)
  {
    if |bits| == 0 then 0
    else 2 * FromBits(bits[..|bits| - 1]) + (if bits[|bits| - 1] then 1 else 0)
  }

  /** The low `w` bits of `x`, most significant bit first. */
  function ToBits(x: nat, w: nat): (r: seq<bool>)
    ensures |r| == w
  {
    if w == 0 then [] else ToBits(x / 2, w - 1) + [x % 2 == 1]
  }

  lemma {:induction false} FromBitsToBits(x: nat, w: nat)
    requires x < Pow2(w)
    ensures FromBits(ToBits(x, w)) == x
  {
    if w > 0 {
      var r := ToBits(x, w);
      assert r == ToBits(x / 2, w - 1) + [x % 2 == 1];
      assert r[..w - 1] == ToBits(x / 2, w - 1);
      assert r[w - 1] == (x % 2 == 1);
      assert Pow2(w) == 2 * Pow2(w - 1);
      assert x / 2 < Pow2(w - 1);
      FromBitsToBits(x / 2, w - 1);
      assert FromBits(r) == 2 * FromBits(ToBits(x / 2, w - 1)) + (if r[w - 1] then 1 else 0);
    }
  }

  lemma {:induction false} ToBitsFromBits(bits: seq<bool>)
    ensures ToBits(FromBits(bits), |bits|) == bits
  {
    var n := |bits|;
    if n > 0 {
      var front := bits[..n - 1];
      var v := FromBits(bits);
      assert v / 2 == FromBits(front);
      assert (v % 2 == 1) == bits[n - 1];
      ToBitsFromBits(front);
      assert bits == front + [bits[n - 1]];
    }
  }

  function Zeros(n: nat): (r: seq<bool>)
    ensures |r| == n
    ensures forall i :: 0 <= i < n ==> !r[i]
  {
    seq(n, _ => false)
  }

  /** Number of zero bits `packbits` appends to `n` booleans to fill the last byte. */
  function PadLength(n: nat): nat
  {
    (8 - n % 8) % 8
  }

  /** `np.packbits(bits)`: eight booleans per byte, first one most significant;
      a short final group is padded with zero bits. */
  function PackBits(bits: seq<bool>): (r: seq<Byte>)
    ensures |r| == (|bits| + 7) / 8
    decreases |bits|
  {
    if |bits| == 0 then []
    else if |bits| < 8 then [FromBits(bits + Zeros(8 - |bits|))]
    else [FromBits(bits[..8])] + PackBits(bits[8..])
  }

  /** `np.unpackbits(bytes)`: eight booleans per byte, most significant first. */
  function UnpackBits(bytes: seq<Byte>): (r: seq<bool>)
    ensures |r| == 8 * |bytes|
  {
    if |bytes| == 0 then [] else ToBits(bytes[0], 8) + UnpackBits(bytes[1..])
  }

  /** One short final group: unpacking its byte gives the group and its padding. */
  lemma {:induction false} UnpackPackShortGroup(bits: seq<bool>)
    requires 0 < |bits| < 8
    ensures UnpackBits(PackBits(bits)) == bits + Zeros(PadLength(|bits|))
  {
    var group := bits + Zeros(8 - |bits|);
    assert PadLength(|bits|) == 8 - |bits|;
    calc {
      UnpackBits(PackBits(bits));
      UnpackBits([FromBits(group)]);
      { UnpackOneByte(FromBits(group)); }
      ToBits(FromBits(group), 8);
      { ToBitsFromBits(group); }
      group;
    }
  }

  lemma UnpackOneByte(b: Byte)
    ensures UnpackBits([b]) == ToBits(b, 8)
  {
    assert [b][1..] == [];
  }

  /** A full first group: unpacking its byte gives the group back, and the
      rest unpacks as it did on its own. */
  lemma {:induction false} UnpackPackFullGroup(bits: seq<bool>)
    requires |bits| >= 8
    requires UnpackBits(PackBits(bits[8..])) == bits[8..] + Zeros(PadLength(|bits| - 8))
    ensures UnpackBits(PackBits(bits)) == bits + Zeros(PadLength(|bits|))
  {
    var group := bits[..8];
    var rest := bits[8..];
    var pad := Zeros(PadLength(|bits|));
    assert PadLength(|bits|) == PadLength(|rest|);
    calc {
      UnpackBits(PackBits(bits));
      UnpackBits([FromBits(group)] + PackBits(rest));
      { UnpackCons(FromBits(group), PackBits(rest)); }
      ToBits(FromBits(group), 8) + UnpackBits(PackBits(rest));
      { ToBitsFromBits(group); }
      group + (rest + pad);
      { assert group + rest == bits; }
      bits + pad;
    }
  }

  lemma UnpackCons(b: Byte, bs: seq<Byte>)
    ensures UnpackBits([b] + bs) == ToBits(b, 8) + UnpackBits(bs)
  {
    assert ([b] + bs)[1..] == bs;
  }

  /** Unpacking what was packed gives the original booleans followed by the
      zero padding bits of the final byte. */
  lemma {:induction false} UnpackPackBits(bits: seq<bool>)
    ensures UnpackBits(PackBits(bits)) == bits + Zeros(PadLength(|bits|))
    decreases |bits|
  {
    var n := |bits|;
    if 0 < n < 8 {
      UnpackPackShortGroup(bits);
    } else if n >= 8 {
      UnpackPackBits(bits[8..]);
      UnpackPackFullGroup(bits);
    }
  }

  /** What the boolean decoder relies on: keeping the first `|bits|` unpacked
      bits recovers the packed booleans exactly, for any count. */
  lemma UnpackPackPrefix(bits: seq<bool>)
    ensures |UnpackBits(PackBits(bits))| >= |bits|
    ensures UnpackBits(PackBits(bits))[..|bits|] == bits
  {
    UnpackPackBits(bits);
  }

  /** The padding bits of the final byte are zero. */
  lemma PackBitsPaddingZero(bits: seq<bool>)
    ensures forall i :: |bits| <= i < 8 * |PackBits(bits)| ==> !UnpackBits(PackBits(bits))[i]
  {
    UnpackPackBits(bits);
  }

  /** Packing an unpacked byte string restores it. */
  lemma {:induction false} PackUnpackBits(bytes: seq<Byte>)
    ensures PackBits(UnpackBits(bytes)) == bytes
  {
    if |bytes| > 0 {
      var u := UnpackBits(bytes);
      var head := ToBits(bytes[0], 8);
      assert u[..8] == head;
      assert u[8..] == UnpackBits(bytes[1..]);
      FromBitsToBits(bytes[0], 8);
      PackUnpackBits(bytes[1..]);
    }
  }

  lemma {:induction false} FromBitsAppend(bits: seq<bool>, b: bool)
    ensures FromBits(bits + [b]) == 2 * FromBits(bits) + (if b then 1 else 0)
  {
    assert (bits + [b])[..|bits|] == bits;
  }

  lemma {:induction false} FromBitsLeadingOne(k: nat)
    ensures FromBits([true] + Zeros(k)) == Pow2(k)
  {
    if k > 0 {
      FromBitsLeadingOne(k - 1);
      assert [true] + Zeros(k) == ([true] + Zeros(k - 1)) + [false];
      FromBitsAppend([true] + Zeros(k - 1), false);
    }
  }

  lemma {:induction false} FromBitsZeros(k: nat)
    ensures FromBits(Zeros(k)) == 0
  {
    if k > 0 {
      FromBitsZeros(k - 1);
      assert Zeros(k) == Zeros(k - 1) + [false];
      FromBitsAppend(Zeros(k - 1), false);
    }
  }

  /** The bit order is most significant first: a single `true` packs to 128,
      and a `true` in the eighth place packs to 1. */
  lemma PackBitsMostSignificantFirst()
    ensures PackBits([true]) == [128]
    ensures PackBits(Zeros(7) + [true]) == [1]
  {
    FromBitsLeadingOne(7);
    assert Pow2(7) == 128;
    FromBitsZeros(7);
    FromBitsAppend(Zeros(7), true);
    var last := Zeros(7) + [true];
    assert last[..8] == last;
    assert last[8..] == [];
  }
}
