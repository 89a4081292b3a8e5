/** Decoding of a snapshot block's raw bytes (`Snapshot.unpack_signal`).

    A snapshot is read as a byte string and reinterpreted with a numpy
    dtype: `np.int8` for the time-domain DRAM snapshot, big-endian signed
    64-bit (`'>i8'`) for the correlation snapshots. Both are big-endian
    two's-complement integers of `ItemSize` bytes. With `cvalue` set,
    consecutive integers are paired into complex values (real part first). */
module Snapshot {
  import opened Wrappers

  type Byte = b: int | 0 <= b < 256

  datatype DType = Int8 | BigEndianInt64

  datatype Complex = Complex(re: int, im: int)

  datatype Samples = Reals(ints: seq<int>) | Complexes(values: seq<Complex>)

  function ItemSize(d: DType): (w: nat)
    ensures w >= 1
  {
    match d
    case Int8 => 1
    case BigEndianInt64 => 8
  }

  function Pow256(n: nat): (r: nat)
    ensures r >= 1
  {
    if n == 0 then 1 else 256 * Pow256(n - 1)
  }

  /** The unsigned value of a big-endian byte string. */
  function BigEndianValue(bs: seq<Byte>): (u: nat)
    ensures u < Pow256(|bs|)
  {
    if |bs| == 0 then 0
    else BigEndianValue(bs[..|bs| - 1]) * 256 + bs[|bs| - 1]
  }

  /** The `n`-byte big-endian representation of `u` (modulo `256^n`). */
  function BigEndianBytes(u: nat, n: nat): (bs: seq<Byte>)
    ensures |bs| == n
  {
    if n == 0 then [] else BigEndianBytes(u / 256, n - 1) + [u % 256]
  }

  /** The two's-complement value of an `n`-byte unsigned pattern. */
  function Signed(u: nat, n: nat): int
  {
    if 2 * u < Pow256(n) then u else u - Pow256(n)
  }

  /** The unsigned pattern of a two's-complement value. */
  function Unsigned(x: int, n: nat): int
  {
    if x >= 0 then x else x + Pow256(n)
  }

  /** The range of an `n`-byte two's-complement integer. */
  predicate InRange(x: int, n: nat)
  {
    -(Pow256(n) as int) <= 2 * x < Pow256(n)
  }

  lemma {:induction false} BigEndianValueOfBytes(u: nat, n: nat)
    requires u < Pow256(n)
    ensures BigEndianValue(BigEndianBytes(u, n)) == u
  {
    if n > 0 {
      var bs := BigEndianBytes(u, n);
      assert bs[..n - 1] == BigEndianBytes(u / 256, n - 1);
      BigEndianValueOfBytes(u / 256, n - 1);
    }
  }

  lemma {:induction false} BigEndianBytesOfValue(bs: seq<Byte>)
    ensures BigEndianBytes(BigEndianValue(bs), |bs|) == bs
  {
    if |bs| > 0 {
      var init := bs[..|bs| - 1];
      var u := BigEndianValue(bs);
      assert u / 256 == BigEndianValue(init);
      assert u % 256 == bs[|bs| - 1];
      BigEndianBytesOfValue(init);
      assert bs == init + [bs[|bs| - 1]];
    }
  }

  /** Two's complement decoding inverts the encoding on the representable range. */
  lemma SignedOfUnsigned(x: int, n: nat)
    requires InRange(x, n)
    ensures 0 <= Unsigned(x, n) < Pow256(n)
    ensures Signed(Unsigned(x, n), n) == x
  {
  }

  /** Decode every whole `w`-byte group of `raw`, in order. */
  function DecodeItems(raw: seq<Byte>, w: nat): (r: seq<int>)
    requires w >= 1
    ensures |r| * w <= |raw| < |r| * w + w
    ensures forall k :: 0 <= k < |r| ==> InRange(r[k], w)
    decreases |raw|
  {
    if |raw| < w then []
    else
      var rest := DecodeItems(raw[w..], w);
      assert (|rest| + 1) * w == |rest| * w + w;
      [Signed(BigEndianValue(raw[..w]), w)] + rest
  }

  /** Group `w*k .. w*k+w-1` of `raw` decodes to item `k`, for the item
      width `w` of either dtype. */
  lemma {:induction false} DecodeItemsAt(raw: seq<Byte>, dtype: DType, k: nat)
    requires k < |DecodeItems(raw, ItemSize(dtype))|
    ensures var w := ItemSize(dtype);
            w * k + w <= |raw| &&
            DecodeItems(raw, w)[k] == Signed(BigEndianValue(raw[w * k .. w * k + w]), w)
    decreases k
  {
    var w := ItemSize(dtype);
    if k > 0 {
      var rest := raw[w..];
      assert DecodeItems(raw, w)[k] == DecodeItems(rest, w)[k - 1];
      DecodeItemsAt(rest, dtype, k - 1);
      DropWindow(raw, w, w * (k - 1));
    }
  }

  /** Window `m .. m+w-1` after dropping the first `w` bytes is window
      `m+w .. m+2w-1` of the whole buffer. */
  lemma DropWindow(raw: seq<Byte>, w: nat, m: nat)
    requires m + w + w <= |raw|
    ensures raw[w..][m .. m + w] == raw[m + w .. m + w + w]
  {
  }

  /** Pair consecutive integers into complex values, real part first. */
  function PairComplex(ints: seq<int>): (r: seq<Complex>)
    requires |ints| % 2 == 0
    ensures |r| == |ints| / 2
  {
    seq(|ints| / 2, k requires 0 <= k < |ints| / 2 => Complex(ints[2 * k], ints[2 * k + 1]))
  }

  /** The interleaved real/imaginary integers of complex values. */
  function FlattenComplex(cs: seq<Complex>): (r: seq<int>)
    ensures |r| == 2 * |cs|
  {
    if |cs| == 0 then [] else [cs[0].re, cs[0].im] + FlattenComplex(cs[1..])
  }

  /** `unpack_signal`: reinterpret the buffer as `dtype` integers and, when
      `cvalue` is set, as complex pairs. numpy rejects (ValueError) a buffer
      whose length is not a multiple of the item size, and a reinterpretation
      as complex of an odd number of components. */
  function UnpackSignal(raw: seq<Byte>, dtype: DType, cvalue: bool): (r: Result<Samples>)
    ensures r.Success? <==>
              |raw| % ItemSize(dtype) == 0 && (cvalue ==> (|raw| / ItemSize(dtype)) % 2 == 0)
    ensures r.Success? && !cvalue ==> r.value.Reals? && |r.value.ints| == |raw| / ItemSize(dtype)
    ensures r.Success? && cvalue ==>
              r.value.Complexes? && 2 * |r.value.values| == |raw| / ItemSize(dtype)
    ensures r.Success? && !cvalue ==> r.value.ints == DecodeItems(raw, ItemSize(dtype))
    ensures r.Success? && cvalue ==>
              var ints := DecodeItems(raw, ItemSize(dtype));
              forall k :: 0 <= k < |r.value.values| ==> r.value.values[k] == Complex(ints[2 * k], ints[2 * k + 1])
  {
    var w := ItemSize(dtype);
    assert w == 1 || w == 8;
    if |raw| % w != 0 then Failure(ValueError)
    else
      var ints := DecodeItems(raw, w);
      if !cvalue then Success(Reals(ints))
      else if |ints| % 2 != 0 then Failure(ValueError)
      else Success(Complexes(PairComplex(ints)))
  }

  /** Pairing and flattening are inverse. */
  lemma {:induction false} FlattenPairComplex(ints: seq<int>)
    requires |ints| % 2 == 0
    ensures FlattenComplex(PairComplex(ints)) == ints
    decreases |ints|
  {
    if |ints| > 0 {
      var rest := ints[2..];
      assert PairComplex(ints)[1..] == PairComplex(rest);
      FlattenPairComplex(rest);
      assert ints == [ints[0], ints[1]] + rest;
    }
  }

  /** With `np.int8` each byte is one sample, its two's-complement value. */
  lemma UnpackInt8(raw: seq<Byte>)
    ensures UnpackSignal(raw, Int8, false).Success?
    ensures var ints := UnpackSignal(raw, Int8, false).value.ints;
            |ints| == |raw| &&
            forall k :: 0 <= k < |raw| ==>
              -128 <= ints[k] <= 127 && ints[k] == (if raw[k] < 128 then raw[k] as int else raw[k] as int - 256)
  {
    var ints := DecodeItems(raw, 1);
    forall k | 0 <= k < |raw|
      ensures ints[k] == (if raw[k] < 128 then raw[k] as int else raw[k] as int - 256)
    {
      DecodeItemsAt(raw, Int8, k);
      assert raw[k..k + 1] == [raw[k]];
      assert BigEndianValue([raw[k]]) == raw[k];
    }
  }

  /** With `'>i8'` item `k` is bytes `8k .. 8k+7` read as a big-endian
      signed 64-bit integer. */
  lemma UnpackBigEndianInt64(raw: seq<Byte>, k: nat)
    requires |raw| % 8 == 0
    requires k < |raw| / 8
    ensures UnpackSignal(raw, BigEndianInt64, false).Success?
    ensures var ints := UnpackSignal(raw, BigEndianInt64, false).value.ints;
            |ints| == |raw| / 8 &&
            ints[k] == Signed(BigEndianValue(raw[8 * k .. 8 * k + 8]), 8) &&
            -0x8000_0000_0000_0000 <= ints[k] < 0x8000_0000_0000_0000
  {
    DecodeItemsAt(raw, BigEndianInt64, k);
    assert Pow256(8) == 0x1_0000_0000_0000_0000;
  }

  /** The byte string numpy would read back as `xs`. */
  function EncodeItems(xs: seq<int>, w: nat): (raw: seq<Byte>)
    requires forall k :: 0 <= k < |xs| ==> InRange(xs[k], w)
    ensures |raw| == w * |xs|
  {
    if |xs| == 0 then []
    else
      SignedOfUnsigned(xs[0], w);
      BigEndianBytes(Unsigned(xs[0], w), w) + EncodeItems(xs[1..], w)
  }

  /** Decoding inverts big-endian two's-complement encoding. */
  lemma {:induction false} DecodeEncodeItems(xs: seq<int>, w: nat)
    requires w >= 1
    requires forall k :: 0 <= k < |xs| ==> InRange(xs[k], w)
    ensures DecodeItems(EncodeItems(xs, w), w) == xs
  {
    var raw := EncodeItems(xs, w);
    if |xs| > 0 {
      var head := BigEndianBytes(Unsigned(xs[0], w), w);
      SignedOfUnsigned(xs[0], w);
      assert raw[..w] == head;
      assert raw[w..] == EncodeItems(xs[1..], w);
      BigEndianValueOfBytes(Unsigned(xs[0], w), w);
      DecodeEncodeItems(xs[1..], w);
      assert xs == [xs[0]] + xs[1..];
    }
  }

  /** Encoding integers in either dtype and unpacking them gives them back. */
  lemma UnpackEncodedReals(xs: seq<int>, dtype: DType)
    requires forall k :: 0 <= k < |xs| ==> InRange(xs[k], ItemSize(dtype))
    ensures UnpackSignal(EncodeItems(xs, ItemSize(dtype)), dtype, false) == Success(Reals(xs))
  {
    var w := ItemSize(dtype);
    DecodeEncodeItems(xs, w);
    MultipleOfItemSize(|xs|, dtype);
  }

  lemma MultipleOfItemSize(n: nat, dtype: DType)
    ensures (ItemSize(dtype) * n) % ItemSize(dtype) == 0
  {
    if dtype == BigEndianInt64 {
      assert (8 * n) % 8 == 0;
    }
  }

  /** A buffer of encoded 64-bit complex pairs unpacks to those pairs. */
  lemma UnpackEncodedComplex(cs: seq<Complex>)
    requires forall k :: 0 <= k < |cs| ==> InRange(cs[k].re, 8) && InRange(cs[k].im, 8)
    ensures forall k :: 0 <= k < |FlattenComplex(cs)| ==> InRange(FlattenComplex(cs)[k], 8)
    ensures UnpackSignal(EncodeItems(FlattenComplex(cs), 8), BigEndianInt64, true)
            == Success(Complexes(cs))
  {
    FlattenInRange(cs);
    var ints := FlattenComplex(cs);
    DecodeEncodeItems(ints, 8);
    PairFlattenComplex(cs);
  }

  lemma {:induction false} FlattenInRange(cs: seq<Complex>)
    requires forall k :: 0 <= k < |cs| ==> InRange(cs[k].re, 8) && InRange(cs[k].im, 8)
    ensures forall k :: 0 <= k < |FlattenComplex(cs)| ==> InRange(FlattenComplex(cs)[k], 8)
  {
    if |cs| > 0 {
      FlattenInRange(cs[1..]);
    }
  }

  /** Flattening and pairing are inverse the other way round too. */
  lemma {:induction false} PairFlattenComplex(cs: seq<Complex>)
    ensures PairComplex(FlattenComplex(cs)) == cs
  {
    var ints := FlattenComplex(cs);
    forall k | 0 <= k < |cs|
      ensures ints[2 * k] == cs[k].re && ints[2 * k + 1] == cs[k].im
    {
      FlattenComplexAt(cs, k);
    }
  }

  lemma {:induction false} FlattenComplexAt(cs: seq<Complex>, k: nat)
    requires k < |cs|
    ensures FlattenComplex(cs)[2 * k] == cs[k].re
    ensures FlattenComplex(cs)[2 * k + 1] == cs[k].im
  {
    if k > 0 {
      FlattenComplexAt(cs[1..], k - 1);
    }
  }
}
