/** Bytes, fixed-width integers and big-endian numbers, shared by the models of all byte formats. */
module Bytes {

  type byte = x: int | 0 <= x < 256
  type bytes = seq<byte>

  const U16_LIMIT := 0x1_0000
  const U32_LIMIT := 0x1_0000_0000
  const I32_LIMIT := 0x8000_0000
  const U64_LIMIT := 0x1_0000_0000_0000_0000
  const I64_LIMIT := 0x8000_0000_0000_0000

  datatype Option<+T> = None | Some(value: T)

  /** 256 to the power n: the number of n-byte strings. */
  function Pow256(n: nat): (r: nat)
    ensures r > 0
  {
    if n == 0 then 1 else 256 * Pow256(n - 1)
  }

  /** The number a byte string spells, most significant byte first (ntohs, ntohl and the shift-and-or folds). */
  function FromBe(bs: bytes): nat {
    if bs == [] then 0 else FromBe(bs[..|bs| - 1]) * 256 + bs[|bs| - 1]
  }

  /** The low n bytes of v, most significant first. */
  function ToBe(v: nat, n: nat): (bs: bytes)
    ensures |bs| == n
  {
    if n == 0 then [] else ToBe(v / 256, n - 1) + [v % 256]
  }

  lemma {:induction false} FromBeBound(bs: bytes)
    ensures FromBe(bs) < Pow256(|bs|)
  {
    if bs == [] {
    } else {
      FromBeBound(bs[..|bs| - 1]);
    }
  }

  /** Writing n bytes and reading them back gives the number, for every number that fits. */
  lemma {:induction false} BeRoundTrip(v: nat, n: nat)
    requires v < Pow256(n)
    ensures FromBe(ToBe(v, n)) == v
  {
    if n == 0 {
    } else {
      BeRoundTrip(v / 256, n - 1);
      assert ToBe(v, n)[..n - 1] == ToBe(v / 256, n - 1);
    }
  }

  /** Reading n bytes and writing them back gives the bytes: with BeRoundTrip, a bijection. */
  lemma {:induction false} BeRoundTripBytes(bs: bytes)
    ensures ToBe(FromBe(bs), |bs|) == bs
  {
    if bs == [] {
    } else {
      var n := |bs| - 1;
      BeRoundTripBytes(bs[..n]);
      assert FromBe(bs) / 256 == FromBe(bs[..n]) && FromBe(bs) % 256 == bs[n];
      assert bs == bs[..n] + [bs[n]];
    }
  }

  lemma Be2(b0: byte, b1: byte)
    ensures FromBe([b0, b1]) == b0 * 256 + b1
  {
    assert [b0, b1][..1] == [b0] && [b0][..0] == [];
    assert FromBe([b0]) == b0;
  }

  lemma Be4(b0: byte, b1: byte, b2: byte, b3: byte)
    ensures FromBe([b0, b1, b2, b3]) == ((b0 * 256 + b1) * 256 + b2) * 256 + b3
  {
    assert [b0, b1, b2, b3][..3] == [b0, b1, b2] && [b0, b1, b2][..2] == [b0, b1];
    Be2(b0, b1);
    assert FromBe([b0, b1, b2]) == FromBe([b0, b1]) * 256 + b2;
  }

  lemma Pow256Values()
    ensures Pow256(1) == 256 && Pow256(2) == U16_LIMIT && Pow256(4) == U32_LIMIT && Pow256(8) == U64_LIMIT
  {
    assert Pow256(4) == 256 * (256 * Pow256(2));
    assert Pow256(8) == 256 * (256 * Pow256(6)) && Pow256(6) == 256 * (256 * Pow256(4));
  }

  /** Two's complement reading of an unsigned 16-bit value. */
  function AsI16(v: nat): int
    requires v < U16_LIMIT
  {
    if v < 0x8000 then v else v - U16_LIMIT
  }

  /** Two's complement reading of an unsigned 32-bit value. */
  function AsI32(v: nat): int
    requires v < U32_LIMIT
  {
    if v < I32_LIMIT then v else v - U32_LIMIT
  }
}
