/** The in-memory form of a Go `uint64` on a little-endian 64-bit target:
    eight bytes, least significant first, aligned to 8. This is what a
    write through `*Ptr[uint64].Deref()` leaves in the allocator's bytes. */
module LittleEndian {
  import opened Base
  import opened Buffers

  /** 256 to the power `n`. */
  function Pow256(n: nat): (p: nat)
    ensures p > 0
  {
    if n == 0 then 1 else 256 * Pow256(n - 1)
  }

  const U64Bound: nat := 0x1_0000_0000_0000_0000

  /** Go's `uint64`. */
  type U64 = x: nat | x < U64Bound

  /** `v` as `n` bytes, least significant first. */
  function Encode(v: nat, n: nat): (bs: seq<byte>)
    requires v < Pow256(n)
    ensures |bs| == n
  {
    if n == 0 then [] else [(v % 256) as byte] + Encode(v / 256, n - 1)
  }

  /** The number whose little-endian bytes are `bs`. */
  function Decode(bs: seq<byte>): (v: nat)
    ensures v < Pow256(|bs|)
  {
    if |bs| == 0 then 0 else bs[0] as nat + 256 * Decode(bs[1..])
  }

  /** Decoding undoes encoding. */
  lemma {:induction false} DecodeEncode(v: nat, n: nat)
    requires v < Pow256(n)
    ensures Decode(Encode(v, n)) == v
  {
    if n > 0 {
      DecodeEncode(v / 256, n - 1);
      assert Encode(v, n)[1..] == Encode(v / 256, n - 1);
    }
  }

  /** Encoding undoes decoding: every byte string is the encoding of
      exactly one number. */
  lemma {:induction false} EncodeDecode(bs: seq<byte>)
    ensures Encode(Decode(bs), |bs|) == bs
  {
    if |bs| > 0 {
      EncodeDecode(bs[1..]);
      var v := Decode(bs);
      assert v % 256 == bs[0] as nat;
      assert v / 256 == Decode(bs[1..]);
      assert bs == [bs[0]] + bs[1..];
    }
  }

  lemma Pow256Eight()
    ensures Pow256(8) == U64Bound
  {
    calc {
      Pow256(8);
      256 * 256 * 256 * 256 * 256 * 256 * 256 * 256 * Pow256(0);
    }
  }

  function EncodeU64(v: U64): (bs: seq<byte>)
    ensures |bs| == 8
  {
    Pow256Eight();
    Encode(v, 8)
  }

  /** The value of eight bytes; other lengths never arise. */
  function DecodeU64(bs: seq<byte>): (v: U64)
    ensures |bs| == 8 ==> Encode(v, 8) == bs
  {
    Pow256Eight();
    if |bs| == 8 then
      EncodeDecode(bs);
      Decode(bs)
    else 0
  }

  /** `unsafe.Sizeof(uint64(0))`, `unsafe.Alignof(uint64(0))`, the zero
      value, and the byte codec. */
  function U64Layout(): (l: Layout<byte, U64>)
    ensures l.Valid() && l.size == 8 && l.align == 8
  {
    assert forall v: U64 {:trigger EncodeU64(v)} :: DecodeU64(EncodeU64(v)) == v by {
      forall v: U64
        ensures DecodeU64(EncodeU64(v)) == v
      {
        Pow256Eight();
        DecodeEncode(v, 8);
      }
    }
    Layout(8, 8, 0, EncodeU64, DecodeU64)
  }
}
