/** Socket_Chain_XOR: every byte in either direction is XORed with one configured byte. */
module SocketChainXor {
  import opened Bytes
  import opened Keystream
  import opened LayerStream

  class SocketChainXOR {
    var xorByte: byte

    constructor ()
      ensures xorByte == 0x77
    {
      xorByte := 0x77;
    }

    /** What the layer hands over in either direction: WireOf with a constant mask. */
    method GetXorCopy(data: seq<byte>) returns (copy: seq<byte>)
      ensures copy == Xor(data, Repeat(xorByte, |data|))
      ensures |copy| == |data| && forall i :: 0 <= i < |data| ==> copy[i] == data[i] ^ xorByte
    {
      var b, i := xorByte, 0;
      var datacp := Repeat(0, |data|);
      while i < |data|
        invariant 0 <= i <= |data| == |datacp|
        invariant forall k :: 0 <= k < i ==> datacp[k] == data[k] ^ b
      {
        datacp := datacp[i := data[i] ^ b];
        i := i + 1;
      }
      ghost var want := Xor(data, Repeat(b, |data|));
      assert forall k :: 0 <= k < |data| ==> datacp[k] == want[k];
      copy := datacp;
    }

    /** `buffer` is the caller's buffer as the transport left it when it answered r; the transport is not
        even asked to fill an empty one. */
    method PartialRead(buffer: seq<byte>, r: int) returns (ret: int, data: seq<byte>)
      requires r <= |buffer|
      ensures ret == if buffer == [] then 0 else r
      ensures data == Sent(Xor(buffer, Repeat(xorByte, |buffer|)), r)
    {
      if buffer == [] {
        return 0, [];
      }
      if r <= 0 {
        return r, [];
      }
      data := GetXorCopy(buffer[..r]);
      ret := r;
    }

    /** The transport answers r; an empty write is not even offered to it. */
    method PartialWrite(data: seq<byte>, r: int) returns (ret: int, wire: seq<byte>)
      requires r <= |data|
      ensures ret == if data == [] then 0 else r
      ensures wire == Sent(Xor(data, Repeat(xorByte, |data|)), r)
    {
      if data == [] {
        return 0, [];
      }
      var datacp := GetXorCopy(data);
      return r, Sent(datacp, r);
    }
  }

  /** Byte by byte: whatever the position, the layer XORs with the one byte. */
  lemma XorLayerByte(g: Generator, s: Side, b: byte, data: seq<byte>, i: nat)
    requires i < |data|
    ensures WireOf(g, ConstMask(b), s, data)[i] == data[i] ^ b
    ensures forall plain :: |plain| == |data| ==> Masked(g, ConstMask(b), plain)[i] == plain[i] ^ b
  {
  }

  /** The XOR layer's bytes are those of the constant-mask half, and masking twice gives them back. */
  lemma XorLayerIsConstMask(g: Generator, s: Side, b: byte, data: seq<byte>)
    ensures WireOf(g, ConstMask(b), s, data) == Xor(data, Repeat(b, |data|))
    ensures WireOf(g, ConstMask(b), s, WireOf(g, ConstMask(b), s, data)) == data
  {
    XorTwice(data, Repeat(b, |data|));
  }
}
