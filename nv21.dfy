/**
 * The NV21 packing of `ImageProxy.toBitmap`: the remaining bytes of the Y,
 * U and V plane buffers are read, with bulk `ByteBuffer.get`, into one array
 * in the order Y, V, U.
 */
module Nv21 {

  newtype byte = b: int | 0 <= b < 256

  /** The NV21 byte layout: all of Y, then V, then U. */
  function Layout(y: seq<byte>, u: seq<byte>, v: seq<byte>): seq<byte> {
    y + v + u
  }

  /** Reads the three planes back out of an NV21 array, given the Y and V plane sizes. */
  function Planes(nv21: seq<byte>, ySize: nat, vSize: nat): (planes: (seq<byte>, seq<byte>, seq<byte>))
    requires ySize + vSize <= |nv21|
    ensures |planes.0| == ySize && |planes.2| == vSize
    ensures |planes.0| + |planes.1| + |planes.2| == |nv21|
  {
    (nv21[..ySize], nv21[ySize + vSize..], nv21[ySize..ySize + vSize])
  }

  /** The layout puts each plane at its fixed offset and loses nothing. */
  lemma LayoutPlanes(y: seq<byte>, u: seq<byte>, v: seq<byte>)
    ensures |Layout(y, u, v)| == |y| + |u| + |v|
    ensures Layout(y, u, v)[..|y|] == y
    ensures Layout(y, u, v)[|y|..|y| + |v|] == v
    ensures Layout(y, u, v)[|y| + |v|..] == u
    ensures Planes(Layout(y, u, v), |y|, |v|) == (y, u, v)
  {
  }

  /** Cutting an NV21 array into its planes and laying them out again gives the array back. */
  lemma PlanesLayout(nv21: seq<byte>, ySize: nat, vSize: nat)
    requires ySize + vSize <= |nv21|
    ensures var (y, u, v) := Planes(nv21, ySize, vSize); Layout(y, u, v) == nv21
  {
  }

  /** A `java.nio.ByteBuffer` read from its position up to its limit. */
  class ByteBuffer {
    /** The bytes from index 0 up to the limit. */
    var data: seq<byte>
    var position: nat

    ghost predicate Valid()
      reads this
    {
      position <= |data|
    }

    /** `remaining()`. */
    function Remaining(): (n: nat)
      reads this
      requires Valid()
      ensures n == |Rest()|
    {
      |data| - position
    }

    /** The bytes `remaining()` counts. */
    function Rest(): seq<byte>
      reads this
      requires Valid()
    {
      data[position..]
    }

    constructor (content: seq<byte>)
      ensures Valid() && data == content && position == 0 && Rest() == content
    {
      data := content;
      position := 0;
    }

    /**
     * `get(dst, offset, length)`: copies the next `length` bytes into
     * `dst[offset..offset + length]` and advances the position past them.
     * Java throws when fewer than `length` bytes remain or the range does not
     * fit `dst`; `toBitmap` sizes every call so that neither happens.
     */
    method Get(dst: array<byte>, offset: nat, length: nat)
      requires Valid() && length <= Remaining() && offset + length <= dst.Length
      modifies this, dst
      ensures Valid() && data == old(data) && position == old(position) + length
      ensures dst[..offset] == old(dst[..offset])
      ensures dst[offset..offset + length] == old(Rest())[..length]
      ensures dst[offset + length..] == old(dst[offset + length..])
    {
      ghost var start := position;
      var i := 0;
      while i < length
        invariant 0 <= i <= length && Valid() && data == old(data)
        invariant position == start + i
        invariant forall k | 0 <= k < offset :: dst[k] == old(dst[k])
        invariant forall k | offset <= k < offset + i :: dst[k] == data[start + k - offset]
        invariant forall k | offset + length <= k < dst.Length :: dst[k] == old(dst[k])
      {
        dst[offset + i] := data[position];
        position := position + 1;
        i := i + 1;
      }
    }
  }

  /** Lines 631-643 of `toBitmap`: size the array from `remaining()` and fill it Y, V, U. */
  method PackNv21(yBuffer: ByteBuffer, uBuffer: ByteBuffer, vBuffer: ByteBuffer) returns (nv21: array<byte>)
    requires yBuffer.Valid() && uBuffer.Valid() && vBuffer.Valid()
    requires yBuffer != uBuffer && yBuffer != vBuffer && uBuffer != vBuffer
    modifies yBuffer, uBuffer, vBuffer
    ensures fresh(nv21)
    ensures nv21.Length == old(yBuffer.Remaining() + uBuffer.Remaining() + vBuffer.Remaining())
    ensures nv21[..] == Layout(old(yBuffer.Rest()), old(uBuffer.Rest()), old(vBuffer.Rest()))
    ensures yBuffer.Valid() && uBuffer.Valid() && vBuffer.Valid()
    ensures yBuffer.data == old(yBuffer.data) && uBuffer.data == old(uBuffer.data) && vBuffer.data == old(vBuffer.data)
    ensures yBuffer.Remaining() == 0 && uBuffer.Remaining() == 0 && vBuffer.Remaining() == 0
  {
    ghost var y, u, v := yBuffer.Rest(), uBuffer.Rest(), vBuffer.Rest();
    var ySize := yBuffer.Remaining();
    var uSize := uBuffer.Remaining();
    var vSize := vBuffer.Remaining();

    nv21 := new byte[ySize + uSize + vSize];

    yBuffer.Get(nv21, 0, ySize);
    vBuffer.Get(nv21, ySize, vSize);
    assert nv21[..ySize] == y;
    assert nv21[ySize..ySize + vSize] == v;
    ghost var yv := nv21[..ySize + vSize];
    assert yv == y + v by {
      assert yv == nv21[..ySize] + nv21[ySize..ySize + vSize];
    }
    uBuffer.Get(nv21, ySize + vSize, uSize);
    assert nv21[..] == yv + u by {
      assert nv21[..] == nv21[..ySize + vSize] + nv21[ySize + vSize..];
    }
  }
}
