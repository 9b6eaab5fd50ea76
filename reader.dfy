/**
 * `io.njlr.bytes.BytesReader`: a cursor over a `Bytes` that decodes bytes and
 * big- or little-endian `int`s from the current index.
 *
 * The index is a Java `int`: `skip` adds to it with 32-bit wrap-around and no
 * check, so it may leave the bytes in either direction; only the reads
 * require it to be in range, as `Bytes.get` does.
 */
module Reader {
  import opened Primitives
  import opened Encoding
  import opened ImmutableBytes

  class BytesReader {
    const bytes: Bytes
    var index: JInt
    var endianness: ByteOrder

    /** The bytes fit a Java array, and the default order is the one the constructor sets: nothing changes it. */
    ghost predicate Valid()
      reads this
    {
      |bytes.value| <= IntMax && endianness == BigEndian
    }

    /** `new BytesReader(bytes)`: at index 0, big-endian. */
    constructor (bytes: Bytes)
      requires |bytes.value| <= IntMax
      ensures Valid() && this.bytes == bytes && index == 0
    {
      this.bytes := bytes;
      index := 0;
      endianness := BigEndian;
    }

    /** `remaining()`: `length() - index` in 32-bit arithmetic. */
    function Remaining(): (n: JInt)
      reads this
      ensures IntMin <= |bytes.value| - index <= IntMax ==> n == |bytes.value| - index
      ensures 0 <= index <= |bytes.value| <= IntMax ==> n == |bytes.value[index..]|
    {
      Wrap32(bytes.Length() - index)
    }

    /** `skip(n)`: moves the index by `n` with no bounds check. */
    method Skip(n: JInt)
      requires Valid()
      modifies this
      ensures Valid() && index == Wrap32(old(index) + n)
      ensures IntMin <= old(index) + n <= IntMax ==> index == old(index) + n
      ensures 0 <= old(index) <= |bytes.value| && 0 <= old(index) + n <= |bytes.value| ==>
                Remaining() == old(Remaining()) - n
    {
      index := Wrap32(index + n);
    }

    /** `readByte()`: `bytes.get(index++)`. */
    method ReadByte() returns (b: JByte)
      requires Valid() && 0 <= index < |bytes.value|
      modifies this
      ensures Valid() && b == bytes.value[old(index)]
      ensures index == old(index) + 1 && Remaining() == old(Remaining()) - 1
    {
      b := bytes.Get(index);
      index := index + 1;
    }

    /**
     * `readInt(endianness)`: four bytes read in turn as `b3, b2, b1, b0`;
     * big-endian puts `b3` highest and little-endian puts `b0` highest.
     */
    method ReadIntWithOrder(endianness: ByteOrder) returns (v: bv32)
      requires Valid() && 0 <= index && index + 4 <= |bytes.value|
      modifies this
      ensures Valid() && v == DecodeInt(bytes.value[old(index)..old(index) + 4], endianness)
      ensures index == old(index) + 4 && Remaining() == old(Remaining()) - 4
    {
      ghost var start := index;
      var b3 := ReadByte();
      var b2 := ReadByte();
      var b1 := ReadByte();
      var b0 := ReadByte();
      assert bytes.value[start..start + 4] == [b3, b2, b1, b0];
      if endianness == BigEndian {
        v := ((b3 as bv32) << 24) | ((b2 as bv32) << 16) | ((b1 as bv32) << 8) | (b0 as bv32);
      } else {
        v := ((b0 as bv32) << 24) | ((b1 as bv32) << 16) | ((b2 as bv32) << 8) | (b3 as bv32);
      }
      DecodeFour(b3, b2, b1, b0);
    }

    /** `readInt()`: in the reader's default order, which is always big-endian. */
    method ReadInt() returns (v: bv32)
      requires Valid() && 0 <= index && index + 4 <= |bytes.value|
      modifies this
      ensures Valid() && v == DecodeInt(bytes.value[old(index)..old(index) + 4], BigEndian)
      ensures index == old(index) + 4
    {
      v := ReadIntWithOrder(endianness);
    }

    /** `readRemaining()`: `bytes.sub(index)`, which leaves the index where it is. */
    method ReadRemaining() returns (r: Bytes)
      requires Valid() && 0 <= index <= |bytes.value|
      ensures r.value == bytes.value[index..] && |r.value| == Remaining()
      ensures bytes.value == bytes.value[..index] + r.value
    {
      r := bytes.SubFrom(index);
    }

    /** `reset()`: back to index 0 and big-endian. */
    method Reset()
      requires Valid()
      modifies this
      ensures Valid() && index == 0 && endianness == BigEndian
    {
      index := 0;
      endianness := BigEndian;
    }
  }
}
