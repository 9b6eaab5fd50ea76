/**
 * The fixed-width byte encodings the builder appends and the reader decodes.
 *
 * Java's `(byte)(x >> k)` keeps bits k..k+7 of `x`; for the shift amounts used
 * here an arithmetic and a logical shift agree on those bits, so Dafny's
 * logical `>>` on bit-vectors models it exactly.
 */
module Encoding {
  import opened Primitives

  /** `(byte) x` for a 16-bit value (a Java `char` or `short`). */
  function Low16(x: bv16): JByte { (x & 0xFF) as JByte }

  /** `(byte) x` for a Java `int`. */
  function Low32(x: bv32): JByte { (x & 0xFF) as JByte }

  /** `(byte) x` for a Java `long`. */
  function Low64(x: bv64): JByte { (x & 0xFF) as JByte }

  /** `appendBoolean`: one byte, 1 for true and 0 for false. */
  function EncodeBoolean(b: bool): (r: seq<JByte>)
    ensures |r| == 1
  {
    if b then [1] else [0]
  }

  /** `appendChar` and `appendShort`: the two bytes of a 16-bit value. */
  function Encode16(x: bv16, order: ByteOrder): (r: seq<JByte>)
    ensures |r| == 2
  {
    match order
    case BigEndian => [Low16(x >> 8), Low16(x)]
    case LittleEndian => [Low16(x), Low16(x >> 8)]
  }

  /** `appendInt`: the four bytes of a Java `int`. */
  function EncodeInt(x: bv32, order: ByteOrder): (r: seq<JByte>)
    ensures |r| == 4
  {
    match order
    case BigEndian => [Low32(x >> 24), Low32(x >> 16), Low32(x >> 8), Low32(x)]
    case LittleEndian => [Low32(x), Low32(x >> 8), Low32(x >> 16), Low32(x >> 24)]
  }

  /** `appendLong`: the eight bytes of a Java `long`. */
  function EncodeLong(x: bv64, order: ByteOrder): (r: seq<JByte>)
    ensures |r| == 8
  {
    match order
    case BigEndian =>
      [Low64(x >> 56), Low64(x >> 48), Low64(x >> 40), Low64(x >> 32),
       Low64(x >> 24), Low64(x >> 16), Low64(x >> 8), Low64(x)]
    case LittleEndian =>
      [Low64(x), Low64(x >> 8), Low64(x >> 16), Low64(x >> 24),
       Low64(x >> 32), Low64(x >> 40), Low64(x >> 48), Low64(x >> 56)]
  }

  /**
   * `BytesReader.readInt`: four bytes in the order they are read; big-endian
   * takes the first as most significant, little-endian the last.
   * `b as bv32` is Java's `b & 0xff`.
   */
  function DecodeInt(s: seq<JByte>, order: ByteOrder): (r: bv32)
    requires |s| == 4
    ensures EncodeInt(r, order) == s
  {
    Join32(s[0], s[1], s[2], s[3]);
    Join32(s[3], s[2], s[1], s[0]);
    assert s == [s[0], s[1], s[2], s[3]];
    match order
    case BigEndian => ((s[0] as bv32) << 24) | ((s[1] as bv32) << 16) | ((s[2] as bv32) << 8) | (s[3] as bv32)
    case LittleEndian => ((s[3] as bv32) << 24) | ((s[2] as bv32) << 16) | ((s[1] as bv32) << 8) | (s[0] as bv32)
  }

  /** Four bytes joined most significant first are the four bytes `appendInt` cuts back out. */
  lemma Join32(a: JByte, b: JByte, c: JByte, d: JByte)
    ensures var x := ((a as bv32) << 24) | ((b as bv32) << 16) | ((c as bv32) << 8) | (d as bv32);
      Low32(x >> 24) == a && Low32(x >> 16) == b && Low32(x >> 8) == c && Low32(x) == d
  {
  }

  /**
   * The two shift-and-or expressions of `readInt`, over the four bytes in the
   * order they are read, are `DecodeInt` of those bytes.
   */
  lemma DecodeFour(b3: JByte, b2: JByte, b1: JByte, b0: JByte)
    ensures DecodeInt([b3, b2, b1, b0], BigEndian)
         == ((b3 as bv32) << 24) | ((b2 as bv32) << 16) | ((b1 as bv32) << 8) | (b0 as bv32)
    ensures DecodeInt([b3, b2, b1, b0], LittleEndian)
         == ((b0 as bv32) << 24) | ((b1 as bv32) << 16) | ((b2 as bv32) << 8) | (b3 as bv32)
  {
  }

  /**
   * A boolean read back the way the library's tests read it: the byte is 1.
   * On the two bytes `appendBoolean` writes, encoding the result again gives
   * the byte back.
   */
  function DecodeBoolean(s: seq<JByte>): (r: bool)
    requires |s| == 1
    ensures s[0] == 0 || s[0] == 1 ==> EncodeBoolean(r) == s
  {
    s[0] == 1
  }

  /** A 16-bit value read back, as `ByteBuffer.getChar`/`getShort` would. */
  function Decode16(s: seq<JByte>, order: ByteOrder): (r: bv16)
    requires |s| == 2
    ensures Encode16(r, order) == s
  {
    match order
    case BigEndian => ((s[0] as bv16) << 8) | (s[1] as bv16)
    case LittleEndian => ((s[1] as bv16) << 8) | (s[0] as bv16)
  }

  /** Eight bytes joined most significant first are the eight bytes `appendLong` cuts back out. */
  lemma Join64(a: JByte, b: JByte, c: JByte, d: JByte, e: JByte, f: JByte, g: JByte, h: JByte)
    ensures var x := ((a as bv64) << 56) | ((b as bv64) << 48) | ((c as bv64) << 40) | ((d as bv64) << 32) |
                     ((e as bv64) << 24) | ((f as bv64) << 16) | ((g as bv64) << 8) | (h as bv64);
      Low64(x >> 56) == a && Low64(x >> 48) == b && Low64(x >> 40) == c && Low64(x >> 32) == d &&
      Low64(x >> 24) == e && Low64(x >> 16) == f && Low64(x >> 8) == g && Low64(x) == h
  {
  }

  /** A 64-bit value read back, as `ByteBuffer.getLong` would. */
  function DecodeLong(s: seq<JByte>, order: ByteOrder): (r: bv64)
    requires |s| == 8
    ensures EncodeLong(r, order) == s
  {
    Join64(s[0], s[1], s[2], s[3], s[4], s[5], s[6], s[7]);
    Join64(s[7], s[6], s[5], s[4], s[3], s[2], s[1], s[0]);
    assert s == [s[0], s[1], s[2], s[3], s[4], s[5], s[6], s[7]];
    match order
    case BigEndian =>
      ((s[0] as bv64) << 56) | ((s[1] as bv64) << 48) | ((s[2] as bv64) << 40) | ((s[3] as bv64) << 32) |
      ((s[4] as bv64) << 24) | ((s[5] as bv64) << 16) | ((s[6] as bv64) << 8) | (s[7] as bv64)
    case LittleEndian =>
      ((s[7] as bv64) << 56) | ((s[6] as bv64) << 48) | ((s[5] as bv64) << 40) | ((s[4] as bv64) << 32) |
      ((s[3] as bv64) << 24) | ((s[2] as bv64) << 16) | ((s[1] as bv64) << 8) | (s[0] as bv64)
  }

  lemma BooleanRoundTrip(b: bool)
    ensures DecodeBoolean(EncodeBoolean(b)) == b
  {
  }

  /** The bytes of a 16-bit value, put back together, give the value. */
  lemma Bits16(x: bv16)
    ensures ((Low16(x >> 8) as bv16) << 8) | (Low16(x) as bv16) == x
  {
  }

  lemma Bits32(x: bv32)
    ensures ((Low32(x >> 24) as bv32) << 24) | ((Low32(x >> 16) as bv32) << 16)
          | ((Low32(x >> 8) as bv32) << 8) | (Low32(x) as bv32) == x
  {
  }

  lemma Bits64(x: bv64)
    ensures ((Low64(x >> 56) as bv64) << 56) | ((Low64(x >> 48) as bv64) << 48)
          | ((Low64(x >> 40) as bv64) << 40) | ((Low64(x >> 32) as bv64) << 32)
          | ((Low64(x >> 24) as bv64) << 24) | ((Low64(x >> 16) as bv64) << 16)
          | ((Low64(x >> 8) as bv64) << 8) | (Low64(x) as bv64) == x
  {
  }

  lemma Int16RoundTrip(x: bv16, order: ByteOrder)
    ensures Decode16(Encode16(x, order), order) == x
  {
    var s := Encode16(x, order);
    if order == BigEndian {
      assert s == [Low16(x >> 8), Low16(x)];
    } else {
      assert s == [Low16(x), Low16(x >> 8)];
    }
    Bits16(x);
  }

  /** What `appendInt(x, order)` writes, `readInt(order)` gives back. */
  lemma IntRoundTrip(x: bv32, order: ByteOrder)
    ensures DecodeInt(EncodeInt(x, order), order) == x
  {
    var s := EncodeInt(x, order);
    if order == BigEndian {
      assert s == [Low32(x >> 24), Low32(x >> 16), Low32(x >> 8), Low32(x)];
    } else {
      assert s == [Low32(x), Low32(x >> 8), Low32(x >> 16), Low32(x >> 24)];
    }
    Bits32(x);
  }

  lemma LongRoundTrip(x: bv64, order: ByteOrder)
    ensures DecodeLong(EncodeLong(x, order), order) == x
  {
    var s := EncodeLong(x, order);
    if order == BigEndian {
      assert s == [Low64(x >> 56), Low64(x >> 48), Low64(x >> 40), Low64(x >> 32),
                   Low64(x >> 24), Low64(x >> 16), Low64(x >> 8), Low64(x)];
    } else {
      assert s == [Low64(x), Low64(x >> 8), Low64(x >> 16), Low64(x >> 24),
                   Low64(x >> 32), Low64(x >> 40), Low64(x >> 48), Low64(x >> 56)];
    }
    Bits64(x);
  }

  /** The reversal of a two-, four- or eight-byte sequence, written out. */
  lemma Reversed2(s: seq<JByte>)
    requires |s| == 2
    ensures Reversed(s) == [s[1], s[0]]
  {
    ReversedIndex(s);
  }

  lemma Reversed4(s: seq<JByte>)
    requires |s| == 4
    ensures Reversed(s) == [s[3], s[2], s[1], s[0]]
  {
    ReversedIndex(s);
  }

  lemma Reversed8(s: seq<JByte>)
    requires |s| == 8
    ensures Reversed(s) == [s[7], s[6], s[5], s[4], s[3], s[2], s[1], s[0]]
  {
    ReversedIndex(s);
  }

  /** Little-endian is big-endian read back to front, at every width. */
  lemma LittleIsReversedBig(c: bv16, i: bv32, l: bv64)
    ensures Encode16(c, LittleEndian) == Reversed(Encode16(c, BigEndian))
    ensures EncodeInt(i, LittleEndian) == Reversed(EncodeInt(i, BigEndian))
    ensures EncodeLong(l, LittleEndian) == Reversed(EncodeLong(l, BigEndian))
  {
    Reversed2(Encode16(c, BigEndian));
    Reversed4(EncodeInt(i, BigEndian));
    Reversed8(EncodeLong(l, BigEndian));
  }

  /** The encodings are injective: distinct values never share bytes. */
  lemma EncodingsInjective(x: bv32, y: bv32, order: ByteOrder)
    ensures EncodeInt(x, order) == EncodeInt(y, order) <==> x == y
  {
    IntRoundTrip(x, order);
    IntRoundTrip(y, order);
  }
}
