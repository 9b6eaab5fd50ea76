/**
 * Clients of the three classes: the library's own test scenarios, stated
 * for all inputs, and the round trip between `BytesBuilder.appendInt` and
 * `BytesReader.readInt`.
 */
module Scenarios {
  import opened Primitives
  import opened Encoding
  import opened ImmutableBytes
  import opened Builder
  import opened Reader

  /** The builder half of the reader test: `new BytesBuilder(8).appendInt(x).appendInt(y, LITTLE).appendInt(z, BIG).toBytes()`. */
  method BuildMixedOrders(x: bv32, y: bv32, z: bv32) returns (bytes: Bytes)
    ensures bytes.value == EncodeInt(x, BigEndian) + EncodeInt(y, LittleEndian) + EncodeInt(z, BigEndian)
  {
    var builder := new BytesBuilder.WithAllocation(8);
    builder.AppendInt(x);
    builder.AppendIntWithOrder(y, LittleEndian);
    builder.AppendIntWithOrder(z, BigEndian);
    bytes := builder.ToBytes();
  }

  /** The reader half: `readInt()`, `readInt(LITTLE)`, `readInt(BIG)` from a fresh reader. */
  method ReadThreeInts(bytes: Bytes) returns (a: bv32, b: bv32, c: bv32)
    requires |bytes.value| == 12
    ensures a == DecodeInt(bytes.value[..4], BigEndian)
    ensures b == DecodeInt(bytes.value[4..8], LittleEndian)
    ensures c == DecodeInt(bytes.value[8..], BigEndian)
  {
    var reader := new BytesReader(bytes);
    a := reader.ReadInt();
    b := reader.ReadIntWithOrder(LittleEndian);
    c := reader.ReadIntWithOrder(BigEndian);
  }

  /** Three words side by side decode back word by word. */
  lemma ThreeWordsReadBack(x: bv32, y: bv32, z: bv32)
    ensures var s := EncodeInt(x, BigEndian) + EncodeInt(y, LittleEndian) + EncodeInt(z, BigEndian);
      DecodeInt(s[..4], BigEndian) == x && DecodeInt(s[4..8], LittleEndian) == y && DecodeInt(s[8..], BigEndian) == z
  {
    var e1, e2, e3 := EncodeInt(x, BigEndian), EncodeInt(y, LittleEndian), EncodeInt(z, BigEndian);
    var s := e1 + e2 + e3;
    assert s[..4] == e1 && s[4..8] == e2 && s[8..] == e3;
    IntRoundTrip(x, BigEndian);
    IntRoundTrip(y, LittleEndian);
    IntRoundTrip(z, BigEndian);
  }

  /**
   * The reader test: three ints appended in mixed orders (the first in the
   * builder's default order), read back from a reader over `toBytes()` in
   * the same orders, give the three ints back.
   */
  method ReadMixedOrders(x: bv32, y: bv32, z: bv32) returns (a: bv32, b: bv32, c: bv32)
    ensures a == x && b == y && c == z
  {
    var bytes := BuildMixedOrders(x, y, z);
    a, b, c := ReadThreeInts(bytes);
    ThreeWordsReadBack(x, y, z);
  }

  /**
   * The round trip at any offset: after `prefix` and then `appendInt(v, order)`,
   * a reader of `toBytes()` skipped past the prefix reads `v` back with `readInt(order)`.
   */
  method ReadBackAfterPrefix(prefix: Bytes, v: bv32, order: ByteOrder) returns (r: bv32)
    requires |prefix.value| + 4 <= IntMax
    ensures r == v
  {
    var builder := new BytesBuilder();
    builder.AppendBytes(prefix);
    builder.AppendIntWithOrder(v, order);
    var bytes := builder.ToBytes();
    assert bytes.value[|prefix.value|..|prefix.value| + 4] == EncodeInt(v, order);
    var reader := new BytesReader(bytes);
    reader.Skip(|prefix.value|);
    r := reader.ReadIntWithOrder(order);
    IntRoundTrip(v, order);
  }

  /** `append(byte[])` then `toBytes()`: the array's bytes, index for index. */
  method AppendArrayThenRead(a: array<JByte>) returns (bytes: Bytes)
    requires a.Length <= IntMax
    ensures bytes.Length() == a.Length
    ensures forall i :: 0 <= i < a.Length ==> bytes.Get(i) == a[i]
  {
    var builder := new BytesBuilder();
    builder.AppendArray(a);
    bytes := builder.ToBytes();
  }

  /**
   * A builder appending the `Bytes` it returned itself: the second
   * `toBytes()` is the first one twice.
   */
  method AppendOwnBytes(b: Bytes) returns (bytes: Bytes, moreBytes: Bytes)
    requires 2 * |b.value| <= IntMax
    ensures bytes == b
    ensures moreBytes.value == b.value + b.value
    ensures moreBytes.Length() == 2 * bytes.Length()
  {
    var builder := new BytesBuilder();
    builder.AppendBytes(b);
    bytes := builder.ToBytes();
    builder.AppendBytes(bytes);
    moreBytes := builder.ToBytes();
  }

  /**
   * A returned `Bytes` is a snapshot: after `clear()` and new appends the
   * builder holds only the new bytes, and the earlier result is unchanged.
   */
  method SnapshotSurvivesClear(first: Bytes, second: Bytes) returns (before: Bytes, after: Bytes)
    requires |first.value| <= IntMax && |second.value| <= IntMax
    ensures before == first && after == second
  {
    var builder := new BytesBuilder();
    builder.AppendBytes(first);
    before := builder.ToBytes();
    builder.Clear();
    builder.AppendBytes(second);
    after := builder.ToBytes();
  }

  /**
   * The clear test: a new builder is empty, three ints make twelve bytes,
   * `clear()` makes none, the allocation stays.
   */
  method ClearAfterInts(x: bv32, y: bv32, z: bv32) returns (empty: nat, full: nat, cleared: nat, kept: bool)
    ensures empty == 0 && full == 12 && cleared == 0 && kept
  {
    var builder := new BytesBuilder.WithAllocation(10);
    empty := builder.Length();
    builder.AppendInt(x);
    builder.AppendInt(y);
    builder.AppendInt(z);
    full := builder.Length();
    var allocation := builder.Allocation();
    builder.Clear();
    cleared := builder.Length();
    kept := builder.Allocation() == allocation;
  }

  /**
   * The allocation tests: a builder made with allocation 10 has 10,
   * `allocate(20)` gives 20, `compact()` of an empty builder gives 0.
   */
  method AllocateAndCompact() returns (initial: nat, grown: nat, initialOther: nat, compacted: nat)
    ensures initial == 10 && grown == 20 && initialOther == 10 && compacted == 0
  {
    var builder := new BytesBuilder.WithAllocation(10);
    initial := builder.Allocation();
    builder.Allocate(20);
    grown := builder.Allocation();
    var other := new BytesBuilder.WithAllocation(10);
    initialOther := other.Allocation();
    other.Compact();
    compacted := other.Allocation();
  }

  /**
   * The immutability test: writing to the array a `Bytes` was made from, or
   * to an array it handed out, does not change the `Bytes`; after the write
   * the source array no longer agrees with it.
   */
  method WritesDoNotReachBytes(s: seq<JByte>) returns (b: Bytes, c: Bytes, myArray: array<JByte>)
    requires |s| > 5
    ensures b.value == s && c == b
    ensures myArray[..] == s[3 := 63]
    ensures s[3] != 63 ==> myArray[..] != b.value
  {
    myArray := new JByte[|s|](i requires 0 <= i < |s| => s[i]);
    assert myArray[..] == s;
    b := FromArray(myArray);
    c := Of(myArray);
    var other := ToArray(b);
    other[5] := 63;
    myArray[3] := 63;
    assert myArray[..][3] == 63;
  }

  /** `BytesTests.testBasics`: a `Bytes` made from an array has its length, its bytes, and `array()` gives them back. */
  method BytesBasics(a: array<JByte>) returns (bytes: Bytes, copy: array<JByte>)
    ensures bytes.Length() == a.Length
    ensures forall i :: 0 <= i < a.Length ==> a[i] == bytes.Get(i)
    ensures copy[..] == a[..]
  {
    bytes := FromArray(a);
    copy := ToArray(bytes);
  }

  /**
   * `BytesTests.testEquals`: two instances made from one array are equal,
   * and an instance made from another array is equal exactly when the
   * contents agree.
   */
  method EqualsOfCopies(a: array<JByte>, other: array<JByte>) returns (same: bool, equalToOther: bool)
    ensures same
    ensures equalToOther <==> a[..] == other[..]
  {
    var bytes := FromArray(a);
    var moreBytes := FromArray(a);
    same := bytes.Equals(moreBytes);
    var evenMoreBytes := FromArray(other);
    equalToOther := bytes.Equals(evenMoreBytes);
  }

  /** `BytesTests.testHashCode`: two instances made from one array hash alike. */
  method HashOfCopies(a: array<JByte>) returns (h1: bv32, h2: bv32)
    ensures h1 == h2
  {
    var bytes := FromArray(a);
    var moreBytes := FromArray(a);
    h1 := bytes.HashCode();
    h2 := moreBytes.HashCode();
  }

  /** `append(byte)` for each byte in turn: the builder's contents grow by exactly those bytes. */
  method AppendEachByte(builder: BytesBuilder, s: seq<JByte>)
    requires builder.Valid() && builder.count + |s| <= IntMax
    modifies builder
    ensures builder.Valid() && builder.State().Contents() == old(builder.State().Contents()) + s
  {
    ghost var start := builder.State().Contents();
    for i := 0 to |s|
      invariant builder.Valid() && builder.count == |start| + i
      invariant builder.State().Contents() == start + s[..i]
    {
      builder.Append(s[i]);
      assert start + s[..i + 1] == (start + s[..i]) + [s[i]];
    }
    assert s[..|s|] == s;
  }

  /**
   * `BytesBuilderTests.testBasics`, for any bytes: appending them one
   * `append(byte)` at a time and calling `toBytes()` gives them back, index
   * for index.
   */
  method AppendEach(s: seq<JByte>) returns (bytes: Bytes)
    requires |s| <= IntMax
    ensures bytes.Length() == |s|
    ensures forall i :: 0 <= i < |s| ==> bytes.Get(i) == s[i]
  {
    var builder := new BytesBuilder();
    AppendEachByte(builder, s);
    assert builder.State().Contents() == s;
    bytes := builder.ToBytes();
  }

  /** `BytesBuilderTests.testLength`: the length counts the bytes appended. */
  method LengthCounts(a: JByte, b: JByte, c: JByte, d: JByte) returns (l0: nat, l1: nat, l4: nat)
    ensures l0 == 0 && l1 == 1 && l4 == 4
  {
    var builder := new BytesBuilder.WithAllocation(10);
    l0 := builder.Length();
    builder.Append(a);
    l1 := builder.Length();
    AppendEachByte(builder, [b, c, d]);
    l4 := builder.Length();
  }

  /** Four fields of `w` bytes side by side, cut back apart. */
  lemma FourFields(e1: seq<JByte>, e2: seq<JByte>, e3: seq<JByte>, e4: seq<JByte>, w: nat)
    requires |e1| == w && |e2| == w && |e3| == w && |e4| == w
    ensures var s := e1 + e2 + e3 + e4;
      s[..w] == e1 && s[w..2 * w] == e2 && s[2 * w..3 * w] == e3 && s[3 * w..] == e4
  {
  }

  /** The builder half of `testAppendBoolean`: four booleans appended in turn. */
  method BuildBooleans(p: bool, q: bool, r: bool, t: bool) returns (length: nat, bytes: Bytes)
    ensures length == 4
    ensures bytes.value == EncodeBoolean(p) + EncodeBoolean(q) + EncodeBoolean(r) + EncodeBoolean(t)
  {
    var builder := new BytesBuilder();
    builder.AppendBoolean(p);
    builder.AppendBoolean(q);
    builder.AppendBoolean(r);
    builder.AppendBoolean(t);
    bytes := builder.ToBytes();
    length := builder.Length();
  }

  /** `BytesBuilderTests.testAppendBoolean`: four booleans, one byte each, 1 exactly for true. */
  method AppendBooleans(p: bool, q: bool, r: bool, t: bool) returns (length: nat, bytes: Bytes)
    ensures length == 4 && |bytes.value| == 4
    ensures (bytes.value[0] == 1) == p && (bytes.value[1] == 1) == q
    ensures (bytes.value[2] == 1) == r && (bytes.value[3] == 1) == t
  {
    length, bytes := BuildBooleans(p, q, r, t);
    FourFields(EncodeBoolean(p), EncodeBoolean(q), EncodeBoolean(r), EncodeBoolean(t), 1);
    BooleanRoundTrip(p);
    BooleanRoundTrip(q);
    BooleanRoundTrip(r);
    BooleanRoundTrip(t);
  }

  /** The builder half of `testAppendChar`: three chars in the default order, one little-endian. */
  method BuildChars(a: bv16, b: bv16, c: bv16, d: bv16) returns (length: nat, bytes: Bytes)
    ensures length == 8
    ensures bytes.value == Encode16(a, BigEndian) + Encode16(b, BigEndian) + Encode16(c, BigEndian) + Encode16(d, LittleEndian)
  {
    var builder := new BytesBuilder();
    builder.AppendChar(a);
    builder.AppendChar(b);
    builder.AppendChar(c);
    builder.AppendCharWithOrder(d, LittleEndian);
    length := builder.Length();
    bytes := builder.ToBytes();
  }

  /** `BytesBuilderTests.testAppendChar`: the four chars read back with `getChar` in the same orders. */
  method AppendChars(a: bv16, b: bv16, c: bv16, d: bv16) returns (length: nat, x1: bv16, x2: bv16, x3: bv16, x4: bv16)
    ensures length == 8 && x1 == a && x2 == b && x3 == c && x4 == d
  {
    var bytes;
    length, bytes := BuildChars(a, b, c, d);
    var s := bytes.value;
    FourFields(Encode16(a, BigEndian), Encode16(b, BigEndian), Encode16(c, BigEndian), Encode16(d, LittleEndian), 2);
    x1, x2 := Decode16(s[..2], BigEndian), Decode16(s[2..4], BigEndian);
    x3, x4 := Decode16(s[4..6], BigEndian), Decode16(s[6..], LittleEndian);
    Int16RoundTrip(a, BigEndian);
    Int16RoundTrip(b, BigEndian);
    Int16RoundTrip(c, BigEndian);
    Int16RoundTrip(d, LittleEndian);
  }

  /** The builder half of `testAppendShort`: three shorts in the default order, one little-endian. */
  method BuildShorts(a: bv16, b: bv16, c: bv16, d: bv16) returns (length: nat, bytes: Bytes)
    ensures length == 8
    ensures bytes.value == Encode16(a, BigEndian) + Encode16(b, BigEndian) + Encode16(c, BigEndian) + Encode16(d, LittleEndian)
  {
    var builder := new BytesBuilder();
    builder.AppendShort(a);
    builder.AppendShort(b);
    builder.AppendShort(c);
    builder.AppendShortWithOrder(d, LittleEndian);
    length := builder.Length();
    bytes := builder.ToBytes();
  }

  /** `BytesBuilderTests.testAppendShort`: the four shorts read back with `getShort` in the same orders. */
  method AppendShorts(a: bv16, b: bv16, c: bv16, d: bv16) returns (length: nat, x1: bv16, x2: bv16, x3: bv16, x4: bv16)
    ensures length == 8 && x1 == a && x2 == b && x3 == c && x4 == d
  {
    var bytes;
    length, bytes := BuildShorts(a, b, c, d);
    var s := bytes.value;
    FourFields(Encode16(a, BigEndian), Encode16(b, BigEndian), Encode16(c, BigEndian), Encode16(d, LittleEndian), 2);
    x1, x2 := Decode16(s[..2], BigEndian), Decode16(s[2..4], BigEndian);
    x3, x4 := Decode16(s[4..6], BigEndian), Decode16(s[6..], LittleEndian);
    Int16RoundTrip(a, BigEndian);
    Int16RoundTrip(b, BigEndian);
    Int16RoundTrip(c, BigEndian);
    Int16RoundTrip(d, LittleEndian);
  }

  /** The builder half of `testAppendInt`: three ints in the default order, one little-endian. */
  method BuildInts(a: bv32, b: bv32, c: bv32, d: bv32) returns (length: nat, bytes: Bytes)
    ensures length == 16
    ensures bytes.value == EncodeInt(a, BigEndian) + EncodeInt(b, BigEndian) + EncodeInt(c, BigEndian) + EncodeInt(d, LittleEndian)
  {
    var builder := new BytesBuilder();
    builder.AppendInt(a);
    builder.AppendInt(b);
    builder.AppendInt(c);
    builder.AppendIntWithOrder(d, LittleEndian);
    length := builder.Length();
    bytes := builder.ToBytes();
  }

  /** `BytesBuilderTests.testAppendInt`: the four ints read back with `getInt` in the same orders. */
  method AppendInts(a: bv32, b: bv32, c: bv32, d: bv32) returns (length: nat, x1: bv32, x2: bv32, x3: bv32, x4: bv32)
    ensures length == 16 && x1 == a && x2 == b && x3 == c && x4 == d
  {
    var bytes;
    length, bytes := BuildInts(a, b, c, d);
    var s := bytes.value;
    FourFields(EncodeInt(a, BigEndian), EncodeInt(b, BigEndian), EncodeInt(c, BigEndian), EncodeInt(d, LittleEndian), 4);
    x1, x2 := DecodeInt(s[..4], BigEndian), DecodeInt(s[4..8], BigEndian);
    x3, x4 := DecodeInt(s[8..12], BigEndian), DecodeInt(s[12..], LittleEndian);
    IntRoundTrip(a, BigEndian);
    IntRoundTrip(b, BigEndian);
    IntRoundTrip(c, BigEndian);
    IntRoundTrip(d, LittleEndian);
  }

  /** The builder half of `testAppendLong`: three longs in the default order, one little-endian. */
  method BuildLongs(a: bv64, b: bv64, c: bv64, d: bv64) returns (length: nat, bytes: Bytes)
    ensures length == 32
    ensures bytes.value == EncodeLong(a, BigEndian) + EncodeLong(b, BigEndian) + EncodeLong(c, BigEndian) + EncodeLong(d, LittleEndian)
  {
    var builder := new BytesBuilder();
    builder.AppendLong(a);
    builder.AppendLong(b);
    builder.AppendLong(c);
    builder.AppendLongWithOrder(d, LittleEndian);
    length := builder.Length();
    bytes := builder.ToBytes();
  }

  /** `BytesBuilderTests.testAppendLong`: the four longs read back with `getLong` in the same orders. */
  method AppendLongs(a: bv64, b: bv64, c: bv64, d: bv64) returns (length: nat, x1: bv64, x2: bv64, x3: bv64, x4: bv64)
    ensures length == 32 && x1 == a && x2 == b && x3 == c && x4 == d
  {
    var bytes;
    length, bytes := BuildLongs(a, b, c, d);
    var s := bytes.value;
    FourFields(EncodeLong(a, BigEndian), EncodeLong(b, BigEndian), EncodeLong(c, BigEndian), EncodeLong(d, LittleEndian), 8);
    x1, x2 := DecodeLong(s[..8], BigEndian), DecodeLong(s[8..16], BigEndian);
    x3, x4 := DecodeLong(s[16..24], BigEndian), DecodeLong(s[24..], LittleEndian);
    LongRoundTrip(a, BigEndian);
    LongRoundTrip(b, BigEndian);
    LongRoundTrip(c, BigEndian);
    LongRoundTrip(d, LittleEndian);
  }
}
