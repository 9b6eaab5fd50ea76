# njlr/bytes in Dafny

A model of the Java library `io.njlr.bytes`, with proofs about it. The library has three classes:

- `Bytes` is an immutable sequence of Java bytes. It supports concatenation, sub-ranges, structural equality, a polynomial hash and lexicographic order.
- `BytesBuilder` is a growable buffer. It has a backing array, a logical length `count` and a default byte order. It appends booleans and big- or little-endian chars, shorts, ints and longs, and can compact, reallocate, clear, reverse and snapshot itself into a `Bytes`.
- `BytesReader` is a cursor over a `Bytes` that reads bytes and ints.

Files:

| file | module | models |
|---|---|---|
| `primitives.dfy` | `Primitives` | Java `byte` as `bv8` with its signed value and sign extension, 32-bit wrap-around, `ByteOrder`, `Arrays.copyOf`/`copyOfRange`/`System.arraycopy` on values, and `System.arraycopy` into a live array |
| `encoding.dfy` | `Encoding` | the fixed-width encodings the builder writes and `readInt`'s decoding, with round trips |
| `bytes.dfy` | `ImmutableBytes` | `Bytes` as a datatype. `hashCode` and `compareTo` are loop methods proved equal to recursive definitions, and the order properties are lemmas about those definitions |
| `builder.dfy` | `Builder` | `BuilderState`, the builder's whole state as a value, with one function per Java method. `class BytesBuilder` has array, count and order fields, and each of its methods is proved to move `State()` as the matching function says |
| `reader.dfy` | `Reader` | `class BytesReader` with its `index` field |
| `scenarios.dfy` | `Scenarios` | client code. It replays the library's JUnit tests (all but the floating-point ones) with the tested constants generalised to arbitrary inputs, and proves that `appendInt` followed by `readInt` gives the value back |

Java `int`, `short`/`char` and `long` values that are encoded are `bv32`, `bv16` and `bv64`, so shifts and `(byte)` casts behave as in Java. Lengths, counts and indices are mathematical integers. Where Java can overflow them (the reader's `index`, `remaining()`), `Primitives.Wrap32` is applied explicitly. The doubling in `expandCapacity` is modelled by `Builder.Doubled`, which `Builder.DoubledWraps` proves equal to `Wrap32`.

Where the code and its documentation disagree, the model follows the code:
- `sub(b, e)` zero-pads past the end, because that is what `Arrays.copyOfRange` does. It does not fail.
- `toBytes()` compacts the builder, although its documentation says the allocation is unchanged.
- `expandCapacity` reallocates on every append, even when there is room.
- `reverse()` reverses the whole backing array.
- The reader test calls `bytes.read()`, which `Bytes` does not declare. The reader scenario builds the reader with `new BytesReader(bytes)` instead.

## Model

| member | source | states |
|---|---|---|
| Primitives.Signed | src/io/njlr/bytes/Bytes.java:195-200 | a byte's numeric value is in -128..127 and negative exactly when its top bit is set |
| Primitives.SignedInjective | src/io/njlr/bytes/Bytes.java:195-200 | two bytes have the same signed value iff they are the same byte, so `c1 != c2` is the same test as `c1 - c2 != 0` |
| Primitives.WidenValue | src/io/njlr/bytes/Bytes.java:134 | the sign-extended `int` pattern of a byte equals its signed value modulo 2^32 |
| Primitives.Wrap32 | src/io/njlr/bytes/BytesBuilder.java:539 | Java `int` arithmetic: the result is congruent to the exact value modulo 2^32, and equals it when the exact value is in range |
| Primitives.CopyOfRange | src/io/njlr/bytes/Bytes.java:122-125 | `copyOfRange` returns `to - from` bytes: the source bytes from `from` on, then zeros past the end. It is the plain slice when `to <= length` |
| Primitives.CopyOf | src/io/njlr/bytes/BytesBuilder.java:550 | `copyOf(a, n)` has length `n`. It agrees with `a` on the common prefix and is zero beyond `a`, so it is truncation or zero-padding |
| Primitives.Splice | src/io/njlr/bytes/BytesBuilder.java:110 | `arraycopy` into a destination keeps the destination's length and its bytes outside `[at, at + len)`, and puts the source inside that range |
| Primitives.ArrayCopy | src/io/njlr/bytes/BytesBuilder.java:110 | `System.arraycopy(b, 0, value, count, b.length)` on live arrays: the destination's new contents are its old contents with the source's old contents spliced in at `count` |
| Primitives.ArrayCopyOf | src/io/njlr/bytes/BytesBuilder.java:550 | on arrays, `copyOf` returns a fresh array holding `CopyOf` of the old contents |
| Encoding.DecodeInt | src/io/njlr/bytes/BytesReader.java:41-53 | `readInt`'s decoding of four bytes: encoding its result again in the same order gives the same four bytes, so no two byte groups decode to the same int |
| Encoding.DecodeFour | src/io/njlr/bytes/BytesReader.java:36-53 | the two shift-and-or expressions over `b3, b2, b1, b0`, in the order the bytes are read, are `DecodeInt` of those bytes in each order |
| Encoding.Decode16 | tests/io/njlr/bytes/tests/BytesBuilderTests.java:128-136 | the two-byte decoding the tests use (`ByteBuffer.getChar`/`getShort`): encoding its result again gives the same two bytes |
| Encoding.DecodeBoolean | tests/io/njlr/bytes/tests/BytesBuilderTests.java:111-114 | the tests' `get() == 1`: on a byte 0 or 1, encoding the result with `appendBoolean`'s encoding gives the byte back; `Encoding.BooleanRoundTrip` gives the other direction |
| Encoding.DecodeLong | tests/io/njlr/bytes/tests/BytesBuilderTests.java:196-202 | the tests' `ByteBuffer.getLong` in either order: encoding its result again in the same order gives the same eight bytes, so it inverts `appendLong`'s encoding; `Encoding.LongRoundTrip` gives the other direction |
| Encoding.EncodeBoolean | src/io/njlr/bytes/BytesBuilder.java:134-141 | a boolean is one byte |
| Encoding.Encode16 | src/io/njlr/bytes/BytesBuilder.java:152-167 | a char or short is two bytes |
| Encoding.EncodeInt | src/io/njlr/bytes/BytesBuilder.java:238-257 | an int is four bytes |
| Encoding.EncodeLong | src/io/njlr/bytes/BytesBuilder.java:285-312 | a long is eight bytes |
| Encoding.BooleanRoundTrip | src/io/njlr/bytes/BytesBuilder.java:134-141 | the byte written for a boolean is 1 exactly when it is true |
| Encoding.Int16RoundTrip | src/io/njlr/bytes/BytesBuilder.java:195-210 | decoding the two bytes of a char or short in the same order gives the value back, for both orders |
| Encoding.IntRoundTrip | src/io/njlr/bytes/BytesReader.java:34-54 | `readInt(o)`'s decoding inverts `appendInt(x, o)`'s encoding for every `x`, in both orders |
| Encoding.LongRoundTrip | src/io/njlr/bytes/BytesBuilder.java:285-312 | decoding the eight bytes of a long in the same order gives the value back, for both orders |
| Encoding.LittleIsReversedBig | src/io/njlr/bytes/BytesBuilder.java:238-257 | at widths 2, 4 and 8, the little-endian bytes are the big-endian bytes reversed |
| Encoding.EncodingsInjective | src/io/njlr/bytes/BytesBuilder.java:238-257 | two ints have the same encoding in an order iff they are equal |
| ImmutableBytes.Bytes.Get | src/io/njlr/bytes/Bytes.java:46-49 | `get(index)` is defined exactly for `0 <= index < length()` and gives the stored byte at that index |
| ImmutableBytes.Bytes.Length | src/io/njlr/bytes/Bytes.java:56-59 | `length()` is the number of stored bytes |
| ImmutableBytes.Bytes.Concat | src/io/njlr/bytes/Bytes.java:71-100 | concatenation as documented. The content is this followed by that, and an empty operand returns the other instance itself. Two non-empty operands must have lengths whose sum fits an `int`, since otherwise `Arrays.copyOf` throws |
| ImmutableBytes.Bytes.ConcatAsWritten | src/io/njlr/bytes/Bytes.java:79-100 | concatenation as written. Empty operands are handled as documented. Otherwise it fails exactly when the lengths add up past `Integer.MAX_VALUE` or `this` is longer than `that`, and else gives `this ++ this ++ zeros` |
| ImmutableBytes.ConcatAsWrittenCounterexample | src/io/njlr/bytes/Bytes.java:95-97 | `[1]` concat `[2]` gives `[1, 1]` as written and `[1, 2]` corrected. `[1, 2]` concat `[3]` fails as written |
| ImmutableBytes.ConcatAssociative | src/io/njlr/bytes/Bytes.java:71-77 | corrected concatenation is associative whenever the three lengths add up to at most `Integer.MAX_VALUE` |
| ImmutableBytes.ConcatLengthOverflow | src/io/njlr/bytes/Bytes.java:95 | for non-empty operands whose lengths add up past `Integer.MAX_VALUE`, the `int` sum `lengthOfThis + lengthOfThat` is negative and the concatenation as written fails |
| ImmutableBytes.Bytes.Sub | src/io/njlr/bytes/Bytes.java:113-125 | `sub(b, e)` has length `e - b`, element `k` is `value[b + k]` inside the bytes and zero past their end, and it is the slice when `e <= length` |
| ImmutableBytes.Bytes.SubFrom | src/io/njlr/bytes/Bytes.java:102-112 | `sub(b)` is the suffix from `b` and equals `sub(b, length())` |
| ImmutableBytes.Bytes.Equals | src/io/njlr/bytes/Bytes.java:148-162 | two instances are equal iff they hold the same sequence of bytes |
| ImmutableBytes.Bytes.HashCode | src/io/njlr/bytes/Bytes.java:127-138 | the loop computes `Hash`: `h := 37 * h + b` over the signed bytes, from 0, wrapping at 32 bits |
| ImmutableBytes.HashStep | src/io/njlr/bytes/Bytes.java:132-135 | one more byte at the end is one more step of the hash fold |
| ImmutableBytes.EqualsImpliesEqualHash | src/io/njlr/bytes/Bytes.java:127-162 | equal instances have equal hashes |
| ImmutableBytes.Bytes.CompareTo | src/io/njlr/bytes/Bytes.java:180-207 | the loop computes `Compare`, the lexicographic order on signed bytes |
| ImmutableBytes.CompareFirstDifference | src/io/njlr/bytes/Bytes.java:191-206 | the result is `c1 - c2` at the first index where the bytes differ; with no such index it is the difference of the lengths |
| ImmutableBytes.CompareReflexive | src/io/njlr/bytes/Bytes.java:181-207 | every sequence compares 0 with itself |
| ImmutableBytes.CompareAntisymmetric | src/io/njlr/bytes/Bytes.java:181-207 | swapping the operands negates the result |
| ImmutableBytes.CompareZeroIffEquals | src/io/njlr/bytes/Bytes.java:181-207 | the result is 0 iff `equals` holds, both directions |
| ImmutableBytes.ComparePrefix | src/io/njlr/bytes/Bytes.java:204-206 | a sequence compared with an extension of itself gives minus the extra length, so a strict prefix sorts first |
| ImmutableBytes.CompareTransitive | src/io/njlr/bytes/Bytes.java:181-207 | the order is transitive |
| ImmutableBytes.FromArray | src/io/njlr/bytes/Bytes.java:29-36 | construction copies: same length, and `get(i)` is the array's byte `i` at construction time |
| ImmutableBytes.Of | src/io/njlr/bytes/Bytes.java:216-219 | `Bytes.of` holds the array's contents, as the constructor does |
| ImmutableBytes.ToArray | src/io/njlr/bytes/Bytes.java:66-69 | `array()` returns a fresh array holding the bytes |
| Builder.NewCapacity | src/io/njlr/bytes/BytesBuilder.java:537-548 | the new allocation is at least `minimumCapacity` and at most `Integer.MAX_VALUE`. It is `max((allocation + 1) * 2, minimumCapacity)` without overflow and above the old allocation below the maximum |
| Builder.DoubledWraps | src/io/njlr/bytes/BytesBuilder.java:539 | `(value.length + 1) * 2` evaluated in Java `int` arithmetic: the exact product reduced into the 32-bit range |
| Builder.BuilderState.Expand | src/io/njlr/bytes/BytesBuilder.java:537-551 | `expandCapacity` moves to `NewCapacity`, keeps count, order and contents, and zero-fills the new part |
| Builder.BuilderState.Append | src/io/njlr/bytes/BytesBuilder.java:104-115 | an append of `n` bytes gives contents `old ++ bytes` and count `old + n`. The allocation is `NewCapacity` and the tail is the expanded array's tail |
| Builder.BuilderState.SetOrder | src/io/njlr/bytes/BytesBuilder.java:428-440 | `order(e)` changes only the default order, never the bytes already appended |
| Builder.BuilderState.Compact | src/io/njlr/bytes/BytesBuilder.java:447-455 | `compact()` makes the allocation equal the length and keeps the contents |
| Builder.BuilderState.Reverse | src/io/njlr/bytes/BytesBuilder.java:462-481 | `reverse()` as written: backing byte `i` becomes old byte `allocation - 1 - i`; count and allocation stay |
| Builder.BuilderState.ReverseAppended | src/io/njlr/bytes/BytesBuilder.java:457-461 | `reverse()` as documented: the contents become the old contents reversed and the bytes past `count` stay |
| Builder.BuilderState.Clear | src/io/njlr/bytes/BytesBuilder.java:495-498 | `clear()` empties the contents and keeps the allocation, its bytes and the order |
| Builder.BuilderState.Allocate | src/io/njlr/bytes/BytesBuilder.java:513-521 | `allocate(n)` makes the allocation `n` and the length `min(length, n)`. It keeps the prefix up to `min(old allocation, n)` and zero-fills past the old allocation |
| Builder.BuilderState.ToBytes | src/io/njlr/bytes/BytesBuilder.java:530-535 | `toBytes()` returns exactly the appended bytes |
| Builder.AppendInts | src/io/njlr/bytes/BytesBuilder.java:269-272 | a chain of `appendInt` calls over `k` fields stays valid and adds `4k` to the count |
| Builder.AppendedIntsContents | src/io/njlr/bytes/BytesBuilder.java:238-257 | appends never disturb earlier bytes: after the chain, the contents are the old contents followed by each field's encoding in its own order |
| Builder.EncodedIntsField | src/io/njlr/bytes/BytesBuilder.java:238-257 | field `j` of the chain's bytes sits at offset `4j` |
| Builder.AppendedIntAt | src/io/njlr/bytes/BytesBuilder.java:238-257 | field `j` sits at offset `count + 4j` of the builder's contents |
| Builder.AppendedIntReadsBack | src/io/njlr/bytes/BytesReader.java:34-54 | each field decodes back to its value in its own order, when orders are mixed in one buffer |
| Builder.ReverseTwice | src/io/njlr/bytes/BytesBuilder.java:462-481 | `reverse()` twice is the identity |
| Builder.ReverseOfCompacted | src/io/njlr/bytes/BytesBuilder.java:462-481 | once compacted, `reverse()` reverses exactly the appended bytes |
| Builder.ReverseCounterexample | src/io/njlr/bytes/BytesBuilder.java:457-465 | one appended byte 7 in a two-byte allocation reads back `[0]` after `reverse()`, while the documented result is `[7]` |
| Builder.ClearThenAppend | src/io/njlr/bytes/BytesBuilder.java:484-498 | after `clear()`, `toBytes()` holds only what was appended since |
| Builder.AppendNeverShrinks | src/io/njlr/bytes/BytesBuilder.java:537-551 | below `Integer.MAX_VALUE`, every append strictly grows the allocation |
| Builder.ExpandAtMaximum | src/io/njlr/bytes/BytesBuilder.java:539-543 | for every requested minimum: at an allocation of `Integer.MAX_VALUE` the doubling wraps to exactly 0, the clamp is skipped, and the new allocation is just that minimum |
| Builder.AppendAtMaximumShrinks | src/io/njlr/bytes/BytesBuilder.java:537-551 | so an append to a builder whose allocation is `Integer.MAX_VALUE` shrinks the allocation to the new length, while the contents still become `old ++ bytes` |
| Builder.NewCapacityClamped | src/io/njlr/bytes/BytesBuilder.java:537-548 | growth with the overflow clamp the class documentation promises (an array "automatically enlarged as the caller appends values", line 12): never below the old allocation or the minimum, never above `Integer.MAX_VALUE`, and equal to the code's growth whenever the doubling does not overflow |
| Builder.ClampedDiffersOnlyAtMaximum | src/io/njlr/bytes/BytesBuilder.java:539-543 | the clamped growth and the code's growth differ exactly when the allocation is `Integer.MAX_VALUE` and the minimum is below it |
| Builder.BytesBuilder.constructor | src/io/njlr/bytes/BytesBuilder.java:39-46 | the builder starts with eight zero bytes of allocation, length 0 and big-endian |
| Builder.BytesBuilder.WithAllocation | src/io/njlr/bytes/BytesBuilder.java:55-62 | the builder starts with the given allocation, length 0 and big-endian |
| Builder.BytesBuilder.WithAllocationAndOrder | src/io/njlr/bytes/BytesBuilder.java:74-81 | the builder starts with the given allocation and order, and length 0 |
| Builder.BytesBuilder.Length | src/io/njlr/bytes/BytesBuilder.java:400-403 | `length()` is the number of bytes appended |
| Builder.BytesBuilder.Allocation | src/io/njlr/bytes/BytesBuilder.java:412-415 | `allocation()` is the backing array's size, never below `length()` |
| Builder.BytesBuilder.Order | src/io/njlr/bytes/BytesBuilder.java:422-425 | `order()` is the default order of the builder's state, the one the one-argument appends use |
| Builder.BytesBuilder.SetOrder | src/io/njlr/bytes/BytesBuilder.java:435-440 | the state moves as `BuilderState.SetOrder` |
| Builder.BytesBuilder.ExpandCapacity | src/io/njlr/bytes/BytesBuilder.java:537-551 | always a fresh array, and the state moves as `BuilderState.Expand` |
| Builder.BytesBuilder.Put | src/io/njlr/bytes/BytesBuilder.java:93 | `value[count++] = b` writes one byte at `count` in the same array |
| Builder.BytesBuilder.PutTwo | src/io/njlr/bytes/BytesBuilder.java:158-163 | two consecutive `value[count++] = …` writes, as in `appendChar` and `appendShort` (lines 201-206): the given two bytes land at `count` in the same array, the rest of the array is kept, and `count` grows by 2 |
| Builder.BytesBuilder.PutFour | src/io/njlr/bytes/BytesBuilder.java:244-253 | the four consecutive writes of `appendInt`: the given four bytes land at `count` in the same array, the rest is kept, and `count` grows by 4 |
| Builder.BytesBuilder.PutEight | src/io/njlr/bytes/BytesBuilder.java:291-308 | the eight consecutive writes of `appendLong`: the given eight bytes land at `count` in the same array, the rest is kept, and `count` grows by 8 |
| Builder.BytesBuilder.Append | src/io/njlr/bytes/BytesBuilder.java:89-96 | `append(byte)` moves the state as `Append([b])` |
| Builder.BytesBuilder.AppendArray | src/io/njlr/bytes/BytesBuilder.java:104-115 | `append(byte[])` moves the state as `Append(b[..])` |
| Builder.BytesBuilder.AppendBytes | src/io/njlr/bytes/BytesBuilder.java:123-126 | `append(Bytes)` moves the state as `Append(b.value)`, the same as appending `b.array()` |
| Builder.BytesBuilder.AppendBoolean | src/io/njlr/bytes/BytesBuilder.java:134-141 | appends the boolean's byte |
| Builder.BytesBuilder.Append16 | src/io/njlr/bytes/BytesBuilder.java:152-167 | appends the two bytes of a 16-bit value in the given order |
| Builder.BytesBuilder.AppendCharWithOrder | src/io/njlr/bytes/BytesBuilder.java:152-167 | appends the char's two bytes in the given order |
| Builder.BytesBuilder.AppendChar | src/io/njlr/bytes/BytesBuilder.java:179-182 | appends the char's two bytes in the current default order |
| Builder.BytesBuilder.AppendShortWithOrder | src/io/njlr/bytes/BytesBuilder.java:195-210 | appends the short's two bytes in the given order |
| Builder.BytesBuilder.AppendShort | src/io/njlr/bytes/BytesBuilder.java:222-225 | appends the short's two bytes in the current default order |
| Builder.BytesBuilder.AppendIntWithOrder | src/io/njlr/bytes/BytesBuilder.java:238-257 | appends the int's four bytes in the given order |
| Builder.BytesBuilder.AppendInt | src/io/njlr/bytes/BytesBuilder.java:269-272 | appends the int's four bytes in the current default order |
| Builder.BytesBuilder.AppendLongWithOrder | src/io/njlr/bytes/BytesBuilder.java:285-312 | appends the long's eight bytes in the given order |
| Builder.BytesBuilder.AppendLong | src/io/njlr/bytes/BytesBuilder.java:324-327 | appends the long's eight bytes in the current default order |
| Builder.BytesBuilder.Compact | src/io/njlr/bytes/BytesBuilder.java:447-455 | the state moves as `BuilderState.Compact` |
| Builder.BytesBuilder.Reverse | src/io/njlr/bytes/BytesBuilder.java:462-481 | the in-place swapping loop moves the state as `BuilderState.Reverse`, in the same array |
| Builder.BytesBuilder.Clear | src/io/njlr/bytes/BytesBuilder.java:495-498 | the state moves as `BuilderState.Clear` |
| Builder.BytesBuilder.Allocate | src/io/njlr/bytes/BytesBuilder.java:513-521 | the state moves as `BuilderState.Allocate` |
| Builder.BytesBuilder.ToBytes | src/io/njlr/bytes/BytesBuilder.java:530-535 | returns `BuilderState.ToBytes` of the old state, and leaves the builder compacted |
| Reader.BytesReader.constructor | src/io/njlr/bytes/BytesReader.java:13-20 | a new reader is at index 0 and big-endian |
| Reader.BytesReader.Remaining | src/io/njlr/bytes/BytesReader.java:66-69 | `remaining()` is `length - index` when that fits an `int`, which is the count of unread bytes |
| Reader.BytesReader.Skip | src/io/njlr/bytes/BytesReader.java:22-27 | `skip(n)` adds `n` to the index with wrap-around and no check, lowering `remaining()` by `n` |
| Reader.BytesReader.ReadByte | src/io/njlr/bytes/BytesReader.java:29-32 | returns the byte at the index, advances the index by 1 and lowers `remaining()` by 1 |
| Reader.BytesReader.ReadIntWithOrder | src/io/njlr/bytes/BytesReader.java:34-54 | returns `DecodeInt` of the four bytes at the index in the given order, advances the index by 4 and lowers `remaining()` by 4 |
| Reader.BytesReader.ReadInt | src/io/njlr/bytes/BytesReader.java:56-59 | reads in the default order, which is always big-endian |
| Reader.BytesReader.ReadRemaining | src/io/njlr/bytes/BytesReader.java:61-64 | returns the bytes from the index to the end, which number `remaining()` |
| Reader.BytesReader.Reset | src/io/njlr/bytes/BytesReader.java:71-76 | back to index 0 and big-endian |
| Scenarios.BuildMixedOrders | tests/io/njlr/bytes/tests/BytesReaderTests.java:16 | the test's builder chain yields the three encodings side by side |
| Scenarios.ReadThreeInts | tests/io/njlr/bytes/tests/BytesReaderTests.java:18-22 | the test's three reads decode the three words in their orders |
| Scenarios.ThreeWordsReadBack | tests/io/njlr/bytes/tests/BytesReaderTests.java:20-22 | those three words decode back to the three values |
| Scenarios.ReadMixedOrders | tests/io/njlr/bytes/tests/BytesReaderTests.java:14-23 | for all three ints, the reader test reads back what the builder appended, with mixed orders |
| Scenarios.ReadBackAfterPrefix | src/io/njlr/bytes/BytesReader.java:22-54 | after any prefix, `appendInt(v, o)` and then `skip` plus `readInt(o)` on a reader give back `v` |
| Scenarios.AppendArrayThenRead | tests/io/njlr/bytes/tests/BytesBuilderTests.java:58-71 | `append(byte[])` then `toBytes()` gives the array's bytes, index for index |
| Scenarios.AppendOwnBytes | tests/io/njlr/bytes/tests/BytesBuilderTests.java:73-98 | appending a builder's own `toBytes()` result doubles it |
| Scenarios.SnapshotSurvivesClear | src/io/njlr/bytes/BytesBuilder.java:523-535 | a returned `Bytes` is unaffected by later `clear()` and appends, and the builder then holds only the new bytes |
| Scenarios.ClearAfterInts | tests/io/njlr/bytes/tests/BytesBuilderTests.java:249-263 | a new builder has length 0, three ints make length 12, and `clear()` makes length 0 and keeps the allocation |
| Scenarios.AllocateAndCompact | tests/io/njlr/bytes/tests/BytesBuilderTests.java:265-287 | a builder made with allocation 10 has allocation 10, `allocate(20)` makes it 20, and `compact()` of another such empty builder makes it 0 |
| Scenarios.WritesDoNotReachBytes | tests/io/njlr/bytes/tests/BytesTests.java:72-108 | writing to the source array, or to an array from `array()`, leaves the `Bytes` and its `of` twin unchanged; the written source array then differs from the `Bytes` whenever the write changed a byte |
| Scenarios.BytesBasics | tests/io/njlr/bytes/tests/BytesTests.java:18-33 | a `Bytes` made from any array has its length and its bytes, and `array()` gives the same contents back |
| Scenarios.EqualsOfCopies | tests/io/njlr/bytes/tests/BytesTests.java:35-50 | two instances made from one array are equal, and one made from another array is equal exactly when the contents agree |
| Scenarios.HashOfCopies | tests/io/njlr/bytes/tests/BytesTests.java:52-62 | two instances made from one array have equal `hashCode()` |
| Scenarios.AppendEachByte | tests/io/njlr/bytes/tests/BytesBuilderTests.java:20-28 | a run of `append(byte)` calls on any builder adds exactly those bytes after its contents |
| Scenarios.AppendEach | tests/io/njlr/bytes/tests/BytesBuilderTests.java:15-40 | any bytes appended one `append(byte)` at a time come back from `toBytes()` with the same length, index for index |
| Scenarios.LengthCounts | tests/io/njlr/bytes/tests/BytesBuilderTests.java:42-56 | `length()` is 0, then 1 after one append, then 4 after three more |
| Scenarios.BuildBooleans | tests/io/njlr/bytes/tests/BytesBuilderTests.java:103-107 | four `appendBoolean` calls give the four one-byte encodings side by side, and length 4 |
| Scenarios.AppendBooleans | tests/io/njlr/bytes/tests/BytesBuilderTests.java:100-115 | each of the four bytes is 1 exactly when its boolean was true |
| Scenarios.BuildChars | tests/io/njlr/bytes/tests/BytesBuilderTests.java:120-126 | three `appendChar(c)` in the default big-endian order and one little-endian give those four encodings and length 8 |
| Scenarios.AppendChars | tests/io/njlr/bytes/tests/BytesBuilderTests.java:117-137 | the four chars decode back in the same orders |
| Scenarios.BuildShorts | tests/io/njlr/bytes/tests/BytesBuilderTests.java:142-148 | three `appendShort(s)` in the default order and one little-endian give those four encodings and length 8 |
| Scenarios.AppendShorts | tests/io/njlr/bytes/tests/BytesBuilderTests.java:139-159 | the four shorts decode back in the same orders |
| Scenarios.BuildInts | tests/io/njlr/bytes/tests/BytesBuilderTests.java:164-170 | three `appendInt(i)` in the default order and one little-endian give those four encodings and length 16 |
| Scenarios.AppendInts | tests/io/njlr/bytes/tests/BytesBuilderTests.java:161-181 | the four ints decode back in the same orders |
| Scenarios.BuildLongs | tests/io/njlr/bytes/tests/BytesBuilderTests.java:186-192 | three `appendLong(l)` in the default order and one little-endian give those four encodings and length 32 |
| Scenarios.AppendLongs | tests/io/njlr/bytes/tests/BytesBuilderTests.java:183-203 | the four longs decode back in the same orders |

## Left out

- `Bytes.toString` decodes UTF-8 through the Java charset library. That library is not part of this model.
- `appendFloat` and `appendDouble` depend on `Float.floatToIntBits` and `Double.doubleToLongBits`. Beyond those calls they only delegate to `appendInt` and `appendLong`, which are modelled.
- The equality modelled is `equals` called with a `Bytes`. For any other object Java returns false. Java's same-reference shortcut becomes a comparison of values in the model, which gives the same result.
- Exceptions become preconditions: a negative allocation, an out-of-range `get`, `sub`, `readByte`, `readInt` or `readRemaining`, `count + n` overflowing an `int` in the builder, and the lengths of two non-empty operands of `concat` adding up past `Integer.MAX_VALUE` (a negative `Arrays.copyOf` size). Index bounds are in terms of an unbounded integer `count`.
- Reader.BytesReader.ReadByte: leaves out that a failing `bytes.get(index++)` has already advanced the index, since its precondition excludes the failure.
- Reader.BytesReader.ReadIntWithOrder: likewise leaves out how far the index moves before a failing read.
- `null` arguments, `Serializable` and `serialVersionUID`, and the thread-safety remarks are not modelled.
- The builder's fluent `return this` is not modelled. Each Dafny method changes the builder, and clients call the next method on the same object.
- Builder.BytesBuilder.AppendIntWithOrder: writes the bytes of `EncodeInt(i, order)` one after another. The branch on the order and the shifts of lines 242-254 live in `Encoding.EncodeInt`. The same holds for the 16- and 64-bit appends.
- Hash of a concatenation is not stated. Unfolding `37 * h` over symbolic 32-bit vectors was too costly for the solver, so only `Hash` itself, `HashStep` and equal-contents-equal-hash are proved.
- The test asserting that two particular strings hash differently is not modelled, nor are the floating-point tests. It is a fact about concrete values, not a property.

## Findings

| source | as written | input that shows it | evidently intended | confidence | as-written member | corrected member |
|---|---|---|---|---|---|---|
| src/io/njlr/bytes/Bytes.java:97 | `System.arraycopy(value, 0, buffer, lengthOfThis, value.length)` copies `this` into the second half | `[1].concat([2])` gives `[1, 1]`; `[1, 2].concat([3])` throws `ArrayIndexOutOfBoundsException` | copy `that.value` there, so the result is `this ++ that` as the documentation says | high, not executed | ImmutableBytes.Bytes.ConcatAsWritten, ImmutableBytes.ConcatAsWrittenCounterexample | ImmutableBytes.Bytes.Concat |
| src/io/njlr/bytes/BytesBuilder.java:539-543 | `(value.length + 1) * 2` is clamped only when it is negative; at `value.length == Integer.MAX_VALUE` it wraps to exactly 0 | a builder whose allocation is `Integer.MAX_VALUE` holding `count` bytes: `append((byte) 1)` reallocates to `count + 1` bytes, shrinking the allocation | clamp whenever the doubling overflows (`newCapacity <= 0`), so growth never shrinks the allocation | low, not executed (needs a 2 GiB array) | Builder.ExpandAtMaximum, Builder.AppendAtMaximumShrinks | Builder.NewCapacityClamped |
| src/io/njlr/bytes/BytesBuilder.java:465 | `j = value.length - 1` reverses the whole backing array, including the unused allocation | a builder holding one byte 7 with allocation 2 (e.g. after `allocate(2)`): `reverse().toBytes()` gives `[0]` | `j = count - 1`, reversing the bytes already appended as the documentation says | high, not executed | Builder.BuilderState.Reverse, Builder.ReverseCounterexample | Builder.BuilderState.ReverseAppended |

The builder class keeps `reverse()` and `expandCapacity` as written; `Builder.ClampedDiffersOnlyAtMaximum` shows the growth rules agree except at `Integer.MAX_VALUE`. `Builder.ReverseOfCompacted` proves that calling `compact()` first gives the documented result.
