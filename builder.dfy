/**
 * `io.njlr.bytes.BytesBuilder`: a growable byte buffer with a default byte order.
 *
 * `BuilderState` is the builder's whole state as a value (the backing array's
 * contents, the logical length `count`, the default order) and each of its
 * functions is what one Java method does to that state. The class
 * `BytesBuilder` is the imperative object; each of its methods is proved to
 * move its `State()` exactly as the matching function says.
 */
module Builder {
  import opened Primitives
  import opened Encoding
  import opened ImmutableBytes

  /** The allocation of `new BytesBuilder()`. */
  const DefaultAllocation: nat := 8

  /**
   * The allocation `expandCapacity(minimumCapacity)` moves to:
   * `(allocation + 1) * 2` in 32-bit arithmetic, clamped to `Integer.MAX_VALUE`
   * when that is negative, and raised to `minimumCapacity` when it is smaller.
   */
  function NewCapacity(allocation: nat, minimumCapacity: nat): (r: nat)
    requires allocation <= IntMax && minimumCapacity <= IntMax
    ensures minimumCapacity <= r <= IntMax
    ensures (allocation + 1) * 2 <= IntMax ==> r == Max((allocation + 1) * 2, minimumCapacity)
    ensures allocation < IntMax ==> allocation < r
  {
    var doubled := Doubled(allocation);
    if doubled < 0 then IntMax
    else if minimumCapacity > doubled then minimumCapacity
    else doubled
  }

  /**
   * `(allocation + 1) * 2` as a Java `int`: the exact value lies in
   * `2..2^32`, so wrapping it subtracts `2^32` exactly when it exceeds
   * `Integer.MAX_VALUE`.
   */
  function Doubled(allocation: nat): (r: JInt)
    requires allocation <= IntMax
  {
    var exact := (allocation + 1) * 2;
    if exact <= IntMax then exact else exact - 0x1_0000_0000
  }

  /** That is Java's 32-bit wrap-around of the product. */
  lemma DoubledWraps(allocation: nat)
    requires allocation <= IntMax
    ensures Doubled(allocation) == Wrap32((allocation + 1) * 2)
  {
  }

  datatype BuilderState = BuilderState(backing: seq<JByte>, count: nat, order: ByteOrder) {

    /** The builder's invariant: the logical length fits the allocation, which fits a Java array. */
    predicate Valid()
    {
      count <= |backing| <= IntMax
    }

    /** The bytes appended so far: what `toBytes()` would return now. */
    function Contents(): seq<JByte>
      requires Valid()
    {
      backing[..count]
    }

    /** `expandCapacity(minimumCapacity)`: always a new array, never fewer than `minimumCapacity` bytes. */
    function Expand(minimumCapacity: nat): (r: BuilderState)
      requires Valid() && count <= minimumCapacity <= IntMax
      ensures r.Valid() && r.count == count && r.order == order
      ensures |r.backing| == NewCapacity(|backing|, minimumCapacity)
      ensures r.Contents() == Contents()
      ensures |backing| <= |r.backing| ==> r.backing == backing + Zeros(|r.backing| - |backing|)
    {
      var grown := CopyOf(backing, NewCapacity(|backing|, minimumCapacity));
      assert grown[..count] == grown[..Min(|backing|, |grown|)][..count];
      this.(backing := grown)
    }

    /**
     * Every append: `expandCapacity(count + n)`, then the `n` bytes written
     * at `count`, then `count` advanced by `n`.
     */
    function Append(bytes: seq<JByte>): (r: BuilderState)
      requires Valid() && count + |bytes| <= IntMax
      ensures r.Valid() && r.order == order && r.count == count + |bytes|
      ensures r.Contents() == Contents() + bytes
      ensures |r.backing| == NewCapacity(|backing|, count + |bytes|)
      ensures r.backing[r.count..] == Expand(count + |bytes|).backing[r.count..]
    {
      var grown := Expand(count + |bytes|);
      grown.(backing := Splice(grown.backing, count, bytes), count := count + |bytes|)
    }

    /** `order(endianness)`: only the default order changes. */
    function SetOrder(endianness: ByteOrder): (r: BuilderState)
      requires Valid()
      ensures r.Valid() && r.order == endianness
      ensures r.backing == backing && r.count == count && r.Contents() == Contents()
    {
      this.(order := endianness)
    }

    /** `compact()`: the allocation shrinks to the logical length. */
    function Compact(): (r: BuilderState)
      requires Valid()
      ensures r.Valid() && r.count == count && r.order == order
      ensures |r.backing| == count && r.backing == Contents() && r.Contents() == Contents()
    {
      if count < |backing| then this.(backing := CopyOf(backing, count)) else this
    }

    /**
     * `reverse()`: the WHOLE backing array is reversed, not only the
     * appended bytes; `count` and the allocation stay.
     */
    function Reverse(): (r: BuilderState)
      requires Valid()
      ensures r.Valid() && r.count == count && r.order == order && |r.backing| == |backing|
      ensures forall i :: 0 <= i < |backing| ==> r.backing[i] == backing[|backing| - 1 - i]
    {
      ReversedIndex(backing);
      this.(backing := Reversed(backing))
    }

    /** What the documentation of `reverse()` describes: the appended bytes reversed. */
    function ReverseAppended(): (r: BuilderState)
      requires Valid()
      ensures r.Valid() && r.count == count && r.order == order && |r.backing| == |backing|
      ensures r.Contents() == Reversed(Contents())
      ensures r.backing[count..] == backing[count..]
    {
      ReversedIndex(backing[..count]);
      var b := Reversed(backing[..count]) + backing[count..];
      assert b[..count] == Reversed(backing[..count]);
      this.(backing := b)
    }

    /** `clear()`: the logical length drops to zero; the array and its bytes stay. */
    function Clear(): (r: BuilderState)
      requires Valid()
      ensures r.Valid() && r.Contents() == [] && r.backing == backing && r.order == order
    {
      this.(count := 0)
    }

    /**
     * `allocate(allocation)`: the array is copied to exactly `allocation`
     * bytes and `count` is cut down to it when larger.
     */
    function Allocate(allocation: nat): (r: BuilderState)
      requires Valid() && allocation <= IntMax
      ensures r.Valid() && |r.backing| == allocation && r.order == order
      ensures r.count == Min(count, allocation)
      ensures r.Contents() == Contents()[..Min(count, allocation)]
      ensures r.backing[..Min(|backing|, allocation)] == backing[..Min(|backing|, allocation)]
      ensures forall k :: |backing| <= k < allocation ==> r.backing[k] == 0
    {
      var b := CopyOf(backing, allocation);
      var c := if count > allocation then allocation else count;
      assert b[..c] == b[..Min(|backing|, allocation)][..c];
      this.(backing := b, count := c)
    }

    /** The value `toBytes()` returns: a copy of the first `count` bytes after compacting. */
    function ToBytes(): (r: Bytes)
      requires Valid()
      ensures r.value == Contents()
    {
      var compacted := Compact();
      Bytes(CopyOf(compacted.backing, compacted.count))
    }
  }

  /** A chain of `appendInt(value, order)` calls, one per field. */
  function AppendInts(st: BuilderState, fields: seq<(bv32, ByteOrder)>): (r: BuilderState)
    requires st.Valid() && st.count + 4 * |fields| <= IntMax
    ensures r.Valid() && r.count == st.count + 4 * |fields|
    decreases |fields|
  {
    if fields == [] then st
    else AppendInts(st.Append(EncodeInt(fields[0].0, fields[0].1)), fields[1..])
  }

  /** The bytes a chain of `appendInt` calls writes, field after field. */
  function EncodedInts(fields: seq<(bv32, ByteOrder)>): (r: seq<JByte>)
    ensures |r| == 4 * |fields|
  {
    if fields == [] then [] else EncodeInt(fields[0].0, fields[0].1) + EncodedInts(fields[1..])
  }

  /** Appends never disturb what is already there: the chain adds exactly the fields' bytes. */
  lemma {:induction false} AppendedIntsContents(st: BuilderState, fields: seq<(bv32, ByteOrder)>)
    requires st.Valid() && st.count + 4 * |fields| <= IntMax
    ensures AppendInts(st, fields).Contents() == st.Contents() + EncodedInts(fields)
    decreases |fields|
  {
    if fields != [] {
      var enc, rest := EncodeInt(fields[0].0, fields[0].1), fields[1..];
      var next := st.Append(enc);
      AppendedIntsContents(next, rest);
      assert AppendInts(st, fields) == AppendInts(next, rest);
      assert EncodedInts(fields) == enc + EncodedInts(rest);
      assert next.Contents() == st.Contents() + enc;
      assert (st.Contents() + enc) + EncodedInts(rest) == st.Contents() + (enc + EncodedInts(rest));
    }
  }

  /** Field `j` sits at offset `4 * j` of the concatenated encodings. */
  lemma {:induction false} EncodedIntsField(fields: seq<(bv32, ByteOrder)>, j: nat)
    requires j < |fields|
    ensures EncodedInts(fields)[4 * j..4 * j + 4] == EncodeInt(fields[j].0, fields[j].1)
    decreases j
  {
    var head, tail := EncodeInt(fields[0].0, fields[0].1), EncodedInts(fields[1..]);
    assert EncodedInts(fields) == head + tail;
    if j > 0 {
      EncodedIntsField(fields[1..], j - 1);
      assert fields[1..][j - 1] == fields[j];
      SliceAfterWord(head, tail, EncodeInt(fields[j].0, fields[j].1), 4 * (j - 1));
    }
  }

  lemma SliceAfterPrefix(prefix: seq<JByte>, rest: seq<JByte>, w: seq<JByte>, k: nat, at: nat)
    requires at == |prefix| && k + 4 <= |rest| && rest[k..k + 4] == w
    ensures (prefix + rest)[at + k..at + k + 4] == w
  {
    assert (prefix + rest)[at + k..at + k + 4] == rest[k..k + 4];
  }

  lemma SliceAfterWord(head: seq<JByte>, tail: seq<JByte>, w: seq<JByte>, k: nat)
    requires |head| == 4 && k + 4 <= |tail| && tail[k..k + 4] == w
    ensures (head + tail)[k + 4..k + 8] == w
  {
    assert (head + tail)[k + 4..k + 8] == tail[k..k + 4];
  }

  /** Field `j` of the encodings, after a prefix of `at` bytes, sits at offset `at + 4 * j`. */
  lemma {:induction false} FieldAfterPrefix(prefix: seq<JByte>, fields: seq<(bv32, ByteOrder)>, j: nat, at: nat, c: seq<JByte>)
    requires j < |fields| && at == |prefix| && c == prefix + EncodedInts(fields)
    ensures c[at + 4 * j..at + 4 * j + 4] == EncodeInt(fields[j].0, fields[j].1)
  {
    var rest, w := EncodedInts(fields), EncodeInt(fields[j].0, fields[j].1);
    EncodedIntsField(fields, j);
    assert 4 * j + 4 <= |rest|;
    SliceAfterPrefix(prefix, rest, w, 4 * j, at);
  }

  /** Field `j` of the chain sits at offset `count + 4 * j` of the builder's contents. */
  lemma {:induction false} AppendedIntAt(st: BuilderState, fields: seq<(bv32, ByteOrder)>, j: nat)
    requires st.Valid() && st.count + 4 * |fields| <= IntMax && j < |fields|
    ensures AppendInts(st, fields).Contents()[st.count + 4 * j..st.count + 4 * j + 4] == EncodeInt(fields[j].0, fields[j].1)
  {
    var c, w := AppendInts(st, fields).Contents(), EncodeInt(fields[j].0, fields[j].1);
    AppendedIntsContents(st, fields);
    FieldAfterPrefix(st.Contents(), fields, j, st.count, c);
    assert c[st.count + 4 * j..st.count + 4 * j + 4] == w;
  }

  /** So each field decodes back to its value in its own order, as `readInt(order)` reads it. */
  lemma {:induction false} AppendedIntReadsBack(st: BuilderState, fields: seq<(bv32, ByteOrder)>, j: nat)
    requires st.Valid() && st.count + 4 * |fields| <= IntMax && j < |fields|
    ensures DecodeInt(AppendInts(st, fields).Contents()[st.count + 4 * j..st.count + 4 * j + 4], fields[j].1) == fields[j].0
  {
    AppendedIntAt(st, fields, j);
    IntRoundTrip(fields[j].0, fields[j].1);
  }

  /** Reversing the backing array twice restores the builder. */
  lemma ReverseTwice(st: BuilderState)
    requires st.Valid()
    ensures st.Reverse().Reverse() == st
  {
    ReversedInvolution(st.backing);
  }

  /** Once compacted, `reverse()` does reverse exactly the appended bytes. */
  lemma ReverseOfCompacted(st: BuilderState)
    requires st.Valid() && st.count == |st.backing|
    ensures st.Reverse().Contents() == Reversed(st.Contents())
  {
    ReversedIndex(st.backing);
    assert st.Contents() == st.backing;
  }

  /**
   * With spare allocation, `reverse()` is not what its documentation says:
   * one appended byte 7 in a two-byte array comes out as 0.
   */
  lemma ReverseCounterexample()
    ensures BuilderState([7, 0], 1, BigEndian).Reverse().Contents() == [0]
    ensures Reversed(BuilderState([7, 0], 1, BigEndian).Contents()) == [7]
    ensures BuilderState([7, 0], 1, BigEndian).ReverseAppended().Contents() == [7]
  {
    assert Reversed([7 as JByte]) == [7];
    assert Reversed([7 as JByte, 0]) == [0, 7];
  }

  /** After `clear()`, `toBytes()` holds only what was appended since. */
  lemma ClearThenAppend(st: BuilderState, bytes: seq<JByte>)
    requires st.Valid() && |bytes| <= IntMax
    ensures st.Clear().Append(bytes).ToBytes().value == bytes
  {
  }

  /** Below the maximum, growth never shrinks the allocation. */
  lemma AppendNeverShrinks(st: BuilderState, bytes: seq<JByte>)
    requires st.Valid() && st.count + |bytes| <= IntMax && |st.backing| < IntMax
    ensures |st.Append(bytes).backing| > |st.backing|
  {
  }

  /**
   * At an allocation of `Integer.MAX_VALUE`, `(allocation + 1) * 2` wraps to
   * exactly 0, which is not negative: the clamp is skipped and the new
   * allocation is whatever minimum was asked for.
   */
  lemma ExpandAtMaximum(minimumCapacity: nat)
    requires minimumCapacity <= IntMax
    ensures Wrap32((IntMax + 1) * 2) == 0
    ensures NewCapacity(IntMax, minimumCapacity) == minimumCapacity
  {
  }

  /**
   * So an append to a builder whose allocation is `Integer.MAX_VALUE` shrinks
   * the allocation to the new length whenever that is smaller, although the
   * appended bytes are kept.
   */
  lemma AppendAtMaximumShrinks(st: BuilderState, bytes: seq<JByte>)
    requires st.Valid() && |st.backing| == IntMax && st.count + |bytes| < IntMax
    ensures |st.Append(bytes).backing| == st.count + |bytes| < |st.backing|
    ensures st.Append(bytes).Contents() == st.Contents() + bytes
  {
    ExpandAtMaximum(st.count + |bytes|);
  }

  /**
   * The growth the class documentation promises, an array "automatically
   * enlarged as the caller appends values": doubling that overflows an `int`
   * (to a negative value or to 0) clamps to `Integer.MAX_VALUE`.
   */
  function NewCapacityClamped(allocation: nat, minimumCapacity: nat): (r: nat)
    requires allocation <= IntMax && minimumCapacity <= IntMax
    ensures minimumCapacity <= r <= IntMax
    ensures allocation <= r
    ensures (allocation + 1) * 2 <= IntMax ==> r == NewCapacity(allocation, minimumCapacity)
  {
    var doubled := Doubled(allocation);
    if doubled <= 0 then IntMax
    else if minimumCapacity > doubled then minimumCapacity
    else doubled
  }

  /** The clamped growth agrees with the code everywhere except at `Integer.MAX_VALUE`. */
  lemma ClampedDiffersOnlyAtMaximum(allocation: nat, minimumCapacity: nat)
    requires allocation <= IntMax && minimumCapacity <= IntMax
    ensures (NewCapacityClamped(allocation, minimumCapacity) != NewCapacity(allocation, minimumCapacity))
        <==> (allocation == IntMax && minimumCapacity < IntMax)
  {
  }

  /** Two consecutive writes from `at` are one splice. */
  lemma Writes2(d: seq<JByte>, at: nat, e: seq<JByte>)
    requires |e| == 2 && at + 2 <= |d|
    ensures d[at := e[0]][at + 1 := e[1]] == Splice(d, at, e)
  {
    assert d[at := e[0]][at + 1 := e[1]] == d[..at] + e + d[at + 2..];
  }

  /** Four consecutive writes from `at` are one splice. */
  lemma Writes4(d: seq<JByte>, at: nat, e: seq<JByte>)
    requires |e| == 4 && at + 4 <= |d|
    ensures d[at := e[0]][at + 1 := e[1]][at + 2 := e[2]][at + 3 := e[3]] == Splice(d, at, e)
  {
    assert d[at := e[0]][at + 1 := e[1]][at + 2 := e[2]][at + 3 := e[3]] == d[..at] + e + d[at + 4..];
  }

  /** Eight bytes spliced in as two halves of four are one splice. */
  lemma SpliceHalves(d: seq<JByte>, at: nat, e: seq<JByte>)
    requires |e| == 8 && at + 8 <= |d|
    ensures Splice(Splice(d, at, e[..4]), at + 4, e[4..]) == Splice(d, at, e)
  {
    var h := Splice(d, at, e[..4]);
    assert Splice(h, at + 4, e[4..]) == d[..at] + e + d[at + 8..];
  }

  /** An append is its expansion followed by the bytes written at the old `count`. */
  lemma AppendIsWrite(st: BuilderState, grown: BuilderState, bytes: seq<JByte>)
    requires st.Valid() && st.count + |bytes| <= IntMax && grown == st.Expand(st.count + |bytes|)
    ensures st.Append(bytes) == BuilderState(Splice(grown.backing, st.count, bytes), st.count + |bytes|, st.order)
  {
  }

  /** A sequence that holds `s` back to front, index by index, is `Reversed(s)`. */
  lemma ReversedFromIndex(a: seq<JByte>, s: seq<JByte>)
    requires |a| == |s| && forall k :: 0 <= k < |a| ==> a[k] == s[|s| - 1 - k]
    ensures a == Reversed(s)
  {
    ReversedIndex(s);
  }

  class BytesBuilder {
    var value: array<JByte>
    var count: nat
    var endianness: ByteOrder

    /** The state as a value. */
    ghost function State(): BuilderState
      reads this, value
    {
      BuilderState(value[..], count, endianness)
    }

    ghost predicate Valid()
      reads this, value
    {
      State().Valid()
    }

    /** `new BytesBuilder()`: eight zero bytes of allocation, big-endian. */
    constructor ()
      ensures Valid() && fresh(value)
      ensures State() == BuilderState(Zeros(DefaultAllocation), 0, BigEndian)
    {
      var a := new JByte[DefaultAllocation](_ => 0);
      assert a[..] == Zeros(DefaultAllocation);
      value, count, endianness := a, 0, BigEndian;
    }

    /** `new BytesBuilder(allocation)`. Java throws for a negative allocation. */
    constructor WithAllocation(allocation: nat)
      requires allocation <= IntMax
      ensures Valid() && fresh(value)
      ensures State() == BuilderState(Zeros(allocation), 0, BigEndian)
    {
      var a := new JByte[allocation](_ => 0);
      assert a[..] == Zeros(allocation);
      value, count, endianness := a, 0, BigEndian;
    }

    /** `new BytesBuilder(allocation, endianness)`. */
    constructor WithAllocationAndOrder(allocation: nat, endianness: ByteOrder)
      requires allocation <= IntMax
      ensures Valid() && fresh(value)
      ensures State() == BuilderState(Zeros(allocation), 0, endianness)
    {
      var a := new JByte[allocation](_ => 0);
      assert a[..] == Zeros(allocation);
      this.value, this.count, this.endianness := a, 0, endianness;
    }

    /** `length()`: the number of bytes appended. */
    function Length(): (n: nat)
      reads this, value
      requires Valid()
      ensures n == |State().Contents()|
    {
      count
    }

    /** `allocation()`: the size of the backing array, never below `length()`. */
    function Allocation(): (n: nat)
      reads this, value
      requires Valid()
      ensures n == |State().backing| && Length() <= n <= IntMax
    {
      value.Length
    }

    /** `order()`: the default order the one-argument appends use. */
    function Order(): (e: ByteOrder)
      reads this, value
      ensures e == State().order
    {
      endianness
    }

    /** `order(endianness)`. */
    method SetOrder(endianness: ByteOrder)
      requires Valid()
      modifies this
      ensures Valid() && State() == old(State()).SetOrder(endianness)
      ensures value == old(value)
    {
      this.endianness := endianness;
    }

    method ExpandCapacity(minimumCapacity: nat)
      requires Valid() && count <= minimumCapacity <= IntMax
      modifies this
      ensures Valid() && fresh(value)
      ensures State() == old(State()).Expand(minimumCapacity)
    {
      var newCapacity := (value.Length + 1) * 2;
      if newCapacity > IntMax {
        newCapacity := newCapacity - 0x1_0000_0000;
      }
      if newCapacity < 0 {
        newCapacity := IntMax;
      } else if minimumCapacity > newCapacity {
        newCapacity := minimumCapacity;
      }
      value := ArrayCopyOf(value, newCapacity);
    }

    /** `value[count++] = b`. */
    method Put(b: JByte)
      requires Valid() && count < value.Length
      modifies this, value
      ensures Valid() && value == old(value) && endianness == old(endianness)
      ensures count == old(count) + 1 && value[..] == old(value[..])[old(count) := b]
      ensures value[..] == Splice(old(value[..]), old(count), [b])
    {
      value[count] := b;
      count := count + 1;
      assert value[..] == old(value[..])[..old(count)] + [b] + old(value[..])[old(count) + 1..];
    }

    /** Two bytes written at `count` one after another, as `value[count++] = …` twice. */
    method PutTwo(e: seq<JByte>)
      requires Valid() && |e| == 2 && count + 2 <= value.Length
      modifies this, value
      ensures Valid() && value == old(value) && endianness == old(endianness)
      ensures count == old(count) + 2 && value[..] == Splice(old(value[..]), old(count), e)
    {
      ghost var g, c := value[..], count;
      Put(e[0]);
      Put(e[1]);
      assert value[..] == g[c := e[0]][c + 1 := e[1]];
      Writes2(g, c, e);
    }

    /** Four bytes written at `count` one after another, as `value[count++] = …` four times. */
    method PutFour(e: seq<JByte>)
      requires Valid() && |e| == 4 && count + 4 <= value.Length
      modifies this, value
      ensures Valid() && value == old(value) && endianness == old(endianness)
      ensures count == old(count) + 4 && value[..] == Splice(old(value[..]), old(count), e)
    {
      ghost var g, c := value[..], count;
      Put(e[0]);
      Put(e[1]);
      assert value[..] == g[c := e[0]][c + 1 := e[1]];
      Put(e[2]);
      Put(e[3]);
      assert value[..] == g[c := e[0]][c + 1 := e[1]][c + 2 := e[2]][c + 3 := e[3]];
      Writes4(g, c, e);
      assert value[..] == Splice(g, c, e) && count == c + 4;
    }

    /** Eight bytes written at `count` one after another, as two runs of four. */
    method PutEight(e: seq<JByte>)
      requires Valid() && |e| == 8 && count + 8 <= value.Length
      modifies this, value
      ensures Valid() && value == old(value) && endianness == old(endianness)
      ensures count == old(count) + 8 && value[..] == Splice(old(value[..]), old(count), e)
    {
      ghost var g, c := value[..], count;
      PutFour(e[..4]);
      PutFour(e[4..]);
      SpliceHalves(g, c, e);
    }

    /** `append(byte)`. */
    method Append(b: JByte)
      requires Valid() && count + 1 <= IntMax
      modifies this
      ensures Valid() && fresh(value)
      ensures State() == old(State()).Append([b])
    {
      ghost var st, e := State(), [b];
      ExpandCapacity(count + 1);
      ghost var grown := State();
      Put(b);
      AppendIsWrite(st, grown, e);
    }

    /** `append(byte[])`: `System.arraycopy` into the grown array. */
    method AppendArray(b: array<JByte>)
      requires Valid() && count + b.Length <= IntMax
      modifies this
      ensures Valid() && fresh(value)
      ensures State() == old(State()).Append(b[..])
    {
      ghost var st, src := State(), b[..];
      var newCount := count + b.Length;
      ExpandCapacity(newCount);
      ghost var grown := State();
      assert value != b;
      ArrayCopy(b, value, count);
      count := newCount;
      assert b[..] == src;
      AppendIsWrite(st, grown, src);
    }

    /** `append(Bytes)`: appends a copy obtained through `array()`. */
    method AppendBytes(b: Bytes)
      requires Valid() && count + |b.value| <= IntMax
      modifies this
      ensures Valid() && fresh(value)
      ensures State() == old(State()).Append(b.value)
    {
      var a := ToArray(b);
      AppendArray(a);
    }

    /** `appendBoolean(b)`. */
    method AppendBoolean(b: bool)
      requires Valid() && count + 1 <= IntMax
      modifies this
      ensures Valid() && fresh(value)
      ensures State() == old(State()).Append(EncodeBoolean(b))
    {
      ghost var st := State();
      ExpandCapacity(count + 1);
      ghost var grown := State();
      var e := EncodeBoolean(b);
      Put(e[0]);
      assert [e[0]] == e;
      AppendIsWrite(st, grown, e);
    }

    /**
     * The two bytes of `appendChar(c, order)` and `appendShort(s, order)`,
     * written at `count` one after another; `Encode16` holds the two
     * branches on the order with their shifts.
     */
    method Append16(x: bv16, order: ByteOrder)
      requires Valid() && count + 2 <= IntMax
      modifies this
      ensures Valid() && fresh(value)
      ensures State() == old(State()).Append(Encode16(x, order))
    {
      ghost var st := State();
      ExpandCapacity(count + 2);
      ghost var grown := State();
      var e := Encode16(x, order);
      PutTwo(e);
      AppendIsWrite(st, grown, e);
    }

    /** `appendChar(c, endianness)`; a Java `char` is an unsigned 16-bit value. */
    method AppendCharWithOrder(c: bv16, endianness: ByteOrder)
      requires Valid() && count + 2 <= IntMax
      modifies this
      ensures Valid() && fresh(value)
      ensures State() == old(State()).Append(Encode16(c, endianness))
    {
      Append16(c, endianness);
    }

    /** `appendChar(c)`: in the current default order. */
    method AppendChar(c: bv16)
      requires Valid() && count + 2 <= IntMax
      modifies this
      ensures Valid() && fresh(value)
      ensures State() == old(State()).Append(Encode16(c, old(endianness)))
    {
      AppendCharWithOrder(c, endianness);
    }

    /** `appendShort(s, endianness)`: the same two bytes as a `char` with the same bits. */
    method AppendShortWithOrder(s: bv16, endianness: ByteOrder)
      requires Valid() && count + 2 <= IntMax
      modifies this
      ensures Valid() && fresh(value)
      ensures State() == old(State()).Append(Encode16(s, endianness))
    {
      Append16(s, endianness);
    }

    /** `appendShort(s)`: in the current default order. */
    method AppendShort(s: bv16)
      requires Valid() && count + 2 <= IntMax
      modifies this
      ensures Valid() && fresh(value)
      ensures State() == old(State()).Append(Encode16(s, old(endianness)))
    {
      AppendShortWithOrder(s, endianness);
    }

    /** `appendInt(i, endianness)`: the bytes of `EncodeInt`, written at `count` in turn. */
    method AppendIntWithOrder(i: bv32, endianness: ByteOrder)
      requires Valid() && count + 4 <= IntMax
      modifies this
      ensures Valid() && fresh(value)
      ensures State() == old(State()).Append(EncodeInt(i, endianness))
    {
      ghost var st := State();
      ExpandCapacity(count + 4);
      ghost var grown := State();
      var e := EncodeInt(i, endianness);
      PutFour(e);
      AppendIsWrite(st, grown, e);
    }

    /** `appendInt(i)`: in the current default order. */
    method AppendInt(i: bv32)
      requires Valid() && count + 4 <= IntMax
      modifies this
      ensures Valid() && fresh(value)
      ensures State() == old(State()).Append(EncodeInt(i, old(endianness)))
    {
      AppendIntWithOrder(i, endianness);
    }

    /** `appendLong(l, endianness)`: the bytes of `EncodeLong`, written at `count` in turn. */
    method AppendLongWithOrder(l: bv64, endianness: ByteOrder)
      requires Valid() && count + 8 <= IntMax
      modifies this
      ensures Valid() && fresh(value)
      ensures State() == old(State()).Append(EncodeLong(l, endianness))
    {
      ghost var st := State();
      ExpandCapacity(count + 8);
      ghost var grown := State();
      var e := EncodeLong(l, endianness);
      PutEight(e);
      AppendIsWrite(st, grown, e);
    }

    /** `appendLong(l)`: in the current default order. */
    method AppendLong(l: bv64)
      requires Valid() && count + 8 <= IntMax
      modifies this
      ensures Valid() && fresh(value)
      ensures State() == old(State()).Append(EncodeLong(l, old(endianness)))
    {
      AppendLongWithOrder(l, endianness);
    }

    /** `compact()`. */
    method Compact()
      requires Valid()
      modifies this
      ensures Valid() && State() == old(State()).Compact()
    {
      if count < value.Length {
        value := ArrayCopyOf(value, count);
      }
    }

    /** `reverse()`: swaps from both ends of the backing array towards the middle. */
    method Reverse()
      requires Valid()
      modifies value
      ensures Valid() && State() == old(State()).Reverse()
    {
      ghost var s := value[..];
      var i := 0;
      var j := value.Length - 1;
      while j > i
        invariant 0 <= i <= value.Length && j == value.Length - 1 - i
        invariant forall k :: 0 <= k < i ==> value[k] == s[|s| - 1 - k] && value[|s| - 1 - k] == s[k]
        invariant forall k :: i <= k <= j ==> value[k] == s[k]
      {
        var t := value[j];
        value[j] := value[i];
        value[i] := t;
        j := j - 1;
        i := i + 1;
      }
      ReversedFromIndex(value[..], s);
    }

    /** `clear()`. */
    method Clear()
      requires Valid()
      modifies this
      ensures Valid() && State() == old(State()).Clear()
    {
      count := 0;
    }

    /** `allocate(allocation)`. Java throws for a negative allocation. */
    method Allocate(allocation: nat)
      requires Valid() && allocation <= IntMax
      modifies this
      ensures Valid() && fresh(value)
      ensures State() == old(State()).Allocate(allocation)
    {
      value := ArrayCopyOf(value, allocation);
      if count > allocation {
        count := allocation;
      }
    }

    /** `toBytes()`: compacts, then returns a copy of the appended bytes. */
    method ToBytes() returns (b: Bytes)
      requires Valid()
      modifies this
      ensures Valid() && State() == old(State()).Compact()
      ensures b == old(State()).ToBytes()
    {
      Compact();
      var copy := ArrayCopyOf(value, count);
      b := FromArray(copy);
      assert b.value == copy[..];
    }
  }
}
