/**
 * `io.njlr.bytes.Bytes`: an immutable sequence of Java bytes.
 *
 * The Java class wraps a private array that it copies on the way in and on
 * the way out, so no caller ever shares it; that is exactly a value, and the
 * model is a datatype over `seq<JByte>`.
 */
module ImmutableBytes {
  import opened Primitives

  datatype Bytes = Bytes(value: seq<JByte>) {

    /** `get(index)`; Java throws outside `[0, length())`. */
    function Get(index: int): (r: JByte)
      requires 0 <= index < |value|
      ensures r == value[index]
    {
      value[index]
    }

    /** `length()`. */
    function Length(): (n: nat)
      ensures n == |value|
    {
      |value|
    }

    /**
     * `concat(that)` with line 97 as its documentation says it should be:
     * the bytes of `that` are copied after those of `this`.
     */
    function Concat(that: Bytes): (r: Bytes)
      requires |value| == 0 || |that.value| == 0 || |value| + |that.value| <= IntMax
      ensures r.value == value + that.value
      ensures |that.value| == 0 ==> r == this
      ensures |value| == 0 ==> r == that
    {
      if |that.value| == 0 then this
      else if |value| == 0 then that
      else
        var buffer := CopyOf(value, |value| + |that.value|);
        Bytes(Splice(buffer, |value|, that.value))
    }

    /**
     * `concat(that)` as written: `System.arraycopy(value, 0, buffer,
     * lengthOfThis, value.length)` copies `this` a second time, and throws
     * (`None`) when that copy does not fit in the buffer. Before that,
     * `Arrays.copyOf` throws (`None`) when the `int` sum of the two lengths
     * wraps to a negative size.
     */
    function ConcatAsWritten(that: Bytes): (r: Option<Bytes>)
      ensures |that.value| == 0 ==> r == Some(this)
      ensures |value| == 0 < |that.value| ==> r == Some(that)
      ensures 0 < |value| && 0 < |that.value| ==>
                (r.None? <==> (|value| > |that.value| || |value| + |that.value| > IntMax))
      ensures 0 < |value| <= |that.value| && |value| + |that.value| <= IntMax ==>
                r == Some(Bytes(value + value + Zeros(|that.value| - |value|)))
    {
      if |that.value| == 0 then Some(this)
      else if |value| == 0 then Some(that)
      else if |value| + |that.value| > IntMax then None
      else
        var buffer := CopyOf(value, |value| + |that.value|);
        if |value| + |value| > |buffer| then None
        else
          ZerosDrop(|that.value|, |value|);
          Some(Bytes(Splice(buffer, |value|, value)))
    }

    /**
     * `sub(beginIndex, endIndex)`, which is `Arrays.copyOfRange`: it throws
     * unless `0 <= beginIndex <= endIndex` and `beginIndex <= length()`, and
     * pads with zeros where `endIndex` runs past the end.
     */
    function Sub(beginIndex: int, endIndex: int): (r: Bytes)
      requires 0 <= beginIndex <= endIndex && beginIndex <= |value|
      ensures |r.value| == endIndex - beginIndex
      ensures forall k :: 0 <= k < |r.value| && beginIndex + k < |value| ==> r.value[k] == value[beginIndex + k]
      ensures forall k :: 0 <= k < |r.value| && beginIndex + k >= |value| ==> r.value[k] == 0
      ensures endIndex <= |value| ==> r.value == value[beginIndex..endIndex]
    {
      Bytes(CopyOfRange(value, beginIndex, endIndex))
    }

    /** `sub(beginIndex)`: from `beginIndex` to the end. */
    function SubFrom(beginIndex: int): (r: Bytes)
      requires 0 <= beginIndex <= |value|
      ensures r.value == value[beginIndex..]
      ensures r == Sub(beginIndex, |value|)
    {
      Bytes(CopyOfRange(value, beginIndex, |value|))
    }

    /**
     * `equals(that)` for a `Bytes` argument: the identity shortcut, then
     * `Arrays.equals` (same length, same byte at every index).
     */
    function Equals(that: Bytes): (r: bool)
      ensures r <==> value == that.value
    {
      if this == that then true
      else |value| == |that.value| && forall k :: 0 <= k < |value| ==> value[k] == that.value[k]
    }

    /** `hashCode()`: the loop of `Hash`, with Java's 32-bit arithmetic. */
    method HashCode() returns (hash: bv32)
      ensures hash == Hash(value)
    {
      hash := 0;
      for i := 0 to |value|
        invariant hash == Hash(value[..i])
      {
        assert value[..i + 1] == value[..i] + [value[i]];
        HashStep(value[..i], value[i]);
        hash := Mix(hash, value[i]);
      }
      assert value[..|value|] == value;
    }

    /** `compareTo(that)`: the loop of `Compare`. */
    method CompareTo(that: Bytes) returns (r: int)
      ensures r == Compare(value, that.value)
    {
      var lengthOfThis, lengthOfThat := |value|, |that.value|;
      var limit := Min(lengthOfThis, lengthOfThat);
      var v1, v2 := value, that.value;
      var k := 0;
      while k < limit
        invariant 0 <= k <= limit
        invariant Compare(v1, v2) == Compare(v1[k..], v2[k..])
      {
        var c1, c2 := v1[k], v2[k];
        if c1 != c2 {
          return Signed(c1) - Signed(c2);
        }
        assert v1[k..][1..] == v1[k + 1..] && v2[k..][1..] == v2[k + 1..];
        k := k + 1;
      }
      return lengthOfThis - lengthOfThat;
    }
  }

  /** `new Bytes(value)`: a copy of the array's current contents. */
  method FromArray(a: array<JByte>) returns (b: Bytes)
    ensures b.value == a[..]
    ensures b.Length() == a.Length
    ensures forall i :: 0 <= i < a.Length ==> b.Get(i) == a[i]
  {
    b := Bytes(a[..]);
  }

  /** `Bytes.of(value)`, the static factory for the constructor. */
  method Of(a: array<JByte>) returns (b: Bytes)
    ensures b.value == a[..]
  {
    b := FromArray(a);
  }

  /** `array()`: a fresh array holding the bytes. */
  method ToArray(b: Bytes) returns (a: array<JByte>)
    ensures fresh(a) && a[..] == b.value
  {
    a := new JByte[|b.value|](i requires 0 <= i < |b.value| => b.value[i]);
  }

  /** One step of `hashCode`'s loop: `37 * hash + b`, wrapping at 32 bits. */
  function Mix(hash: bv32, b: JByte): bv32
  {
    37 * hash + Widen(b)
  }

  /** The hash `hashCode` computes: `Mix` folded from left to right, starting at 0. */
  function Hash(s: seq<JByte>): bv32
  {
    if s == [] then 0 else Mix(Hash(s[..|s| - 1]), s[|s| - 1])
  }

  /** The ordering `compareTo` computes, element by element from the front. */
  function Compare(s: seq<JByte>, t: seq<JByte>): int
  {
    if |s| == 0 || |t| == 0 then |s| - |t|
    else if s[0] != t[0] then Signed(s[0]) - Signed(t[0])
    else Compare(s[1..], t[1..])
  }

  /** One more byte at the end: one more step of the fold. */
  lemma HashStep(s: seq<JByte>, b: JByte)
    ensures Hash(s + [b]) == Mix(Hash(s), b)
  {
    assert (s + [b])[..|s|] == s;
  }

  /** Equal instances hash alike. */
  lemma EqualsImpliesEqualHash(a: Bytes, b: Bytes)
    requires a.Equals(b)
    ensures Hash(a.value) == Hash(b.value)
  {
  }

  /** Every sequence compares equal to itself. */
  lemma {:induction false} CompareReflexive(s: seq<JByte>)
    ensures Compare(s, s) == 0
  {
    if |s| > 0 {
      CompareReflexive(s[1..]);
    }
  }

  /** Swapping the operands negates the result, so the sign is antisymmetric. */
  lemma {:induction false} CompareAntisymmetric(s: seq<JByte>, t: seq<JByte>)
    ensures Compare(t, s) == -Compare(s, t)
  {
    if |s| > 0 && |t| > 0 && s[0] == t[0] {
      CompareAntisymmetric(s[1..], t[1..]);
    }
  }

  /** The result is 0 exactly when the sequences are equal, as `equals` says. */
  lemma {:induction false} CompareZeroIffEquals(a: Bytes, b: Bytes)
    ensures Compare(a.value, b.value) == 0 <==> a.Equals(b)
    decreases |a.value|
  {
    var s, t := a.value, b.value;
    if |s| > 0 && |t| > 0 && s[0] == t[0] {
      CompareZeroIffEquals(Bytes(s[1..]), Bytes(t[1..]));
      assert s == [s[0]] + s[1..] && t == [t[0]] + t[1..];
    } else if |s| > 0 && |t| > 0 {
      SignedInjective(s[0], t[0]);
    }
  }

  /** A strict prefix sorts first: its result is minus the length of the rest. */
  lemma {:induction false} ComparePrefix(s: seq<JByte>, u: seq<JByte>)
    ensures Compare(s, s + u) == -|u|
    ensures |u| > 0 ==> Compare(s, s + u) < 0
  {
    if |s| > 0 {
      assert (s + u)[1..] == s[1..] + u;
      ComparePrefix(s[1..], u);
    }
  }

  /**
   * The closed form of `compareTo`: the difference of the signed bytes at the
   * first index where the sequences differ, or else the difference of the lengths.
   */
  lemma {:induction false} CompareFirstDifference(s: seq<JByte>, t: seq<JByte>, k: nat)
    requires k <= |s| && k <= |t| && s[..k] == t[..k]
    ensures k < |s| && k < |t| && s[k] != t[k] ==> Compare(s, t) == Signed(s[k]) - Signed(t[k])
    ensures (k == |s| || k == |t|) ==> Compare(s, t) == |s| - |t|
  {
    if k > 0 {
      assert s[0] == s[..k][0] && t[0] == t[..k][0];
      assert s[1..][..k - 1] == s[..k][1..] && t[1..][..k - 1] == t[..k][1..];
      CompareFirstDifference(s[1..], t[1..], k - 1);
    }
  }

  /** The order is transitive. */
  lemma {:induction false} CompareTransitive(a: seq<JByte>, b: seq<JByte>, c: seq<JByte>)
    requires Compare(a, b) < 0 && Compare(b, c) < 0
    ensures Compare(a, c) < 0
  {
    if |a| > 0 && |b| > 0 && |c| > 0 && a[0] == b[0] && b[0] == c[0] {
      CompareTransitive(a[1..], b[1..], c[1..]);
    }
  }

  /** Concatenation is associative in content. */
  lemma ConcatAssociative(a: Bytes, b: Bytes, c: Bytes)
    requires |a.value| + |b.value| + |c.value| <= IntMax
    ensures a.Concat(b).Concat(c) == a.Concat(b.Concat(c))
  {
    assert (a.value + b.value) + c.value == a.value + (b.value + c.value);
  }

  /**
   * The concatenation as written is not a concatenation: `[1]` and `[2]` give
   * `[1, 1]`, and `[1, 2]` with `[3]` throws; the corrected one gives `[1, 2]`.
   */
  lemma ConcatAsWrittenCounterexample()
    ensures Bytes([1]).ConcatAsWritten(Bytes([2])) == Some(Bytes([1, 1]))
    ensures Bytes([1]).Concat(Bytes([2])) == Bytes([1, 2])
    ensures Bytes([1, 2]).ConcatAsWritten(Bytes([3])) == None
  {
    assert Zeros(1) == [0] && Zeros(2) == [0, 0];
    assert CopyOf([1], 2) == [1, 0];
    assert Splice([1, 0], 1, [1]) == [1, 1];
  }

  /**
   * Two non-empty operands whose lengths add up past `Integer.MAX_VALUE`: the
   * `int` sum `lengthOfThis + lengthOfThat` is negative, so `Arrays.copyOf`
   * throws before anything is copied.
   */
  lemma ConcatLengthOverflow(a: Bytes, b: Bytes)
    requires 0 < |a.value| <= IntMax && 0 < |b.value| <= IntMax
    requires |a.value| + |b.value| > IntMax
    ensures Wrap32(|a.value| + |b.value|) == |a.value| + |b.value| - 0x1_0000_0000 < 0
    ensures a.ConcatAsWritten(b) == None
  {
    var sum := |a.value| + |b.value|;
    assert (sum - IntMin) % 0x1_0000_0000 == sum - IntMin - 0x1_0000_0000;
  }
}
