/**
 * Java's primitive types as the library uses them, and the value-level
 * meaning of the two JDK array helpers it is built on
 * (`java.util.Arrays.copyOf`/`copyOfRange` and `System.arraycopy`).
 */
module Primitives {

  /** A Java `byte`, kept as its 8-bit two's-complement pattern. */
  type JByte = bv8

  /** The numeric value Java gives a byte, in -128..127. */
  function Signed(b: JByte): (r: int)
    ensures -128 <= r < 128
    ensures r < 0 <==> b >= 0x80
  {
    if b < 0x80 then b as int else b as int - 0x100
  }

  lemma SignedInjective(a: JByte, b: JByte)
    ensures Signed(a) == Signed(b) <==> a == b
  {
  }

  /** Java's widening of a `byte` to an `int` (sign extension), as a bit pattern. */
  function Widen(b: JByte): bv32
  {
    if b < 0x80 then b as bv32 else (b as bv32) | 0xFFFF_FF00
  }

  /** The widened pattern is the signed value modulo 2^32. */
  lemma WidenValue(b: JByte)
    ensures Widen(b) as int == if Signed(b) < 0 then Signed(b) + 0x1_0000_0000 else Signed(b)
  {
  }

  /** `java.nio.ByteOrder`, which has exactly these two instances. */
  datatype ByteOrder = BigEndian | LittleEndian

  const IntMin: int := -0x8000_0000
  const IntMax: int := 0x7FFF_FFFF

  /** A Java `int` used as a number (a counter, an index, a length). */
  type JInt = x: int | IntMin <= x <= IntMax

  /** Java's 32-bit wrap-around of an integer result. */
  function Wrap32(x: int): (r: JInt)
    ensures IntMin <= x <= IntMax ==> r == x
    ensures (x - r) % 0x1_0000_0000 == 0
  {
    (x - IntMin) % 0x1_0000_0000 + IntMin
  }

  function Min(a: int, b: int): int { if a <= b then a else b }
  function Max(a: int, b: int): int { if a >= b then a else b }

  datatype Option<T> = None | Some(value: T)

  /** The zero bytes a fresh Java array is filled with. */
  function Zeros(n: nat): (r: seq<JByte>)
    ensures |r| == n
    ensures forall k :: 0 <= k < n ==> r[k] == 0
  {
    if n == 0 then [] else Zeros(n - 1) + [0]
  }

  lemma ZerosDrop(n: nat, k: nat)
    requires k <= n
    ensures Zeros(n)[k..] == Zeros(n - k)
  {
  }

  /** A sequence read back to front. */
  function Reversed<T>(s: seq<T>): seq<T>
  {
    if s == [] then [] else [s[|s| - 1]] + Reversed(s[..|s| - 1])
  }

  lemma {:induction false} ReversedIndex<T>(s: seq<T>)
    ensures |Reversed(s)| == |s|
    ensures forall k :: 0 <= k < |s| ==> Reversed(s)[k] == s[|s| - 1 - k]
  {
    if s != [] {
      ReversedIndex(s[..|s| - 1]);
    }
  }

  /** Reading a sequence back to front twice gives it back. */
  lemma ReversedInvolution<T>(s: seq<T>)
    ensures Reversed(Reversed(s)) == s
  {
    ReversedIndex(s);
    ReversedIndex(Reversed(s));
  }

  /**
   * `Arrays.copyOfRange(original, from, to)`: the `to - from` bytes from
   * `from` on, padded with zeros where the range runs past the end. The JDK
   * throws when `from` is negative, `from > original.length` or `from > to`.
   */
  function CopyOfRange(s: seq<JByte>, from: int, to: int): (r: seq<JByte>)
    requires 0 <= from <= to && from <= |s|
    ensures |r| == to - from
    ensures forall k :: 0 <= k < |r| ==> r[k] == if from + k < |s| then s[from + k] else 0
    ensures to <= |s| ==> r == s[from..to]
    ensures to > |s| ==> r == s[from..] + Zeros(to - |s|)
  {
    if to <= |s| then s[from..to] else s[from..] + Zeros(to - |s|)
  }

  /** `Arrays.copyOf(original, n)`: truncated or zero-padded to length `n`. */
  function CopyOf(s: seq<JByte>, n: nat): (r: seq<JByte>)
    ensures |r| == n
    ensures r[..Min(|s|, n)] == s[..Min(|s|, n)]
    ensures forall k :: |s| <= k < n ==> r[k] == 0
    ensures n <= |s| ==> r == s[..n]
    ensures n >= |s| ==> r == s + Zeros(n - |s|)
  {
    assert s[0..] == s;
    CopyOfRange(s, 0, n)
  }

  /** `System.arraycopy(src, 0, dest, at, src.length)` on values, within bounds. */
  function Splice(dest: seq<JByte>, at: nat, src: seq<JByte>): (r: seq<JByte>)
    requires at + |src| <= |dest|
    ensures |r| == |dest|
    ensures r[..at] == dest[..at] && r[at..at + |src|] == src
    ensures r[at + |src|..] == dest[at + |src|..]
  {
    dest[..at] + src + dest[at + |src|..]
  }

  /** `Arrays.copyOf` on an array: a fresh array holding `CopyOf(a[..], n)`. */
  method ArrayCopyOf(a: array<JByte>, n: nat) returns (b: array<JByte>)
    ensures fresh(b) && b[..] == CopyOf(a[..], n)
  {
    b := new JByte[n](k reads a => if 0 <= k < a.Length then a[k] else 0);
    assert forall k :: 0 <= k < n ==> b[..][k] == CopyOf(a[..], n)[k];
  }

  /** `System.arraycopy(src, 0, dest, at, src.length)` on arrays: `dest` becomes the splice. */
  method ArrayCopy(src: array<JByte>, dest: array<JByte>, at: nat)
    requires at + src.Length <= dest.Length
    modifies dest
    ensures dest[..] == Splice(old(dest[..]), at, old(src[..]))
  {
    forall k | 0 <= k < src.Length {
      dest[at + k] := src[k];
    }
    assert dest[..] == old(dest[..])[..at] + old(src[..]) + old(dest[..])[at + src.Length..];
  }
}
