/** Byte strings, their concatenation, and big-endian integers. */
module Bytes {

  type byte = b: int | 0 <= b < 256
  type bytes = seq<byte>

  const UINT32: nat := 0x1_0000_0000
  const UINT16: nat := 0x1_0000

  datatype Option<+T> = None | Some(value: T)

  lemma Regroup<T>(a: seq<T>, b: seq<T>, c: seq<T>)
    ensures (a + b) + c == a + (b + c)
  {
  }

  /** Concatenation of a list of sequences. */
  function Concat<T>(parts: seq<seq<T>>): seq<T> {
    if parts == [] then [] else parts[0] + Concat(parts[1..])
  }

  lemma {:induction false} ConcatAppend<T>(a: seq<seq<T>>, b: seq<seq<T>>)
    ensures Concat(a + b) == Concat(a) + Concat(b)
  {
    if a == [] {
      assert a + b == b;
    } else {
      assert (a + b)[1..] == a[1..] + b;
      ConcatAppend(a[1..], b);
    }
  }

  lemma ConcatSnoc<T>(a: seq<seq<T>>, x: seq<T>)
    ensures Concat(a + [x]) == Concat(a) + x
  {
    ConcatAppend(a, [x]);
    assert Concat([x]) == x + Concat<T>([]);
  }

  /** Big-endian fields of four and of two bytes, as written by struct.pack. */
  function Encode32(n: nat): (s: bytes)
    requires n < UINT32
    ensures |s| == 4
  {
    [n / 0x100_0000, n / 0x1_0000 % 0x100, n / 0x100 % 0x100, n % 0x100]
  }

  function Encode16(n: nat): (s: bytes)
    requires n < UINT16
    ensures |s| == 2
  {
    [n / 0x100, n % 0x100]
  }

  /** The same fields read in place. */
  function Decode32(data: bytes, offset: nat): (n: nat)
    requires offset + 4 <= |data|
    ensures n < UINT32
  {
    var b0, b1, b2, b3: int := data[offset], data[offset + 1], data[offset + 2], data[offset + 3];
    b0 * 0x100_0000 + b1 * 0x1_0000 + b2 * 0x100 + b3
  }

  function Decode16(data: bytes, offset: nat): (n: nat)
    requires offset + 2 <= |data|
    ensures n < UINT16
  {
    var b0, b1: int := data[offset], data[offset + 1];
    b0 * 0x100 + b1
  }

  lemma Decode32Encoded(n: nat, before: bytes, after: bytes)
    requires n < UINT32
    ensures Decode32(before + Encode32(n) + after, |before|) == n
  {
    var s := before + Encode32(n) + after;
    var b0, b1, b2, b3 := n / 0x100_0000, n / 0x1_0000 % 0x100, n / 0x100 % 0x100, n % 0x100;
    assert s[|before|] == b0 && s[|before| + 1] == b1 && s[|before| + 2] == b2 && s[|before| + 3] == b3;
    hide Encode32;
    assert n / 0x100 == n / 0x1_0000 * 0x100 + b2;
    assert n / 0x1_0000 == b0 * 0x100 + b1;
  }

  lemma Decode16Encoded(n: nat, before: bytes, after: bytes)
    requires n < UINT16
    ensures Decode16(before + Encode16(n) + after, |before|) == n
  {
  }

  lemma Encode32Decoded(data: bytes, offset: nat)
    requires offset + 4 <= |data|
    ensures Encode32(Decode32(data, offset)) == data[offset..offset + 4]
  {
    var b0, b1, b2, b3: int := data[offset], data[offset + 1], data[offset + 2], data[offset + 3];
    var n := Decode32(data, offset);
    assert n / 0x100_0000 == b0;
    assert n / 0x1_0000 == b0 * 0x100 + b1;
    assert n / 0x100 == b0 * 0x1_0000 + b1 * 0x100 + b2;
    assert data[offset..offset + 4] == [b0, b1, b2, b3];
  }

  lemma Encode16Decoded(data: bytes, offset: nat)
    requires offset + 2 <= |data|
    ensures Encode16(Decode16(data, offset)) == data[offset..offset + 2]
  {
  }
}
