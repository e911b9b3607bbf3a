/**
 Byte strings: little-endian numbers, overwriting a stretch of a buffer, and the
 in-place copies that the packing code is made of.
 */
module Bytes {

  type byte = b: nat | b < 256
  type u16 = n: nat | n < 0x1_0000
  type u32 = n: nat | n < 0x1_0000_0000
  type u64 = n: nat | n < 0x1_0000_0000_0000_0000

  const U16_MAX := 0xFFFF
  const U32_MAX := 0xFFFF_FFFF
  const U64_MOD := 0x1_0000_0000_0000_0000

  datatype Option<+T> = None | Some(value: T)

  datatype Result<+T, +E> = Ok(value: T) | Err(error: E)

  /** The number of values that `n` bytes can hold. */
  function Pow256(n: nat): (p: nat)
    ensures p > 0
  {
    if n == 0 then 1 else 256 * Pow256(n - 1)
  }

  /** `from_le_bytes`: the first byte is the least significant one. */
  function Le(s: seq<byte>): nat {
    if |s| == 0 then 0 else s[0] + 256 * Le(s[1..])
  }

  /** `to_le_bytes` of an `n`-byte number. */
  function ToLe(v: nat, n: nat): (s: seq<byte>)
    ensures |s| == n
  {
    if n == 0 then [] else [v % 256] + ToLe(v / 256, n - 1)
  }

  function Zeros(n: nat): (s: seq<byte>)
    ensures |s| == n
    ensures forall i :: 0 <= i < n ==> s[i] == 0
  {
    seq(n, _ => 0)
  }

  lemma PowValues()
    ensures Pow256(1) == 0x100 && Pow256(2) == 0x1_0000 && Pow256(4) == 0x1_0000_0000
    ensures Pow256(8) == 0x1_0000_0000_0000_0000
  {
    assert Pow256(1) == 256 * Pow256(0);
    assert Pow256(3) == 256 * Pow256(2);
    assert Pow256(5) == 256 * Pow256(4);
    assert Pow256(7) == 256 * Pow256(6);
  }

  lemma {:induction false} LeBound(s: seq<byte>)
    ensures Le(s) < Pow256(|s|)
  {
    if |s| == 0 {
    } else {
      LeBound(s[1..]);
    }
  }

  /** Decoding what was encoded gives the number back, as far as it fits. */
  lemma {:induction false} LeOfToLe(v: nat, n: nat)
    requires v < Pow256(n)
    ensures Le(ToLe(v, n)) == v
  {
    if n == 0 {
    } else {
      LeOfToLe(v / 256, n - 1);
      assert ToLe(v, n)[1..] == ToLe(v / 256, n - 1);
    }
  }

  /** Encoding what was decoded gives the bytes back. */
  lemma {:induction false} ToLeOfLe(s: seq<byte>)
    ensures ToLe(Le(s), |s|) == s
  {
    if |s| == 0 {
    } else {
      ToLeOfLe(s[1..]);
      var v := Le(s);
      assert v % 256 == s[0] && v / 256 == Le(s[1..]);
      assert s == [s[0]] + s[1..];
    }
  }

  lemma {:induction false} LeOfZeros(n: nat)
    ensures Le(Zeros(n)) == 0
  {
    if n == 0 {
    } else {
      LeOfZeros(n - 1);
      assert Zeros(n)[1..] == Zeros(n - 1);
    }
  }

  /** The number in two, four or eight bytes from `o` on. */
  function Two(d: seq<byte>, o: nat): nat
    requires o + 2 <= |d|
  {
    d[o] as nat + 0x100 * d[o + 1] as nat
  }

  function Four(d: seq<byte>, o: nat): nat
    requires o + 4 <= |d|
  {
    Two(d, o) + 0x1_0000 * Two(d, o + 2)
  }

  function Eight(d: seq<byte>, o: nat): nat
    requires o + 8 <= |d|
  {
    Four(d, o) + 0x1_0000_0000 * Four(d, o + 4)
  }

  lemma LeOfTwo(b: seq<byte>)
    requires |b| == 2
    ensures Le(b) == Two(b, 0)
  {
    LeStep(b);
    LeStep(b[1..]);
  }

  lemma LeStep(b: seq<byte>)
    requires b != []
    ensures Le(b) == b[0] as nat + 0x100 * Le(b[1..]) && (|b| == 1 ==> Le(b) == b[0])
  {
  }

  lemma LeOfFour(b: seq<byte>)
    requires |b| == 4
    ensures Le(b) == Four(b, 0)
  {
    LeStep(b);
    LeStep(b[1..]);
    LeOfTwo(b[2..]);
    assert b[1..][1..] == b[2..] && b[1..][0] == b[1] && b[2..][0] == b[2] && b[2..][1] == b[3];
  }

  lemma LeOfEight(b: seq<byte>)
    requires |b| == 8
    ensures Le(b) == Eight(b, 0)
  {
    LeStep(b);
    LeStep(b[1..]);
    LeStep(b[2..]);
    LeStep(b[3..]);
    LeOfFour(b[4..]);
    assert b[1..][1..] == b[2..] && b[2..][1..] == b[3..] && b[3..][1..] == b[4..];
    assert b[1..][0] == b[1] && b[2..][0] == b[2] && b[3..][0] == b[3] && b[4..][0] == b[4];
    assert b[4..][1] == b[5] && b[4..][2] == b[6] && b[4..][3] == b[7];
  }

  /** Packed numbers, read byte by byte. */
  lemma TwoIs(d: seq<byte>, o: nat, v: u16)
    requires o + 2 <= |d| && d[o..o + 2] == ToLe(v, 2)
    ensures Two(d, o) == v
  {
    var b := d[o..o + 2];
    PowValues();
    LeOfToLe(v, 2);
    LeOfTwo(b);
    assert b[0] == d[o] && b[1] == d[o + 1];
  }

  lemma FourIs(d: seq<byte>, o: nat, v: u32)
    requires o + 4 <= |d| && d[o..o + 4] == ToLe(v, 4)
    ensures Four(d, o) == v
  {
    var b := d[o..o + 4];
    PowValues();
    LeOfToLe(v, 4);
    LeOfFour(b);
    assert b[0] == d[o] && b[1] == d[o + 1] && b[2] == d[o + 2] && b[3] == d[o + 3];
  }

  lemma EightIs(d: seq<byte>, o: nat, v: u64)
    requires o + 8 <= |d| && d[o..o + 8] == ToLe(v, 8)
    ensures Eight(d, o) == v
  {
    var b := d[o..o + 8];
    PowValues();
    LeOfToLe(v, 8);
    LeOfEight(b);
    assert b[0] == d[o] && b[1] == d[o + 1] && b[2] == d[o + 2] && b[3] == d[o + 3];
    assert b[4] == d[o + 4] && b[5] == d[o + 5] && b[6] == d[o + 6] && b[7] == d[o + 7];
  }

  /** `d` with the bytes from `at` on replaced by `b`. */
  function Patch(d: seq<byte>, at: nat, b: seq<byte>): (r: seq<byte>)
    requires at + |b| <= |d|
    ensures |r| == |d|
  {
    d[..at] + b + d[at + |b|..]
  }

  lemma PatchAt(d: seq<byte>, at: nat, b: seq<byte>)
    requires at + |b| <= |d|
    ensures Patch(d, at, b)[at..at + |b|] == b
  {
  }

  lemma PatchWithin(d: seq<byte>, lo: nat, hi: nat, at: nat, b: seq<byte>)
    requires lo <= at && at + |b| <= hi <= |d|
    ensures Patch(d, at, b)[lo..hi] == Patch(d[lo..hi], at - lo, b)
  {
  }

  lemma PatchOutside(d: seq<byte>, lo: nat, hi: nat, at: nat, b: seq<byte>)
    requires lo <= hi <= |d| && at + |b| <= |d| && (hi <= at || at + |b| <= lo)
    ensures Patch(d, at, b)[lo..hi] == d[lo..hi]
  {
  }

  lemma PatchEnds(d: seq<byte>, lo: nat, hi: nat, at: nat, b: seq<byte>)
    requires lo <= at && at + |b| <= hi <= |d|
    ensures Patch(d, at, b)[..lo] == d[..lo] && Patch(d, at, b)[hi..] == d[hi..]
  {
  }

  lemma FourParts(a: seq<byte>, b: seq<byte>, c: seq<byte>, e: seq<byte>)
    ensures var s := a + b + c + e;
      && s[0..|a|] == a
      && s[|a|..|a| + |b|] == b
      && s[|a| + |b|..|a| + |b| + |c|] == c
      && s[|a| + |b| + |c|..] == e
  {
  }

  /** Four neighbouring stretches overwritten one after the other, or at once. */
  lemma PatchInFour(d: seq<byte>, at: nat, a: seq<byte>, b: seq<byte>, c: seq<byte>, e: seq<byte>)
    requires at + |a| + |b| + |c| + |e| <= |d|
    ensures Patch(Patch(Patch(Patch(d, at, a), at + |a|, b), at + |a| + |b|, c), at + |a| + |b| + |c|, e)
         == Patch(d, at, a + b + c + e)
  {
    PatchTwice(d, at, a, b);
    PatchTwice(d, at, a + b, c);
    PatchTwice(d, at, a + b + c, e);
  }

  lemma PatchTwice(d: seq<byte>, at: nat, a: seq<byte>, b: seq<byte>)
    requires at + |a| + |b| <= |d|
    ensures Patch(Patch(d, at, a), at + |a|, b) == Patch(d, at, a + b)
  {
  }

  /** `copy_from_slice` into a sub-slice. */
  method CopyInto(data: array<byte>, at: nat, b: seq<byte>)
    requires at + |b| <= data.Length
    modifies data
    ensures data[..] == Patch(old(data[..]), at, b)
  {
    var i := 0;
    while i < |b|
      invariant 0 <= i <= |b|
      invariant data[..] == Patch(old(data[..]), at, b[..i])
    {
      data[at + i] := b[i];
      i := i + 1;
    }
    assert b[..|b|] == b;
  }
}
