/** Bytes and integers in network byte order. */
module Bytes {
  import Numerals

  type Byte = b: nat | b < 256

  function Put16(x: nat): (s: seq<Byte>)
    ensures |s| == 2
  {
    [x / 256 % 256, x % 256]
  }

  function Get16(s: seq<Byte>): (x: nat)
    requires |s| >= 2
    ensures x < 0x1_0000
  {
    var hi: nat, lo: nat := s[0], s[1];
    hi * 256 + lo
  }

  lemma GetPut16(x: nat)
    requires x < 0x1_0000
    ensures Get16(Put16(x)) == x
  {
  }

  function Put32(x: nat): (s: seq<Byte>)
    ensures |s| == 4
  {
    [x / 0x100_0000 % 256, x / 0x1_0000 % 256, x / 256 % 256, x % 256]
  }

  function Get32(s: seq<Byte>): (x: nat)
    requires |s| >= 4
    ensures x < 0x1_0000_0000
  {
    var a: nat, b: nat, c: nat, d: nat := s[0], s[1], s[2], s[3];
    ((a * 256 + b) * 256 + c) * 256 + d
  }

  lemma GetPut32(x: nat)
    requires x < 0x1_0000_0000
    ensures Get32(Put32(x)) == x
  {
    var d, y := x % 256, x / 256;
    var c, z := y % 256, y / 256;
    var b, a := z % 256, z / 256;
    assert x / 0x1_0000 == z && x / 0x100_0000 == a;
    assert a * 256 + b == z && z * 256 + c == y && y * 256 + d == x;
  }

  /** Network byte order: the bytes are the digits of the number in base 256, the most
      significant first; what does not fit is cut off. */
  lemma PutValues(x: nat)
    ensures Numerals.Val(Put16(x), 256) == x % 0x1_0000
    ensures Numerals.Val(Put32(x), 256) == x % 0x1_0000_0000
  {
    ValOfTwo(Put16(x));
    ValOfFour(Put32(x));
    var y, d := x / 256, x % 256;
    var z, c := y / 256, y % 256;
    var w, b := z / 256, z % 256;
    var v, a := w / 256, w % 256;
    Shifts(x, y, z, w);
    Numerals.QuotRem(0x1_0000, z, c * 256 + d);
    Numerals.QuotRem(0x1_0000_0000, v, ((a * 256 + b) * 256 + c) * 256 + d);
  }

  lemma SmallModulo(x: nat)
    requires x < 0x1_0000_0000
    ensures x % 0x1_0000_0000 == x
  {
  }

  lemma Shifts(x: nat, y: nat, z: nat, w: nat)
    requires y == x / 256 && z == y / 256 && w == z / 256
    ensures z == x / 0x1_0000 && w == x / 0x100_0000
  {
  }

  lemma GetValues(s: seq<Byte>)
    ensures |s| >= 2 ==> Get16(s) == Numerals.Val(s[..2], 256)
    ensures |s| >= 4 ==> Get32(s) == Numerals.Val(s[..4], 256)
  {
    if |s| >= 2 { ValOfTwo(s[..2]); }
    if |s| >= 4 { ValOfFour(s[..4]); }
  }

  lemma ValOfTwo(s: seq<nat>)
    requires |s| == 2
    ensures Numerals.Val(s, 256) == s[0] * 256 + s[1]
  {
    assert s[..1] == [s[0]];
    Numerals.ValSingle(s[0], 256);
  }

  lemma ValOfFour(s: seq<nat>)
    requires |s| == 4
    ensures Numerals.Val(s, 256) == ((s[0] * 256 + s[1]) * 256 + s[2]) * 256 + s[3]
  {
    assert s[..3][..2] == s[..2];
    ValOfTwo(s[..2]);
  }

  // ----- sequences -----

  function ZeroFill(n: nat): seq<Byte> { seq(n, _ => 0) }

  lemma AppendAppend<T>(a: seq<T>, b: seq<T>, c: seq<T>)
    ensures a + (b + c) == (a + b) + c
  {
  }

  lemma SliceBehind<T>(s: seq<T>, h: nat, i: nat, j: nat)
    requires i <= j && h + j <= |s|
    ensures s[h..][i..j] == s[h + i..h + j]
  {
  }

  lemma InFirst<T>(a: seq<T>, b: seq<T>, i: nat)
    requires i <= |a|
    ensures (a + b)[i..|a|] == a[i..]
  {
  }

  lemma InSecond<T>(a: seq<T>, b: seq<T>, i: nat)
    requires i <= |b|
    ensures (a + b)[|a| + i..] == b[i..]
  {
  }

  lemma Regroup<T>(a: seq<T>, x: T, b: seq<T>)
    ensures a + ([x] + b) == (a + [x]) + b
  {
  }

  lemma AppendLast<T>(a: seq<T>, b: seq<T>)
    requires b != []
    ensures b == b[..|b| - 1] + [b[|b| - 1]] && a + b == (a + b[..|b| - 1]) + [b[|b| - 1]]
  {
  }

  lemma AppendRest<T>(a: seq<T>, b: seq<T>)
    requires a != []
    ensures (a + b)[1..] == a[1..] + b && (a + b)[0] == a[0]
  {
  }

  lemma TakeNext<T>(s: seq<T>, i: nat)
    requires i < |s|
    ensures s[..i + 1] == s[..i] + [s[i]] && s == s[..i + 1] + s[i + 1..]
  {
  }

  function Concat<T>(ss: seq<seq<T>>): seq<T> {
    if ss == [] then [] else ss[0] + Concat(ss[1..])
  }

  lemma {:induction false} ConcatAppend<T>(a: seq<seq<T>>, b: seq<seq<T>>)
    ensures Concat(a + b) == Concat(a) + Concat(b)
  {
    if a == [] {
      assert a + b == b;
    } else {
      ConcatAppend(a[1..], b);
      AppendRest(a, b);
      AppendAppend(a[0], Concat(a[1..]), Concat(b));
    }
  }

  lemma ConcatOne<T>(s: seq<T>)
    ensures Concat([s]) == s
  {
    assert [s][1..] == [] && s + [] == s;
  }

  // ----- buffers -----

  /** The buffer s with b copied to position `at`. */
  function Patch(s: seq<Byte>, at: nat, b: seq<Byte>): (t: seq<Byte>)
    requires at + |b| <= |s|
    ensures |t| == |s|
  {
    seq(|s|, i requires 0 <= i < |s| => if at <= i < at + |b| then b[i - at] else s[i])
  }

  lemma PatchNothing(s: seq<Byte>, at: nat)
    requires at <= |s|
    ensures Patch(s, at, []) == s
  {
  }

  lemma PatchNext(s: seq<Byte>, at: nat, a: seq<Byte>, b: seq<Byte>)
    requires at + |a| + |b| <= |s|
    ensures Patch(Patch(s, at, a), at + |a|, b) == Patch(s, at, a + b)
  {
  }

  method Copy(buf: array<Byte>, at: nat, bytes: seq<Byte>)
    requires at + |bytes| <= buf.Length
    modifies buf
    ensures buf[..] == Patch(old(buf[..]), at, bytes)
  {
    forall k | 0 <= k < |bytes| { buf[at + k] := bytes[k]; }
  }
}
