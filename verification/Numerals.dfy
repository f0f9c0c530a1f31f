/** Positional numerals, most significant digit first, in any base: the common
    ground of the base-58 text, the base-256 bytes and the base-2^32 limbs. */
module Numerals {

  function Pow(base: nat, e: nat): nat {
    if e == 0 then 1 else base * Pow(base, e - 1)
  }

  /** The number a digit string stands for. */
  function Val(digits: seq<nat>, base: nat): nat {
    if |digits| == 0 then 0 else Val(digits[..|digits| - 1], base) * base + digits[|digits| - 1]
  }

  predicate DigitsBelow(digits: seq<nat>, base: nat) {
    forall i :: 0 <= i < |digits| ==> digits[i] < base
  }

  /** The digits of `v` without leading zeros. */
  function Minimal(v: nat, base: nat): (digits: seq<nat>)
    requires base >= 2
    ensures DigitsBelow(digits, base)
    ensures |digits| > 0 ==> digits[0] != 0
    ensures |digits| == 0 <==> v == 0
    decreases v
  {
    if v == 0 then [] else
      var q := v / base;
      QuotientSmaller(v, base);
      Minimal(q, base) + [v % base]
  }

  /** How many digits at the front are zero. */
  function LeadingZeros(digits: seq<nat>): (n: nat)
    ensures n <= |digits|
    ensures forall i :: 0 <= i < n ==> digits[i] == 0
    ensures n < |digits| ==> digits[n] != 0
  {
    if |digits| == 0 || digits[0] != 0 then 0 else 1 + LeadingZeros(digits[1..])
  }

  function Zeros(n: nat): seq<nat> { seq(n, _ => 0) }

  lemma PowPositive(base: nat, e: nat)
    requires base >= 1
    ensures Pow(base, e) >= 1
  {
  }

  lemma {:induction false} PowAdd(base: nat, a: nat, b: nat)
    ensures Pow(base, a + b) == Pow(base, a) * Pow(base, b)
  {
    if a > 0 {
      PowAdd(base, a - 1, b);
      assert base * (Pow(base, a - 1) * Pow(base, b)) == (base * Pow(base, a - 1)) * Pow(base, b);
    }
  }

  lemma PowMonotone(base: nat, a: nat, b: nat)
    requires base >= 1 && a <= b
    ensures Pow(base, a) <= Pow(base, b)
  {
    if a < b {
      PowMonotone(base, a, b - 1);
      PowPositive(base, b - 1);
    }
  }

  lemma {:induction false} PowPow(base: nat, a: nat, b: nat)
    ensures Pow(Pow(base, a), b) == Pow(base, a * b)
  {
    if b > 0 {
      PowPow(base, a, b - 1);
      PowAdd(base, a, a * (b - 1));
      assert a + a * (b - 1) == a * b;
    }
  }

  // ----- arithmetic facts the solver needs spelled out -----

  lemma SmallMultipleIsZero(k: int, base: int)
    requires base > 0 && -base < k * base < base
    ensures k == 0
  {
    if k >= 1 {
      MulMonotone(1, k, base);
    } else if k <= -1 {
      MulMonotone(k, -1, base);
    }
  }

  lemma QuotRem(base: nat, q: nat, r: nat)
    requires r < base
    ensures (q * base + r) / base == q && (q * base + r) % base == r
  {
    var x := q * base + r;
    var k := x / base - q;
    assert x == (x / base) * base + x % base;
    assert k * base == (x / base) * base - q * base;
    SmallMultipleIsZero(k, base);
  }

  lemma QuotientSmaller(v: nat, base: nat)
    requires base >= 2 && v > 0
    ensures 0 <= v / base < v && (v / base) * base + v % base == v
  {
    var q := v / base;
    assert v == q * base + v % base;
    if q >= v {
      MulMonotone(2, base, q);
    }
  }

  lemma Regroup(va: int, p: int, vb: int, base: int, d: int)
    ensures (va * p + vb) * base + d == va * (base * p) + (vb * base + d)
  {
    assert (va * p) * base == va * (base * p);
    assert (va * p + vb) * base == (va * p) * base + vb * base;
  }

  lemma MulMonotone(a: int, b: int, k: int)
    requires a <= b && k >= 0
    ensures a * k <= b * k
  {
  }

  // ----- values -----

  lemma ValSnoc(a: seq<nat>, d: nat, base: nat)
    ensures Val(a + [d], base) == Val(a, base) * base + d
  {
    assert (a + [d])[..|a|] == a;
  }

  /** Appending digits shifts the value left. */
  lemma {:induction false} ValAppend(a: seq<nat>, b: seq<nat>, base: nat)
    ensures Val(a + b, base) == Val(a, base) * Pow(base, |b|) + Val(b, base)
  {
    if |b| == 0 {
      assert a + b == a;
    } else {
      var n := |b| - 1;
      assert (a + b)[..|a + b| - 1] == a + b[..n];
      ValAppend(a, b[..n], base);
      var p, va, vb := Pow(base, n), Val(a, base), Val(b[..n], base);
      Regroup(va, p, vb, base, b[n]);
      assert (a + b)[|a| + n] == b[n];
    }
  }

  lemma {:induction false} ValZeros(n: nat, base: nat)
    ensures Val(Zeros(n), base) == 0
  {
    if n > 0 {
      assert Zeros(n)[..n - 1] == Zeros(n - 1);
      ValZeros(n - 1, base);
    }
  }

  lemma ValOfZeros(a: seq<nat>, base: nat)
    requires forall i :: 0 <= i < |a| ==> a[i] == 0
    ensures Val(a, base) == 0
  {
    assert a == Zeros(|a|);
    ValZeros(|a|, base);
  }

  /** Leading zeros carry no value. */
  lemma ValDropZeros(a: seq<nat>, b: seq<nat>, base: nat)
    requires forall i :: 0 <= i < |a| ==> a[i] == 0
    ensures Val(a + b, base) == Val(b, base)
  {
    ValOfZeros(a, base);
    ValAppend(a, b, base);
  }

  lemma {:induction false} ValBound(a: seq<nat>, base: nat)
    requires base >= 1 && DigitsBelow(a, base)
    ensures Val(a, base) < Pow(base, |a|)
  {
    if |a| > 0 {
      var n := |a| - 1;
      ValBound(a[..n], base);
      MulMonotone(Val(a[..n], base) + 1, Pow(base, n), base);
      assert (Val(a[..n], base) + 1) * base == Val(a[..n], base) * base + base;
    }
  }

  /** Two equally long numerals of the same value are the same numeral. */
  lemma {:induction false} ValInjective(a: seq<nat>, b: seq<nat>, base: nat)
    requires base >= 1 && |a| == |b| && DigitsBelow(a, base) && DigitsBelow(b, base)
    requires Val(a, base) == Val(b, base)
    ensures a == b
  {
    if |a| > 0 {
      var n := |a| - 1;
      QuotRem(base, Val(a[..n], base), a[n]);
      QuotRem(base, Val(b[..n], base), b[n]);
      ValInjective(a[..n], b[..n], base);
      assert a == a[..n] + [a[n]] && b == b[..n] + [b[n]];
    }
  }

  lemma {:induction false} ValMinimal(v: nat, base: nat)
    requires base >= 2
    ensures Val(Minimal(v, base), base) == v
    decreases v
  {
    if v > 0 {
      var q := v / base;
      QuotientSmaller(v, base);
      ValMinimal(q, base);
      ValSnoc(Minimal(q, base), v % base, base);
    }
  }

  /** A numeral without leading zeros is the minimal numeral of its value. */
  lemma {:induction false} MinimalUnique(a: seq<nat>, base: nat)
    requires base >= 2 && DigitsBelow(a, base)
    requires |a| > 0 ==> a[0] != 0
    ensures Minimal(Val(a, base), base) == a
    ensures |a| > 0 ==> Val(a, base) > 0
  {
    if |a| > 0 {
      var n := |a| - 1;
      var q := Val(a[..n], base);
      MinimalUnique(a[..n], base);
      QuotRem(base, q, a[n]);
      assert a == a[..n] + [a[n]];
      assert Val(a, base) == q * base + a[n];
      if n == 0 {
        assert q == 0;
      } else {
        MulMonotone(1, q, base);
      }
    }
  }

  lemma {:induction false} ValLowerBound(a: seq<nat>, base: nat)
    requires |a| > 0 && a[0] != 0
    ensures Val(a, base) >= Pow(base, |a| - 1)
  {
    var n := |a| - 1;
    if n == 0 {
      assert Val(a, base) == a[0];
    } else {
      ValLowerBound(a[..n], base);
      MulMonotone(Pow(base, n - 1), Val(a[..n], base), base);
    }
  }

  lemma LeadingSplit(a: seq<nat>)
    ensures a == Zeros(LeadingZeros(a)) + a[LeadingZeros(a)..]
  {
    assert a[..LeadingZeros(a)] == Zeros(LeadingZeros(a));
  }

  /** Padding the minimal numeral of the value with zeros gives the numeral back. */
  lemma PaddedMinimal(a: seq<nat>, base: nat)
    requires base >= 2 && DigitsBelow(a, base)
    ensures a == Zeros(LeadingZeros(a)) + Minimal(Val(a, base), base)
  {
    var z := LeadingZeros(a);
    LeadingSplit(a);
    ValDropZeros(Zeros(z), a[z..], base);
    MinimalUnique(a[z..], base);
  }

  /** A value below base^n has a numeral of exactly n digits. */
  function Fixed(v: nat, base: nat, n: nat): (digits: seq<nat>)
    requires base >= 2 && v < Pow(base, n)
    ensures |digits| == n && DigitsBelow(digits, base)
  {
    var m := Minimal(v, base);
    MinimalFits(v, base, n);
    Zeros(n - |m|) + m
  }

  lemma ValFixed(v: nat, base: nat, n: nat)
    requires base >= 2 && v < Pow(base, n)
    ensures Val(Fixed(v, base, n), base) == v
    ensures |Minimal(v, base)| <= n && LeadingZeros(Fixed(v, base, n)) == n - |Minimal(v, base)|
  {
    var m := Minimal(v, base);
    ValMinimal(v, base);
    MinimalFits(v, base, n);
    ValDropZeros(Zeros(n - |m|), m, base);
    LeadingZerosOf(n - |m|, m);
  }

  lemma MinimalFits(v: nat, base: nat, n: nat)
    requires base >= 2
    ensures v < Pow(base, n) <==> |Minimal(v, base)| <= n
  {
    var m := Minimal(v, base);
    ValMinimal(v, base);
    ValBound(m, base);
    if |m| <= n {
      PowMonotone(base, |m|, n);
    } else {
      ValLowerBound(m, base);
      PowMonotone(base, n, |m| - 1);
    }
  }

  lemma LeadingZerosAre(a: seq<nat>, z: nat)
    requires z <= |a| && (forall i :: 0 <= i < z ==> a[i] == 0) && (z < |a| ==> a[z] != 0)
    ensures LeadingZeros(a) == z
  {
  }

  lemma LeadingZerosOf(z: nat, m: seq<nat>)
    requires |m| > 0 ==> m[0] != 0
    ensures LeadingZeros(Zeros(z) + m) == z
  {
    var a := Zeros(z) + m;
    var n := LeadingZeros(a);
    assert forall i :: 0 <= i < z ==> a[i] == 0;
    assert |m| > 0 ==> a[z] == m[0];
  }

  /** One column of multiplying a numeral in place by `mult`. The columns right of it are
      done; all that is still owed to the left is kept as one oversized head digit. The
      carry that entered the column becomes the carry `q` that leaves it. */
  lemma ColumnStep(upper: seq<nat>, digit: nat, lower: seq<nat>, carry: nat, mult: nat, base: nat,
                   q: nat, r: nat, head: nat, head': nat)
    requires carry + mult * digit == q * base + r
    requires head == mult * Val(upper + [digit], base) + carry
    requires head' == mult * Val(upper, base) + q
    ensures Val([head] + lower, base) == Val([head'] + ([r] + lower), base)
  {
    ValSnoc(upper, digit, base);
    HeadArithmetic(mult, Val(upper, base), base, digit, carry, q, r);
    SplitHead(head, head', r, lower, base);
  }

  /** A multiplication in place, lowest digit first: `now` differs from `before` from column j
      on, and with what is still to come it denotes the target. */
  ghost predicate Columns(before: seq<nat>, now: seq<nat>, j: nat, carry: nat, mult: nat, base: nat, target: nat) {
    && j <= |now| == |before| && DigitsBelow(now, base) && now[..j] == before[..j]
    && Val([mult * Val(before[..j], base) + carry] + now[j..], base) == target
  }

  lemma ColumnsStart(before: seq<nat>, carry: nat, mult: nat, base: nat)
    requires DigitsBelow(before, base)
    ensures Columns(before, before, |before|, carry, mult, base, mult * Val(before, base) + carry)
  {
    assert before[..|before|] == before && before[|before|..] == [];
    ValSingle(mult * Val(before, base) + carry, base);
  }

  lemma ColumnsStep(before: seq<nat>, now: seq<nat>, j: nat, carry: nat, q: nat, r: nat, mult: nat, base: nat,
                    target: nat)
    requires j < |now| && Columns(before, now, j + 1, carry, mult, base, target)
    requires carry + mult * now[j] == q * base + r && r < base
    ensures Columns(before, now[j := r], j, q, mult, base, target)
  {
    assert now[j] == now[..j + 1][j] == before[..j + 1][j] == before[j];
    assert before[..j + 1] == before[..j] + [before[j]];
    assert now[j := r][j..] == [r] + now[j + 1..];
    ColumnStep(before[..j], before[j], now[j + 1..], carry, mult, base, q, r,
               mult * Val(before[..j + 1], base) + carry, mult * Val(before[..j], base) + q);
  }

  /** With nothing to carry, columns that were zero may be left alone. */
  lemma ColumnsEnd(before: seq<nat>, now: seq<nat>, j: nat, mult: nat, base: nat, target: nat)
    requires Columns(before, now, j, 0, mult, base, target) && forall k :: 0 <= k < j ==> before[k] == 0
    ensures Val(now, base) == target && forall k :: 0 <= k < j ==> now[k] == 0
  {
    assert forall k :: 0 <= k < j ==> now[k] == now[..j][k] == before[..j][k];
    var head := mult * Val(before[..j], base);
    assert head == 0 by { ValOfZeros(before[..j], base); }
    assert Val([head] + now[j..], base) == target;
    ValDropZeros([head], now[j..], base);
    ValDropZeros(now[..j], now[j..], base);
    assert now == now[..j] + now[j..];
  }

  lemma SplitHead(head: nat, q: nat, r: nat, lower: seq<nat>, base: nat)
    requires head == q * base + r
    ensures Val([head] + lower, base) == Val([q] + ([r] + lower), base)
  {
    ValSingle(head, base);
    ValSingle(q, base);
    ValSnoc([q], r, base);
    ValAppend([head], lower, base);
    ValAppend([q] + [r], lower, base);
    assert [q] + [r] + lower == [q] + ([r] + lower);
  }

  lemma ValSingle(x: nat, base: nat)
    ensures Val([x], base) == x
  {
    ValSnoc([], x, base);
    assert [] + [x] == [x];
  }

  lemma HeadArithmetic(mult: int, u: int, base: int, digit: int, carry: int, q: int, r: int)
    requires carry + mult * digit == q * base + r
    ensures mult * (u * base + digit) + carry == (mult * u + q) * base + r
  {
    assert mult * (u * base + digit) == mult * (u * base) + mult * digit;
    assert mult * (u * base) == (mult * u) * base;
    assert (mult * u + q) * base == (mult * u) * base + q * base;
  }

  /** A nonzero head digit means that the value does not fit the lower columns. */
  lemma HeadBound(head: nat, lower: seq<nat>, base: nat)
    requires head > 0
    ensures Val([head] + lower, base) >= Pow(base, |lower|)
  {
    ValLowerBound([head] + lower, base);
  }
}
