/** The Walsh-Hadamard transform of benchmark/single-source/Walsh.swift over exact reals. */
module WalshHadamard {
  import opened Powers

  // ---- bits

  function BitAnd(a: nat, b: nat): nat {
    if a == 0 then 0
    else 2 * BitAnd(a / 2, b / 2) + if a % 2 == 1 && b % 2 == 1 then 1 else 0
  }

  function PopCount(a: nat): nat {
    if a == 0 then 0 else PopCount(a / 2) + a % 2
  }

  /** Swift's `x & (x - 1) == 0` for a count; zero passes as well. */
  predicate IsPowerOfTwo(x: nat) {
    x == 0 || BitAnd(x, x - 1) == 0
  }

  lemma {:induction false} AndSelf(a: nat)
    ensures BitAnd(a, a) == a
  {
    if a > 0 {
      AndSelf(a / 2);
    }
  }

  /** The test admits nothing but zero and the powers of two ... */
  lemma {:induction false} Log2(x: nat) returns (m: nat)
    requires x > 0 && IsPowerOfTwo(x)
    ensures x == Pow2(m)
  {
    if x % 2 == 1 {
      AndSelf(x / 2);
      assert (x - 1) / 2 == x / 2 && (x - 1) % 2 == 0;
      m := 0;
    } else {
      assert (x - 1) / 2 == x / 2 - 1;
      assert BitAnd(x, x - 1) == 2 * BitAnd(x / 2, x / 2 - 1);
      m := Log2(x / 2);
      m := m + 1;
    }
  }

  /** ... and all of those. */
  lemma {:induction false} PowersOfTwoPass(m: nat)
    ensures IsPowerOfTwo(Pow2(m))
  {
    var x := Pow2(m);
    if m == 0 {
      assert BitAnd(1, 0) == 0;
    } else {
      PowersOfTwoPass(m - 1);
      assert (x - 1) / 2 == x / 2 - 1 && x / 2 == Pow2(m - 1);
      assert BitAnd(x, x - 1) == 2 * BitAnd(x / 2, x / 2 - 1);
    }
  }

  /** Zero passes as well. */
  lemma PassesExactly(x: nat)
    ensures IsPowerOfTwo(x) <==> x == 0 || exists m :: x == Pow2(m)
  {
    if x > 0 && IsPowerOfTwo(x) {
      var m := Log2(x);
    }
    if m :| x == Pow2(m) {
      PowersOfTwoPass(m);
    }
  }

  /** The size that reaches `depth` levels of recursion down. */
  function Halved(size: nat, depth: nat): nat {
    if depth == 0 then size else Halved(size / 2, depth - 1)
  }

  /** The recursion arrives at size 1 exactly from a positive size: never from the zero that passes the test. */
  lemma {:induction false} RecursionEndsExactly(size: nat)
    ensures (exists depth: nat :: Halved(size, depth) == 1) <==> size > 0
  {
    if size == 1 {
      assert Halved(size, 0) == 1;
    } else if size > 1 {
      RecursionEndsExactly(size / 2);
      var depth: nat :| Halved(size / 2, depth) == 1;
      assert Halved(size, depth + 1) == 1;
    } else {
      forall depth: nat ensures Halved(0, depth) == 0 {
        ZeroStays(depth);
      }
    }
  }

  lemma {:induction false} ZeroStays(depth: nat)
    ensures Halved(0, depth) == 0
  {
    if depth > 0 {
      ZeroStays(depth - 1);
    }
  }

  lemma {:induction false} AndBelow(m: nat, j: nat, k: nat)
    requires j < Pow2(m)
    ensures BitAnd(j, k) < Pow2(m)
  {
    if j != 0 {
      AndBelow(m - 1, j / 2, k / 2);
    }
  }

  lemma HalvesOfSum(v: nat, h: nat)
    ensures (v + 2 * h) / 2 == v / 2 + h && (v + 2 * h) % 2 == v % 2
  {
  }

  lemma {:induction false} AndTopBitLeft(m: nat, j: nat, k: nat)
    requires j < Pow2(m) && k < Pow2(m)
    ensures BitAnd(j + Pow2(m), k) == BitAnd(j, k)
  {
    if m > 0 {
      AndTopBitLeft(m - 1, j / 2, k / 2);
      HalvesOfSum(j, Pow2(m - 1));
    }
  }

  lemma {:induction false} AndTopBitRight(m: nat, j: nat, k: nat)
    requires j < Pow2(m) && k < Pow2(m)
    ensures BitAnd(j, k + Pow2(m)) == BitAnd(j, k)
  {
    if j > 0 {
      AndTopBitRight(m - 1, j / 2, k / 2);
      HalvesOfSum(k, Pow2(m - 1));
    }
  }

  lemma {:induction false} AndTopBitBoth(m: nat, j: nat, k: nat)
    requires j < Pow2(m) && k < Pow2(m)
    ensures BitAnd(j + Pow2(m), k + Pow2(m)) == BitAnd(j, k) + Pow2(m)
  {
    if m > 0 {
      AndTopBitBoth(m - 1, j / 2, k / 2);
      HalvesOfSum(j, Pow2(m - 1));
      HalvesOfSum(k, Pow2(m - 1));
    }
  }

  lemma {:induction false} PopCountTopBit(m: nat, v: nat)
    requires v < Pow2(m)
    ensures PopCount(v + Pow2(m)) == PopCount(v) + 1
  {
    if m > 0 {
      PopCountTopBit(m - 1, v / 2);
      HalvesOfSum(v, Pow2(m - 1));
    }
  }

  /** Whether popcount(bits) is odd. */
  predicate Odd(bits: nat) {
    PopCount(bits) % 2 == 1
  }

  lemma OddTopBit(m: nat, v: nat)
    requires v < Pow2(m)
    ensures Odd(v + Pow2(m)) == !Odd(v)
  {
    PopCountTopBit(m, v);
  }

  // ---- the transform

  /** For `j` below `n`, whether the sign (-1)^popcount(j & k) is negative. */
  function Row(k: nat, n: nat): seq<bool> {
    seq(n, j requires j >= 0 => Odd(BitAnd(j, k)))
  }

  /** The first `n` elements of `x`, summed with the given signs. */
  function SignedSum(negative: seq<bool>, x: seq<real>, n: nat): real
    requires n <= |x| && n <= |negative|
  {
    if n == 0 then 0.0
    else SignedSum(negative, x, n - 1) + if negative[n - 1] then -x[n - 1] else x[n - 1]
  }

  /** The sum over all `j` of `x[j]` times (-1)^popcount(j & k). */
  function Coefficient(x: seq<real>, k: nat): real {
    SignedSum(Row(k, |x|), x, |x|)
  }

  /** The definition of the transform. */
  function Walsh(x: seq<real>): seq<real> {
    seq(|x|, k requires k >= 0 => Coefficient(x, k))
  }

  // ---- one level of the fast algorithm

  function Sums(h: nat, x: seq<real>): seq<real>
    requires |x| == 2 * h
  {
    seq(h, i requires 0 <= i < h => x[i + h] + x[i])
  }

  function Differences(h: nat, x: seq<real>): seq<real>
    requires |x| == 2 * h
  {
    seq(h, i requires 0 <= i < h => x[i] - x[i + h])
  }

  /** Signs that repeat in the second half: a signed sum of the sums of the halves. */
  lemma {:induction false} SignsRepeat(h: nat, s: seq<bool>, t: seq<bool>, x: seq<real>, n: nat)
    requires |s| == |x| == 2 * h && |t| == h && n <= h
    requires forall j :: 0 <= j < h ==> s[j] == t[j] && s[j + h] == t[j]
    ensures SignedSum(s, x, h + n) - SignedSum(s, x, h) + SignedSum(s, x, n) == SignedSum(t, Sums(h, x), n)
  {
    if n > 0 {
      SignsRepeat(h, s, t, x, n - 1);
    }
  }

  /** Signs that flip in the second half: a signed sum of the differences of the halves. */
  lemma {:induction false} SignsFlip(h: nat, s: seq<bool>, t: seq<bool>, x: seq<real>, n: nat)
    requires |s| == |x| == 2 * h && |t| == h && n <= h
    requires forall j :: 0 <= j < h ==> s[j] == t[j] && s[j + h] == !t[j]
    ensures SignedSum(s, x, h + n) - SignedSum(s, x, h) + SignedSum(s, x, n) == SignedSum(t, Differences(h, x), n)
  {
    if n > 0 {
      SignsFlip(h, s, t, x, n - 1);
    }
  }

  /** Row `k` repeats, and row `k + h` flips, in its second half. */
  lemma RowHalves(m: nat, k: nat)
    requires k < Pow2(m)
    ensures var h := Pow2(m);
            forall j :: 0 <= j < h ==>
              && Row(k, 2 * h)[j] == Row(k, 2 * h)[j + h] == Row(k, h)[j]
              && Row(k + h, 2 * h)[j] == Row(k, h)[j] && Row(k + h, 2 * h)[j + h] == !Row(k, h)[j]
  {
    hide Odd, BitAnd;
    var h := Pow2(m);
    forall j | 0 <= j < h
      ensures Row(k, 2 * h)[j] == Row(k, 2 * h)[j + h] == Row(k, h)[j]
      ensures Row(k + h, 2 * h)[j] == Row(k, h)[j] && Row(k + h, 2 * h)[j + h] == !Row(k, h)[j]
    {
      AndTopBitLeft(m, j, k);
      AndTopBitRight(m, j, k);
      AndTopBitBoth(m, j, k);
      AndBelow(m, j, k);
      OddTopBit(m, BitAnd(j, k));
    }
  }

  /** One level: the transforms of the sums and of the differences are the two halves of the transform. */
  lemma WalshHalf(m: nat, x: seq<real>, k: nat)
    requires |x| == 2 * Pow2(m) && k < Pow2(m)
    ensures Walsh(x)[k] == Walsh(Sums(Pow2(m), x))[k]
    ensures Walsh(x)[k + Pow2(m)] == Walsh(Differences(Pow2(m), x))[k]
  {
    hide Odd, BitAnd;
    var h := Pow2(m);
    RowHalves(m, k);
    SignsRepeat(h, Row(k, 2 * h), Row(k, h), x, h);
    SignsFlip(h, Row(k + h, 2 * h), Row(k, h), x, h);
  }

  lemma IsConcatenation(s: seq<real>, a: seq<real>, b: seq<real>)
    requires |s| == |a| + |b|
    requires forall k {:trigger a[k]} :: 0 <= k < |a| ==> s[k] == a[k]
    requires forall k {:trigger b[k]} :: 0 <= k < |b| ==> s[k + |a|] == b[k]
    ensures s == a + b
  {
  }

  lemma WalshHalves(m: nat, x: seq<real>)
    requires |x| == 2 * Pow2(m)
    ensures Walsh(x) == Walsh(Sums(Pow2(m), x)) + Walsh(Differences(Pow2(m), x))
  {
    hide Coefficient;
    var a, b := Walsh(Sums(Pow2(m), x)), Walsh(Differences(Pow2(m), x));
    forall k {:trigger a[k]} {:trigger b[k]} | 0 <= k < Pow2(m)
      ensures Walsh(x)[k] == a[k] && Walsh(x)[k + Pow2(m)] == b[k]
    {
      WalshHalf(m, x, k);
    }
    IsConcatenation(Walsh(x), a, b);
  }

  // ---- the inverse

  function Plus(a: seq<real>, b: seq<real>): seq<real>
    requires |a| == |b|
  {
    seq(|a|, i requires 0 <= i < |a| => a[i] + b[i])
  }

  function Minus(a: seq<real>, b: seq<real>): seq<real>
    requires |a| == |b|
  {
    seq(|a|, i requires 0 <= i < |a| => a[i] - b[i])
  }

  function Scaled(x: seq<real>, scalar: real): seq<real> {
    seq(|x|, i requires 0 <= i < |x| => x[i] * scalar)
  }

  lemma {:induction false} SumPlus(negative: seq<bool>, a: seq<real>, b: seq<real>, n: nat)
    requires |a| == |b| && n <= |a| && n <= |negative|
    ensures SignedSum(negative, Plus(a, b), n) == SignedSum(negative, a, n) + SignedSum(negative, b, n)
    ensures SignedSum(negative, Minus(a, b), n) == SignedSum(negative, a, n) - SignedSum(negative, b, n)
  {
    if n > 0 {
      SumPlus(negative, a, b, n - 1);
    }
  }

  /** The transform is linear ... */
  lemma WalshPlus(a: seq<real>, b: seq<real>)
    requires |a| == |b|
    ensures Walsh(Plus(a, b)) == Plus(Walsh(a), Walsh(b))
    ensures Walsh(Minus(a, b)) == Minus(Walsh(a), Walsh(b))
  {
    forall k | 0 <= k < |a|
      ensures Walsh(Plus(a, b))[k] == Walsh(a)[k] + Walsh(b)[k]
      ensures Walsh(Minus(a, b))[k] == Walsh(a)[k] - Walsh(b)[k]
    {
      SumPlus(Row(k, |a|), a, b, |a|);
    }
  }

  lemma {:induction false} SumScaled(negative: seq<bool>, x: seq<real>, scalar: real, n: nat)
    requires n <= |x| && n <= |negative|
    ensures SignedSum(negative, Scaled(x, scalar), n) == SignedSum(negative, x, n) * scalar
  {
    if n > 0 {
      SumScaled(negative, x, scalar, n - 1);
      Distribute(SignedSum(negative, x, n - 1), x[n - 1], scalar);
      assert Scaled(x, scalar)[n - 1] == x[n - 1] * scalar;
    }
  }

  lemma WalshScaledAt(x: seq<real>, scalar: real, k: nat)
    requires k < |x|
    ensures Walsh(Scaled(x, scalar))[k] == Scaled(Walsh(x), scalar)[k]
  {
    SumScaled(Row(k, |x|), x, scalar, |x|);
  }

  lemma WalshScaled(x: seq<real>, scalar: real)
    ensures Walsh(Scaled(x, scalar)) == Scaled(Walsh(x), scalar)
  {
    var y, z := Walsh(x), Walsh(Scaled(x, scalar));
    forall k | 0 <= k < |x|
      ensures z[k] == Scaled(y, scalar)[k]
    {
      WalshScaledAt(x, scalar, k);
    }
  }

  /** ... and its own inverse up to the factor `Pow2(m)`. */
  lemma {:induction false} WalshTwice(m: nat, x: seq<real>)
    requires |x| == Pow2(m)
    ensures Walsh(Walsh(x)) == Scaled(x, Pow2(m) as real)
  {
    if m == 0 {
      WalshOfOne(x);
      assert x[0] * 1.0 == x[0];
    } else {
      var h := Pow2(m - 1);
      var s, d := Sums(h, x), Differences(h, x);
      WalshHalves(m - 1, x);
      var y := Walsh(s) + Walsh(d);
      WalshHalves(m - 1, y);
      assert Sums(h, y) == Plus(Walsh(d), Walsh(s));
      assert Differences(h, y) == Minus(Walsh(s), Walsh(d));
      WalshPlus(d, s);
      WalshPlus(s, d);
      WalshTwice(m - 1, Plus(d, s));
      WalshTwice(m - 1, Minus(s, d));
      DoubledHalves(h, x);
    }
  }

  lemma WalshOfOne(x: seq<real>)
    requires |x| == 1
    ensures Walsh(x) == x
  {
    assert Row(0, 1)[0] == Odd(BitAnd(0, 0)) == false;
    assert SignedSum(Row(0, 1), x, 1) == SignedSum(Row(0, 1), x, 0) + x[0];
  }

  lemma DoubledHalves(h: nat, x: seq<real>)
    requires |x| == 2 * h
    ensures var s, d := Sums(h, x), Differences(h, x);
            Scaled(Plus(d, s), h as real) + Scaled(Minus(s, d), h as real) == Scaled(x, (2 * h) as real)
  {
    var s, d, r := Sums(h, x), Differences(h, x), h as real;
    var y := Scaled(Plus(d, s), r) + Scaled(Minus(s, d), r);
    forall i | 0 <= i < |x|
      ensures y[i] == Scaled(x, (2 * h) as real)[i]
    {
      Distribute(x[i], x[i], r);
      assert x[i] * (2 * h) as real == x[i] * r + x[i] * r;
      assert y[i] == (x[i] + x[i]) * r;
    }
  }

  lemma Distribute(a: real, b: real, c: real)
    ensures (a + b) * c == a * c + b * c && (a - b) * c == a * c - b * c
  {
  }

  lemma ScaledBack(x: seq<real>, r: real)
    requires r != 0.0
    ensures Scaled(Scaled(x, r), 1.0 / r) == x
  {
    forall i | 0 <= i < |x|
      ensures Scaled(Scaled(x, r), 1.0 / r)[i] == x[i]
    {
      Cancel(x[i], r);
    }
  }

  lemma Cancel(a: real, r: real)
    requires r != 0.0
    ensures a * r * (1.0 / r) == a
  {
    assert a * r * (1.0 / r) == a * (r * (1.0 / r));
  }

  /** What `InverseWalshTransform` computes, by the definition. */
  function InverseWalsh(x: seq<real>): seq<real>
    requires |x| > 0
  {
    Scaled(Walsh(x), 1.0 / |x| as real)
  }

  /** `InverseWalshTransform` undoes `WalshTransform`, and the other way round. */
  lemma InverseIsInverse(x: seq<real>)
    requires |x| > 0 && IsPowerOfTwo(|x|)
    ensures InverseWalsh(Walsh(x)) == x && Walsh(InverseWalsh(x)) == x
  {
    var m := Log2(|x|);
    var scalar := 1.0 / |x| as real;
    WalshTwice(m, x);
    WalshScaled(Walsh(x), scalar);
    ScaledBack(x, |x| as real);
  }

  // ---- the in-place program

  method WalshTransform(data: array<real>)
    requires data.Length > 0 && IsPowerOfTwo(data.Length)
    modifies data
    ensures data[..] == Walsh(old(data[..]))
  {
    ghost var m := Log2(data.Length);
    var temp := new real[data.Length](_ => 0.0);
    assert data[0..data.Length] == old(data[..]);
    var ret := WalshImpl(data, temp, 0, data.Length, m);
    assert ret == ret[0..data.Length];
    for i := 0 to data.Length
      invariant forall k :: 0 <= k < i ==> data[k] == ret[k]
    {
      data[i] := ret[i];
    }
    assert data[..] == ret;
  }

  method Scale(data: array<real>, scalar: real)
    modifies data
    ensures data[..] == Scaled(old(data[..]), scalar)
  {
    for i := 0 to data.Length
      invariant forall k :: 0 <= k < i ==> data[k] == Scaled(old(data[..]), scalar)[k]
      invariant forall k :: i <= k < data.Length ==> data[k] == old(data[k])
    {
      data[i] := data[i] * scalar;
    }
  }

  method InverseWalshTransform(data: array<real>)
    requires data.Length > 0 && IsPowerOfTwo(data.Length)
    modifies data
    ensures data[..] == InverseWalsh(old(data[..]))
  {
    WalshTransform(data);
    Scale(data, 1.0 / data.Length as real);
  }

  /** `after` agrees with `before` outside `[start, start + size)`. */
  ghost predicate SameOutside(before: seq<real>, after: seq<real>, start: nat, size: nat) {
    |after| == |before| &&
    forall k :: 0 <= k < |before| && !(start <= k < start + size) ==> after[k] == before[k]
  }

  lemma SameSlice(before: seq<real>, after: seq<real>, start: nat, size: nat, from: nat, to: nat)
    requires SameOutside(before, after, start, size) && from <= to <= |before| && (to <= start || start + size <= from)
    ensures after[from..to] == before[from..to]
  {
  }

  /** `ret` holds, in the range of `size` elements at `start`, the transform of that range of `before`. */
  ghost predicate TransformOf(before: seq<real>, ret: seq<real>, start: nat, size: nat) {
    |ret| == |before| && start + size <= |before| && ret[start..start + size] == Walsh(before[start..start + size])
  }

  /** `temp` holds the sums of the two halves of a range of `data`, then their differences. */
  ghost predicate HalvesOf(data: seq<real>, temp: seq<real>, start: nat, stride: nat) {
    && |temp| == |data| && start + 2 * stride <= |data|
    && temp[start..start + stride] == Sums(stride, data[start..start + 2 * stride])
    && temp[start + stride..start + 2 * stride] == Differences(stride, data[start..start + 2 * stride])
  }

  lemma ChangedWithin(a: seq<real>, b: seq<real>, c: seq<real>, d: seq<real>, start: nat, stride: nat)
    requires SameOutside(a, b, start, 2 * stride)
    requires SameOutside(b, c, start, stride) && SameOutside(c, d, start + stride, stride)
    ensures SameOutside(a, d, start, 2 * stride)
  {
  }

  /** From the sums and differences in `temp1`, the first call makes `low` and `temp2`, and the second `ret`. */
  lemma TwoHalves(data: seq<real>, temp1: seq<real>, low: seq<real>, temp2: seq<real>, ret: seq<real>, start: nat, m: nat)
    requires HalvesOf(data, temp1, start, Pow2(m))
    requires TransformOf(temp1, low, start, Pow2(m)) && SameOutside(temp1, temp2, start, Pow2(m))
    requires TransformOf(temp2, ret, start + Pow2(m), Pow2(m)) && SameOutside(low, ret, start + Pow2(m), Pow2(m))
    ensures TransformOf(data, ret, start, 2 * Pow2(m))
  {
    hide Walsh, Sums, Differences;
    var h := Pow2(m);
    assert ret[start..start + h] == Walsh(Sums(h, data[start..start + 2 * h])) by {
      SameSlice(low, ret, start + h, h, start, start + h);
    }
    assert ret[start + h..start + 2 * h] == Walsh(Differences(h, data[start..start + 2 * h])) by {
      SameSlice(temp1, temp2, start, h, start + h, start + 2 * h);
    }
    assert ret[start..start + 2 * h] == ret[start..start + h] + ret[start + h..start + 2 * h];
    WalshHalves(m, data[start..start + 2 * h]);
  }

  lemma OneElement(data: seq<real>, start: nat)
    requires start < |data|
    ensures TransformOf(data, data, start, 1)
  {
    WalshOfOne(data[start..start + 1]);
  }

  ghost predicate EvenDepth(m: nat) {
    if m == 0 then true else !EvenDepth(m - 1)
  }

  /** Transforms `data[start..start + size]`. The buffers swap roles at each level, so the result
      ends up in `data` or in `temp` according to the parity of `m`; that buffer is returned. */
  method WalshImpl(data: array<real>, temp: array<real>, start: nat, size: nat, ghost m: nat) returns (ret: seq<real>)
    requires data != temp && data.Length == temp.Length && start + size <= data.Length && size == Pow2(m)
    modifies data, temp
    ensures SameOutside(old(data[..]), data[..], start, size) && SameOutside(old(temp[..]), temp[..], start, size)
    ensures EvenDepth(m) ==> ret == data[..]
    ensures !EvenDepth(m) ==> ret == temp[..]
    ensures TransformOf(old(data[..]), ret, start, size)
    decreases m
  {
    hide Walsh, Sums, Differences;
    if size == 1 {
      OneElement(data[..], start);
      return data[..];
    }
    var stride := size / 2;
    assert stride == Pow2(m - 1) && EvenDepth(m) == !EvenDepth(m - 1);
    ghost var data0, temp0 := data[..], temp[..];
    Butterfly(data, temp, start, stride);
    ghost var temp1 := temp[..];
    ret := WalshImpl(temp, data, start, stride, m - 1);
    ghost var data2, temp2, low := data[..], temp[..], ret;
    ret := WalshImpl(temp, data, start + stride, stride, m - 1);
    TwoHalves(data0, temp1, low, temp2, ret, start, m - 1);
    ChangedWithin(data0, data0, data2, data[..], start, stride);
    ChangedWithin(temp0, temp1, temp2, temp[..], start, stride);
  }

  /** The loop of `WalshImpl`. */
  method Butterfly(data: array<real>, temp: array<real>, start: nat, stride: nat)
    requires data != temp && data.Length == temp.Length && start + 2 * stride <= data.Length
    modifies temp
    ensures SameOutside(old(temp[..]), temp[..], start, 2 * stride)
    ensures HalvesOf(data[..], temp[..], start, stride)
  {
    ghost var x := data[start..start + 2 * stride];
    ghost var sums, differences := Sums(stride, x), Differences(stride, x);
    for i := 0 to stride
      invariant SameOutside(old(temp[..]), temp[..], start, 2 * stride)
      invariant forall k :: start <= k < start + i ==> temp[k] == sums[k - start]
      invariant forall k :: start + stride <= k < start + stride + i ==> temp[k] == differences[k - start - stride]
    {
      assert x[i] == data[start + i] && x[i + stride] == data[start + i + stride];
      temp[start + i] := data[start + i + stride] + data[start + i];
      temp[start + i + stride] := data[start + i] - data[start + i + stride];
    }
  }
}
