/** Shift registers that generate a sequence, and the step of the Berlekamp-Massey algorithm. */
module Massey {
  import opened Fields
  import opened Sums

  ghost predicate NoTermAbove(p: seq<gf>, n: int) { forall i {:trigger At(p, i)} :: n < i ==> At(p, i) == 0 }

  function Value(F: Field, p: seq<gf>, s: seq<gf>, j: int): gf { Conv(F, p, s, j, |p|) }

  /** The recurrence with coefficients `p`, of length `len`, generates s_1 to s_r. */
  ghost predicate Generates(F: Field, p: seq<gf>, len: int, s: seq<gf>, r: int) {
    && At(p, 0) == 1 && NoTermAbove(p, len) && 0 <= len
    && (forall j {:trigger Value(F, p, s, j)} :: len < j <= r ==> Value(F, p, s, j) == 0)
  }

  ghost predicate Shortest(F: Field, len: int, s: seq<gf>, r: int) {
    forall c, n {:trigger Generates(F, c, n, s, r)} :: Generates(F, c, n, s, r) ==> len <= n
  }

  /** What the correction polynomial `b` is for: it sees nothing but a 1 at r. */
  ghost predicate Corrects(F: Field, b: seq<gf>, s: seq<gf>, r: int, len: int) {
    && NoTermAbove(b, r - len)
    && (forall j {:trigger Value(F, b, s, j)} :: r - len < j < r ==> Value(F, b, s, j) == 0)
    && Value(F, b, s, r) == 1
  }

  /** After step r: `lambda` is a shortest register for s_1 to s_r. By convention s_0 is 1. */
  ghost predicate AfterStep(F: Field, lambda: seq<gf>, b: seq<gf>, s: seq<gf>, r: int, len: int) {
    && |lambda| == |b| == |s| && At(s, 0) == 1 && 0 <= len <= r < |s|
    && Generates(F, lambda, len, s, r) && Shortest(F, len, s, r) && Corrects(F, b, s, r, len)
  }

  // ----- how long a register must be -----

  /** If a register of length `len` fails at r + 1 for the first time, no register that does
      not fail is shorter than r + 1 - len. */
  lemma TooShort(F: Field, p: seq<gf>, len: int, c: seq<gf>, n: int, s: seq<gf>, r: int)
    requires IsField(F) && 0 <= r && Generates(F, p, len, s, r) && Value(F, p, s, r + 1) != 0
    requires Generates(F, c, n, s, r + 1)
    ensures r + 1 - len <= n
  {
    if n + len <= r {
      OtherWay(F, p, len, c, n, s, r);
      OtherWay2(F, p, len, c, n, s, r);
      Conv2Swap(F, c, p, s, r + 1, |c|, |p|);
    }
  }

  lemma OtherWay(F: Field, p: seq<gf>, len: int, c: seq<gf>, n: int, s: seq<gf>, r: int)
    requires IsField(F) && n + len <= r && Generates(F, p, len, s, r) && Generates(F, c, n, s, r + 1)
    ensures |c| > 0 && Conv2(F, c, p, s, r + 1, |c|, |p|) == Value(F, p, s, r + 1)
  {
    forall i {:trigger At(c, i)} | 1 <= i < |c| ensures At(c, i) == 0 || Conv(F, p, s, r + 1 - i, |p|) == 0 {
      if i <= n { assert Value(F, p, s, r + 1 - i) == 0; }
    }
    Conv2First(F, c, p, s, r + 1, |c|, |p|);
    OneMul(F, Value(F, p, s, r + 1));
  }

  lemma OtherWay2(F: Field, p: seq<gf>, len: int, c: seq<gf>, n: int, s: seq<gf>, r: int)
    requires IsField(F) && n + len <= r && Generates(F, p, len, s, r) && Generates(F, c, n, s, r + 1)
    ensures Conv2(F, p, c, s, r + 1, |p|, |c|) == 0
  {
    forall i {:trigger At(p, i)} | 1 <= i < |p| ensures At(p, i) == 0 || Conv(F, c, s, r + 1 - i, |c|) == 0 {
      if i <= len { assert Value(F, c, s, r + 1 - i) == 0; }
    }
    Conv2First(F, p, c, s, r + 1, |p|, |c|);
    assert Value(F, c, s, r + 1) == 0;
    MulZero(F, At(p, 0));
  }

  // ----- the step -----

  ghost predicate Shifted(b': seq<gf>, b: seq<gf>) {
    At(b', 0) == 0 && forall i {:trigger At(b', i)} :: 1 <= i ==> At(b', i) == At(b, i - 1)
  }

  ghost predicate Scaled(F: Field, b': seq<gf>, c: gf, b: seq<gf>) {
    forall i {:trigger At(b', i)} :: At(b', i) == Mul(F, c, At(b, i))
  }

  lemma ShiftedCorrects(F: Field, b': seq<gf>, b: seq<gf>, s: seq<gf>, r: int, len: int)
    requires IsField(F) && Corrects(F, b, s, r, len) && Shifted(b', b) && |b'| == |b| && r - len + 1 < |b|
      && 0 <= len <= r
    ensures Corrects(F, b', s, r + 1, len)
  {
    forall j ensures Value(F, b', s, j) == Value(F, b, s, j - 1) {
      ConvShifted(F, b', b, s, j, |b| - 1);
      ConvShort(F, b, s, j - 1, |b| - 1, |b|);
    }
  }

  lemma ScaledCorrects(F: Field, b': seq<gf>, lambda: seq<gf>, s: seq<gf>, r: int, len: int)
    requires IsField(F) && Generates(F, lambda, len, s, r) && 0 <= len <= r && |b'| == |lambda|
    requires var d := Value(F, lambda, s, r + 1); d != 0 && Scaled(F, b', Inv(F, d), lambda)
    ensures Corrects(F, b', s, r + 1, r + 1 - len)
  {
    var d := Value(F, lambda, s, r + 1);
    var i := Inv(F, d);
    MulZero(F, i);
    forall j ensures Value(F, b', s, j) == Mul(F, i, Value(F, lambda, s, j)) {
      ConvScaled(F, b', i, lambda, s, j, |b'|);
    }
    assert Inverse(F, d) && MulComm(F, i, d);
  }

  /** The new register. */
  lemma CombinedValue(F: Field, t: seq<gf>, lambda: seq<gf>, d: gf, b: seq<gf>, s: seq<gf>, j: int)
    requires IsField(F) && Combined(F, t, lambda, d, b) && |t| == |lambda| == |b| > 0 && At(b, |b| - 1) == 0
    ensures Value(F, t, s, j) == Add(F, Value(F, lambda, s, j), Mul(F, d, Value(F, b, s, j - 1)))
  {
    ConvCombined(F, t, lambda, d, b, s, j, |b| - 1);
    ConvShort(F, b, s, j - 1, |b| - 1, |b|);
  }

  function Max(a: int, b: int): int { if a < b then b else a }

  lemma CombinedGenerates(F: Field, t: seq<gf>, lambda: seq<gf>, b: seq<gf>, s: seq<gf>, r: int, len: int)
    requires IsField(F) && AfterStep(F, lambda, b, s, r, len) && r + 1 < |s| && |t| == |lambda|
    requires Combined(F, t, lambda, Value(F, lambda, s, r + 1), b)
    ensures Generates(F, t, Max(len, r + 1 - len), s, r + 1)
  {
    var d, n := Value(F, lambda, s, r + 1), Max(len, r + 1 - len);
    forall i {:trigger At(t, i)} | n < i ensures At(t, i) == 0 {
      MulZero(F, d);
      AddsUp(F, 0, 0);
      assert At(lambda, i) == 0 && At(b, i - 1) == 0;
    }
    forall j {:trigger Value(F, t, s, j)} | n < j <= r + 1 ensures Value(F, t, s, j) == 0 {
      CombinedValue(F, t, lambda, d, b, s, j);
      MulZero(F, d);
      OneMul(F, d);
      AddsUp(F, 0, 0);
      AddsUp(F, d, d);
    }
  }

  /** A register that has not failed stays the shortest. */
  lemma StillShortest(F: Field, len: int, s: seq<gf>, r: int)
    requires Shortest(F, len, s, r)
    ensures Shortest(F, len, s, r + 1)
  {
    forall c, n {:trigger Generates(F, c, n, s, r + 1)} | Generates(F, c, n, s, r + 1) ensures len <= n {
      assert Generates(F, c, n, s, r);
    }
  }

  lemma ShortestAfterFailure(F: Field, lambda: seq<gf>, len: int, s: seq<gf>, r: int)
    requires IsField(F) && 0 <= r && Generates(F, lambda, len, s, r) && Value(F, lambda, s, r + 1) != 0
    ensures Shortest(F, r + 1 - len, s, r + 1)
  {
    forall c, n {:trigger Generates(F, c, n, s, r + 1)} | Generates(F, c, n, s, r + 1) ensures r + 1 - len <= n {
      TooShort(F, lambda, len, c, n, s, r);
    }
  }

  /** No discrepancy. */
  lemma StepSame(F: Field, lambda: seq<gf>, b: seq<gf>, b': seq<gf>, s: seq<gf>, r: int, len: int)
    requires IsField(F) && AfterStep(F, lambda, b, s, r, len) && r + 1 < |s|
    requires Value(F, lambda, s, r + 1) == 0 && Shifted(b', b) && |b'| == |b|
    ensures AfterStep(F, lambda, b', s, r + 1, len)
  {
    StillShortest(F, len, s, r);
    ShiftedCorrects(F, b', b, s, r, len);
  }

  /** A discrepancy that the register has room to correct. */
  lemma StepCorrected(F: Field, lambda: seq<gf>, t: seq<gf>, b: seq<gf>, b': seq<gf>, s: seq<gf>, r: int, len: int)
    requires IsField(F) && AfterStep(F, lambda, b, s, r, len) && r + 1 < |s| && |t| == |lambda| == |b'|
    requires Combined(F, t, lambda, Value(F, lambda, s, r + 1), b) && Shifted(b', b) && 2 * len > r
    ensures AfterStep(F, t, b', s, r + 1, len)
  {
    CombinedGenerates(F, t, lambda, b, s, r, len);
    StillShortest(F, len, s, r);
    ShiftedCorrects(F, b', b, s, r, len);
  }

  /** One that makes it longer. */
  lemma StepLonger(F: Field, lambda: seq<gf>, t: seq<gf>, b: seq<gf>, b': seq<gf>, s: seq<gf>, r: int, len: int)
    requires IsField(F) && AfterStep(F, lambda, b, s, r, len) && r + 1 < |s| && |t| == |lambda| == |b'|
    requires var d := Value(F, lambda, s, r + 1);
      d != 0 && Combined(F, t, lambda, d, b) && Scaled(F, b', Inv(F, d), lambda) && 2 * len <= r
    ensures AfterStep(F, t, b', s, r + 1, r + 1 - len)
  {
    CombinedGenerates(F, t, lambda, b, s, r, len);
    ShortestAfterFailure(F, lambda, len, s, r);
    ScaledCorrects(F, b', lambda, s, r, len);
  }

  lemma FirstRegister(F: Field, lambda: seq<gf>, s: seq<gf>)
    requires IsField(F) && |lambda| == |s| > 0 && At(s, 0) == 1 && At(lambda, 0) == 1 && NoTermAbove(lambda, 0)
    ensures AfterStep(F, lambda, lambda, s, 0, 0)
  {
    ConvShort(F, lambda, s, 0, 1, |lambda|);
    OneMul(F, 1);
    AddsUp(F, 1, 0);
    assert Conv(F, lambda, s, 0, 0) == 0;
  }
}
