/** The Berlekamp-Massey loop of the decoder, on its tables and arrays. */
module BerlekampMassey {
  import opened Fields
  import opened Sums
  import opened Massey
  import opened PowerSums
  import opened Logs
  import opened Tables

  ghost predicate Ready(F: Field, alphaTo: seq<gf>, indexOf: seq<gf>) {
    IsField(F) && Primitive(F, 2) && Antilogs(F, alphaTo) && LogTable(F, indexOf)
  }

  /** Alpha_to[modnn(x)] */
  method Antilog(alphaTo: array<gf>, x: int, ghost F: Field) returns (a: gf)
    requires 0 <= x && IsField(F) && Primitive(F, 2) && Antilogs(F, alphaTo[..])
    ensures a == Power(F, 2, x)
  {
    var r := Modnn(x);
    Period(F, 2, x);
    a := alphaTo[r];
  }

  lemma LogSum(F: Field, a: gf, b: gf)
    requires IsField(F) && Primitive(F, 2) && a != 0 && b != 0
    ensures Power(F, 2, Log(F, 2, a) + Log(F, 2, b)) == Mul(F, a, b)
  {
    LogMul(F, 2, a, b);
    Period(F, 2, Log(F, 2, a) + Log(F, 2, b));
  }

  /** `x` holds the logarithms of `v`, from place `lo` on. */
  ghost predicate LogsOf(F: Field, x: seq<gf>, v: seq<gf>, lo: int)
    requires IsField(F) && Primitive(F, 2)
  { |x| == |v| && forall i {:trigger x[i]} {:trigger v[i]} :: 0 <= lo <= i < |x| ==> x[i] == Log(F, 2, v[i]) }

  lemma NothingAdded(F: Field, d: gf, a: gf, b: gf)
    requires IsRing(F) && (a == 0 || b == 0)
    ensures Add(F, d, Mul(F, a, b)) == d
  {
    MulZero(F, a);
    MulZero(F, b);
    assert AddZero(F, d);
  }

  /** The discrepancy at step r, in polynomial form. */
  method Discrepancy(F: Field, alphaTo: array<gf>, indexOf: array<gf>, lambda: array<gf>, s: array<gf>, r: int,
                     ghost S: seq<gf>)
    returns (d: gf)
    requires Ready(F, alphaTo[..], indexOf[..]) && LogsOf(F, s[..], S, 1) && lambda.Length == s.Length
      && 1 <= r < s.Length
    ensures d == Conv(F, lambda[..], S, r, r)
  {
    d := 0;
    for i := 0 to r
      invariant d == Conv(F, lambda[..], S, r, i)
    {
      assert s[..][r - i] == Log(F, 2, S[r - i]);
      if lambda[i] != 0 && s[r - i] != A0 {
        LogSum(F, lambda[i], S[r - i]);
        var a := Antilog(alphaTo, indexOf[lambda[i]] as int + s[r - i], F);
        d := Add(F, d, a);
      } else {
        NothingAdded(F, d, lambda[i], S[r - i]);
      }
    }
  }

  /** T(x) <- lambda(x) - discr_r*x*b(x) */
  method MakeT(F: Field, alphaTo: array<gf>, indexOf: array<gf>, t: array<gf>, lambda: array<gf>, b: array<gf>,
               discr: gf, ghost d: gf, ghost B: seq<gf>)
    requires Ready(F, alphaTo[..], indexOf[..]) && LogsOf(F, b[..], B, 0) && t.Length == lambda.Length == b.Length >= 1
    requires d != 0 && discr == Log(F, 2, d) && B[|B| - 1] == 0
    requires t != lambda && t != b && t != alphaTo && t != indexOf
    modifies t
    ensures Combined(F, t[..], lambda[..], d, B)
  {
    t[0] := lambda[0];
    for i := 0 to lambda.Length - 1
      invariant t[0] == lambda[0] && LogsOf(F, b[..], B, 0) && Ready(F, alphaTo[..], indexOf[..])
      invariant forall k {:trigger t[k]} :: 1 <= k <= i ==> t[k] == Add(F, lambda[k], Mul(F, d, B[k - 1]))
    {
      assert b[..][i] == Log(F, 2, B[i]);
      if b[i] != A0 {
        LogSum(F, d, B[i]);
        var a := Antilog(alphaTo, discr as int + b[i], F);
        t[i + 1] := Add(F, lambda[i + 1], a);
      } else {
        NothingAdded(F, lambda[i + 1], d, B[i]);
        t[i + 1] := lambda[i + 1];
      }
    }
    TIsCombined(F, t[..], lambda[..], d, B);
  }

  lemma TIsCombined(F: Field, t: seq<gf>, lambda: seq<gf>, d: gf, B: seq<gf>)
    requires IsField(F) && |t| == |lambda| == |B| >= 1 && t[0] == lambda[0] && B[|B| - 1] == 0
    requires forall k {:trigger t[k]} :: 1 <= k < |t| ==> t[k] == Add(F, lambda[k], Mul(F, d, B[k - 1]))
    ensures Combined(F, t, lambda, d, B)
  {
    forall i {:trigger At(t, i)} | 1 <= i ensures At(t, i) == Add(F, At(lambda, i), Mul(F, d, At(B, i - 1))) {
      if i >= |t| { NothingAdded(F, 0, d, At(B, i - 1)); }
    }
  }

  /** B(x) <-- x*B(x) */
  method ShiftB(F: Field, b: array<gf>, ghost B: seq<gf>) returns (ghost B': seq<gf>)
    requires IsField(F) && Primitive(F, 2) && LogsOf(F, b[..], B, 0) && b.Length >= 1 && B[|B| - 1] == 0
    modifies b
    ensures |B'| == |B| && LogsOf(F, b[..], B', 0) && Shifted(B', B)
  {
    ghost var was := b[..];
    var i := b.Length - 2;
    while i >= 0
      invariant -1 <= i <= b.Length - 2
      invariant forall k {:trigger b[k]} :: 0 <= k < b.Length ==> b[k] == if k >= i + 2 then was[k - 1] else was[k]
    {
      b[i + 1] := b[i];
      i := i - 1;
    }
    b[0] := A0;
    B' := [0] + B[..|B| - 1];
    assert Log(F, 2, 0) == A0;
    forall k {:trigger b[..][k]} | 0 <= k < b.Length ensures b[..][k] == Log(F, 2, B'[k]) {
      if k > 0 { assert was[k - 1] == Log(F, 2, B[k - 1]); }
    }
  }

  /** B(x) <-- inv(discr_r) * lambda(x) */
  method ScaleB(F: Field, indexOf: array<gf>, b: array<gf>, lambda: array<gf>, discr: gf, ghost d: gf)
    returns (ghost B': seq<gf>)
    requires IsField(F) && Primitive(F, 2) && LogTable(F, indexOf[..]) && b.Length == lambda.Length && d != 0
      && discr == Log(F, 2, d)
    requires b != lambda && b != indexOf
    modifies b
    ensures |B'| == b.Length && LogsOf(F, b[..], B', 0) && Scaled(F, B', Inv(F, d), lambda[..])
  {
    B' := seq(b.Length, i requires 0 <= i < b.Length reads lambda => Mul(F, Inv(F, d), lambda[i]));
    for i := 0 to b.Length
      invariant LogTable(F, indexOf[..])
      invariant forall k {:trigger b[k]} :: 0 <= k < i ==> b[k] == Log(F, 2, B'[k])
    {
      LogQuotient(F, lambda[i], d);
      if lambda[i] == 0 {
        b[i] := A0;
      } else {
        b[i] := Modnn(indexOf[lambda[i]] as int - discr + NN);
      }
    }
    ScaledBy(F, B', Inv(F, d), lambda[..]);
  }

  lemma ScaledBy(F: Field, B': seq<gf>, c: gf, lambda: seq<gf>)
    requires IsField(F) && |B'| == |lambda| && forall i {:trigger B'[i]} :: 0 <= i < |B'| ==>
      B'[i] == Mul(F, c, lambda[i])
    ensures Scaled(F, B', c, lambda)
  {
    MulZero(F, c);
  }

  /** The logarithm of a / d. */
  lemma LogQuotient(F: Field, a: gf, d: gf)
    requires IsField(F) && Primitive(F, 2) && d != 0
    ensures Log(F, 2, a) + NN - Log(F, 2, d) >= 0
    ensures Log(F, 2, Mul(F, Inv(F, d), a)) == if a == 0 then A0 else (Log(F, 2, a) - Log(F, 2, d) + NN) % NN
    ensures a != 0 ==> Power(F, 2, Log(F, 2, a) + NN - Log(F, 2, d)) == Mul(F, Inv(F, d), a)
  {
    if a == 0 {
      MulZero(F, Inv(F, d));
    } else {
      var i, k := Log(F, 2, a), Log(F, 2, d);
      PowerAdds(F, 2, NN - k, k);
      assert MulComm(F, Power(F, 2, NN - k), d);
      InverseIs(F, d, Power(F, 2, NN - k));
      PowerAdds(F, 2, NN - k, i);
      LogIs(F, 2, NN - k + i);
    }
  }

  method Copy(to: array<gf>, src: array<gf>)
    requires to.Length == src.Length && to != src
    modifies to
    ensures to[..] == src[..]
  {
    for i := 0 to to.Length
      invariant forall k :: 0 <= k < i ==> to[k] == src[k]
    {
      to[i] := src[i];
    }
  }

  /** `lambda` and `b` (in index form) are a register and a correction after step r. */
  ghost predicate State(F: Field, lambda: seq<gf>, b: seq<gf>, B: seq<gf>, S: seq<gf>, r: int, el: int)
    requires IsField(F) && Primitive(F, 2)
  { LogsOf(F, b, B, 0) && AfterStep(F, lambda, B, S, r, el) }

  /** The sum that the discrepancy is, taken over all coefficients. */
  lemma DiscrepancyIs(F: Field, lambda: seq<gf>, B: seq<gf>, S: seq<gf>, r: int, el: int)
    requires IsField(F) && AfterStep(F, lambda, B, S, r, el) && r + 1 < |S|
    ensures Conv(F, lambda, S, r + 1, r + 1) == Value(F, lambda, S, r + 1) && B[|B| - 1] == 0
  {
    ConvShort(F, lambda, S, r + 1, r + 1, |lambda|);
    assert At(B, |B| - 1) == 0;
  }

  /** Step r + 1. */
  method Step(F: Field, alphaTo: array<gf>, indexOf: array<gf>, lambda: array<gf>, b: array<gf>, t: array<gf>,
              s: array<gf>, r: nat, el: int, ghost S: seq<gf>, ghost B: seq<gf>)
    returns (el': int, ghost B': seq<gf>)
    requires Ready(F, alphaTo[..], indexOf[..]) && LogsOf(F, s[..], S, 1)
      && lambda.Length == b.Length == t.Length == s.Length
    requires lambda != b && lambda != t && b != t && {lambda, b, t} !! {s, alphaTo, indexOf}
    requires State(F, lambda[..], b[..], B, S, r, el) && r + 1 < |S|
    modifies lambda, b, t
    ensures State(F, lambda[..], b[..], B', S, r + 1, el')
  {
    el' := el;
    DiscrepancyIs(F, lambda[..], B, S, r, el);
    ghost var l := lambda[..];
    var d := Discrepancy(F, alphaTo, indexOf, lambda, s, r + 1, S);
    assert indexOf[..][d] == Log(F, 2, d);
    var discr := indexOf[d];
    if discr == A0 {
      B' := ShiftB(F, b, B);
      StepSame(F, l, B, B', S, r, el);
    } else {
      MakeT(F, alphaTo, indexOf, t, lambda, b, discr, d, B);
      if 2 * el <= r {
        el' := r + 1 - el;
        B' := ScaleB(F, indexOf, b, lambda, discr, d);
        StepLonger(F, l, t[..], B, B', S, r, el);
      } else {
        B' := ShiftB(F, b, B);
        StepCorrected(F, l, t[..], B, B', S, r, el);
      }
      Copy(lambda, t);
    }
  }

  /** b is lambda in logarithms. */
  method LogsOfAll(ghost F: Field, indexOf: array<gf>, lambda: array<gf>) returns (b: array<gf>)
    requires IsField(F) && Primitive(F, 2) && LogTable(F, indexOf[..])
    ensures fresh(b) && b.Length == lambda.Length
    ensures forall k {:trigger b[k]} :: 0 <= k < b.Length ==> b[k] == Log(F, 2, lambda[k])
  {
    b := new gf[lambda.Length](_ => 0);
    for i := 0 to lambda.Length
      invariant LogTable(F, indexOf[..])
      invariant forall k {:trigger b[k]} :: 0 <= k < i ==> b[k] == Log(F, 2, lambda[k])
    {
      b[i] := indexOf[lambda[i]];
    }
  }

  /** The locator: a shortest register for the syndromes. */
  method FindLocator(F: Field, alphaTo: array<gf>, indexOf: array<gf>, s: array<gf>, lambda: array<gf>,
                     ghost S: seq<gf>)
    returns (ghost el: int, ghost B: seq<gf>)
    requires Ready(F, alphaTo[..], indexOf[..]) && LogsOf(F, s[..], S, 1) && lambda.Length == s.Length >= 1 && S[0] == 1
    requires lambda != s && lambda != alphaTo && lambda != indexOf
    modifies lambda
    ensures AfterStep(F, lambda[..], B, S, lambda.Length - 1, el)
  {
    var n := lambda.Length;
    StartLambda(lambda);
    B := lambda[..];
    var b := LogsOfAll(F, indexOf, lambda);
    var t := new gf[n](_ => 0);
    FirstRegister(F, B, S);
    var r, len := 0, 0;
    while r + 1 < n
      invariant 0 <= r < n && Ready(F, alphaTo[..], indexOf[..]) && LogsOf(F, s[..], S, 1)
        && State(F, lambda[..], b[..], B, S, r, len)
    {
      len, B := Step(F, alphaTo, indexOf, lambda, b, t, s, r, len, S, B);
      r := r + 1;
    }
    el := len;
  }

  method StartLambda(lambda: array<gf>)
    requires lambda.Length >= 1
    modifies lambda
    ensures lambda[0] == 1 && NoTermAbove(lambda[..], 0)
  {
    var i := lambda.Length - 1;
    while i >= 1
      invariant 0 <= i < lambda.Length && forall k :: i < k < lambda.Length ==> lambda[k] == 0
    {
      lambda[i] := 0;
      i := i - 1;
    }
    lambda[0] := 1;
  }
}
