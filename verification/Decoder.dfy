/** eras_dec_rs without erasures: errors are found and valued. */
module Decoder {
  import opened Fields
  import opened Sums
  import opened Massey
  import opened PowerSums
  import opened Locators
  import opened Products
  import opened Values
  import opened Forney
  import opened Logs
  import opened BerlekampMassey
  import opened Chien
  import opened Syndromes
  import opened ErrorPatterns
  import opened ErrorValues
  import opened Overload

  // ----- Forney's formula in the tables -----

  /** omega(z) * z^(b0-1) / lambda'(z) */
  ghost function ForneyAt(F: Field, c: Code, W: seq<gf>, p: seq<gf>, z: gf, r: nat): gf
    requires c.b0 > 0
  { Mul(F, Mul(F, Eval(F, W, z, r), Power(F, z, c.b0 - 1)), Inv(F, Odd(F, p, z, r + 1))) }

  /** The same at z = alpha^x. */
  ghost function ForneyValue(F: Field, c: Code, W: seq<gf>, p: seq<gf>, x: nat, r: nat): gf
    requires c.b0 > 0
  { ForneyAt(F, c, W, p, Power(F, 2, x), r) }

  lemma QuotientOfLogs(F: Field, a: gf, b: gf, d: gf)
    requires IsField(F) && Primitive(F, 2) && a != 0 && b != 0 && d != 0
    ensures Log(F, 2, a) + Log(F, 2, b) + NN - Log(F, 2, d) >= 0
    ensures Power(F, 2, Log(F, 2, a) + Log(F, 2, b) + NN - Log(F, 2, d)) == Mul(F, Mul(F, a, b), Inv(F, d))
  {
    LogSum(F, a, b);
    LogQuotient(F, b, d);
    var k := Log(F, 2, a);
    var n := Log(F, 2, b) + NN - Log(F, 2, d);
    PowerAdds(F, 2, k, n);
    assert MulComm(F, Inv(F, d), b) && MulAssoc(F, a, b, Inv(F, d));
  }

  lemma RootPower(F: Field, x: nat, n: nat)
    requires IsField(F) && Primitive(F, 2)
    ensures x * n >= 0 && Power(F, 2, x * n + NN) == Power(F, Power(F, 2, x), n) != 0
  {
    PowerPower(F, 2, x, n);
    Period(F, 2, x * n + NN);
    Period(F, 2, x * n);
    assert (x * n + NN) % NN == x * n % NN;
    PowersNonzero(F, 2, x * n);
  }

  method ValueAt(F: Field, c: Code, alphaTo: array<gf>, indexOf: array<gf>, omega: array<gf>, degOmega: nat,
                 lambda: array<gf>, deg: nat, x: nat, ghost W: seq<gf>, ghost p: seq<gf>, ghost r: nat)
    returns (ok: bool, v: gf)
    requires Ready(F, alphaTo[..], indexOf[..]) && IsCode(c) && LogsOf(F, omega[..], W, 0)
      && LogsOf(F, lambda[..], p, 0)
    requires omega.Length == lambda.Length == r + 1 >= 2 && degOmega < r && NoTermAbove(W, degOmega)
    requires deg < lambda.Length && NoTermAbove(p, deg)
    ensures ok <==> Odd(F, p, Power(F, 2, x), r + 1) != 0
    ensures ok ==> v == ForneyValue(F, c, W, p, x, r)
  {
    var num1 := EvalAt(F, alphaTo, omega, degOmega, x, W, r);
    RootPower(F, x, c.b0 - 1);
    var num2 := Antilog(alphaTo, x * (c.b0 - 1) + NN, F);
    var den := OddAt(F, alphaTo, lambda, deg, x, p, r);
    if den == 0 {
      return false, 0;
    }
    v := Divide(F, alphaTo, indexOf, num1, num2, den);
    ok := true;
  }

  /** num1 * num2 / den */
  method Divide(F: Field, alphaTo: array<gf>, indexOf: array<gf>, num1: gf, num2: gf, den: gf) returns (v: gf)
    requires Ready(F, alphaTo[..], indexOf[..]) && num2 != 0 && den != 0
    ensures v == Mul(F, Mul(F, num1, num2), Inv(F, den))
  {
    if num1 != 0 {
      QuotientOfLogs(F, num1, num2, den);
      assert indexOf[..][num1] == Log(F, 2, num1) && indexOf[..][num2] == Log(F, 2, num2)
        && indexOf[..][den] == Log(F, 2, den);
      v := Antilog(alphaTo, indexOf[num1] as int + indexOf[num2] + NN - indexOf[den], F);
    } else {
      MulZero(F, num2);
      MulZero(F, Inv(F, den));
      v := 0;
    }
  }

  method FindValues(F: Field, c: Code, alphaTo: array<gf>, indexOf: array<gf>, omega: array<gf>, degOmega: nat,
                    lambda: array<gf>, deg: nat, root: array<int>, count: nat, erasVal: array<gf>, ghost W: seq<gf>,
                    ghost p: seq<gf>, ghost r: nat, ghost roots: seq<int>)
    returns (ok: bool, ghost bad: nat)
    requires Ready(F, alphaTo[..], indexOf[..]) && IsCode(c) && LogsOf(F, omega[..], W, 0)
      && LogsOf(F, lambda[..], p, 0)
    requires omega.Length == lambda.Length == r + 1 >= 2 && degOmega < r && NoTermAbove(W, degOmega)
    requires deg < lambda.Length && NoTermAbove(p, deg) && count <= root.Length == erasVal.Length
    requires roots == root[..count] && forall j {:trigger roots[j]} :: 0 <= j < count ==> roots[j] >= 0
    requires erasVal != alphaTo && erasVal != indexOf && erasVal != omega && erasVal != lambda
    modifies erasVal
    ensures ok ==> Valued(F, c, W, p, roots, erasVal[..count], r)
    ensures !ok ==> bad < count && Odd(F, p, Power(F, 2, roots[bad]), r + 1) == 0
  {
    bad := 0;
    var j := count;
    while j > 0
      invariant 0 <= j <= count && Ready(F, alphaTo[..], indexOf[..]) && LogsOf(F, omega[..], W, 0)
        && LogsOf(F, lambda[..], p, 0)
      invariant Valued(F, c, W, p, roots[j..], erasVal[j..count], r)
    {
      j := j - 1;
      var v;
      assert root[j] == roots[j];
      ok, v := ValueAt(F, c, alphaTo, indexOf, omega, degOmega, lambda, deg, root[j], W, p, r);
      if !ok {
        bad := j;
        return;
      }
      ghost var vals := erasVal[j + 1..count];
      erasVal[j] := v;
      assert erasVal[j..count] == [v] + vals;
      ValuedBefore(F, c, W, p, roots, vals, j, v, r);
    }
    assert roots[0..] == roots && erasVal[0..count] == erasVal[..count];
    ok := true;
  }

  lemma ValuedBefore(F: Field, c: Code, W: seq<gf>, p: seq<gf>, roots: seq<int>, vals: seq<gf>, j: nat, v: gf, r: nat)
    requires c.b0 > 0 && j < |roots| && Valued(F, c, W, p, roots[j + 1..], vals, r)
    requires roots[j] >= 0 && v == ForneyValue(F, c, W, p, roots[j], r)
    ensures Valued(F, c, W, p, roots[j..], [v] + vals, r)
  {
    var now := [v] + vals;
    forall k {:trigger now[k]} | 0 <= k < |now| && roots[j..][k] >= 0
      ensures now[k] == ForneyValue(F, c, W, p, roots[j..][k], r)
    {
      if k > 0 { assert roots[j..][k] == roots[j + 1..][k - 1] && now[k] == vals[k - 1]; }
    }
  }

  // ----- what the decoder promises -----

  /** The register contents are those that the errors leave. */
  ghost predicate Explains(F: Field, c: Code, bb: seq<gf>, errs: seq<Error>)
    requires c.b0 > 0
  {
    IsPattern(errs) && forall i: nat {:trigger SyndromeAt(F, c, bb, i)} :: 1 <= i <= |bb| ==>
      SyndromeAt(F, c, bb, i) == ErrorAt(F, errs, Beta(F, c, i))
  }

  /** Exactly these errors, in some order. */
  ghost predicate Lists(errs: seq<Error>, pos: seq<int>, val: seq<gf>) {
    && |pos| == |val| == |errs|
    && (forall i {:trigger Listed(errs, pos, val, i)} :: 0 <= i < |errs| ==> Listed(errs, pos, val, i))
    && (forall k {:trigger Real(errs, pos, val, k)} :: 0 <= k < |pos| ==> Real(errs, pos, val, k))
  }
  ghost predicate Listed(errs: seq<Error>, pos: seq<int>, val: seq<gf>, i: int) {
    exists k :: Holds(errs, pos, val, k, i)
  }
  ghost predicate Real(errs: seq<Error>, pos: seq<int>, val: seq<gf>, k: int) {
    exists i :: Holds(errs, pos, val, k, i)
  }

  lemma ExplainedSyndromes(F: Field, c: Code, bb: seq<gf>, errs: seq<Error>)
    requires IsCode(c) && Explains(F, c, bb, errs)
    ensures SyndromesOf(F, errs, c.b0, SyndromeSeq(F, c, bb), |bb|)
  {
    var s := SyndromeSeq(F, c, bb);
    forall i: nat {:trigger At(s, i)} | 1 <= i <= |bb| ensures At(s, i) == ErrorAt(F, errs, Power(F, 2, c.b0 + i - 1)) {
      assert At(s, i) == SyndromeAt(F, c, bb, i);
    }
  }

  // ----- no errors -----

  lemma NothingTimes(F: Field, v: gf, w: gf)
    requires IsRing(F) && v == 0
    ensures Mul(F, v, w) == 0
  {
    MulZero(F, w);
  }

  lemma ZeroSyndrome(F: Field, c: Code, bb: seq<gf>, i: nat)
    requires IsField(F) && IsCode(c) && forall j {:trigger bb[j]} :: 0 <= j < |bb| ==> bb[j] == 0
    ensures SyndromeAt(F, c, bb, i) == 0
  {
    forall j {:trigger At(bb, j)} ensures At(bb, j) == 0 {}
    EvalShort(F, bb, Beta(F, c, i), 0, |bb|);
    NothingTimes(F, Eval(F, bb, Beta(F, c, i), |bb|), Power(F, 2, FeedbackShift(c, i)));
  }

  /** An all-zero register means that there are no errors. */
  lemma NoErrors(F: Field, c: Code, bb: seq<gf>, errs: seq<Error>)
    requires IsField(F) && Primitive(F, 2) && IsCode(c) && Explains(F, c, bb, errs) && |errs| <= |bb|
    requires forall j {:trigger bb[j]} :: 0 <= j < |bb| ==> bb[j] == 0
    ensures |errs| == 0
  {
    var t := TermsOf(F, errs, c.b0);
    TermsDistinct(F, errs, c.b0);
    forall j | 1 <= j < 1 + |t| ensures PowerSum(F, t, j) == 0 {
      ZeroSyndrome(F, c, bb, j);
      assert SyndromeAt(F, c, bb, j) == ErrorAt(F, errs, Beta(F, c, j));
      ErrorIsSum(F, errs, c.b0, j);
    }
    assert |errs| > 0 ==> t[0].y != 0;
    Independent(F, t, 1);
  }

  // ----- errors within the capacity of the code -----

  /** Different places that are all on a list: it is at least as long. */
  lemma {:induction false} NotMore(errs: seq<Error>, n: nat, roots: seq<int>)
    requires IsPattern(errs) && n <= |errs| && forall i {:trigger errs[i]} :: 0 <= i < n ==> NN - errs[i].pos in roots
    ensures n <= |roots|
    decreases n
  {
    if n > 0 {
      var k :| 0 <= k < |roots| && roots[k] == NN - errs[n - 1].pos;
      var rest := roots[..k] + roots[k + 1..];
      forall i {:trigger errs[i]} | 0 <= i < n - 1 ensures NN - errs[i].pos in rest {
        assert Apart(errs, i, n - 1);
        var j :| 0 <= j < |roots| && roots[j] == NN - errs[i].pos;
        assert j < k ==> rest[j] == roots[j];
        assert j > k ==> rest[j - 1] == roots[j];
      }
      NotMore(errs, n - 1, rest);
    }
  }

  /** What the search has come to: the register, its degree and its roots. */
  ghost predicate Located(F: Field, c: Code, bb: seq<gf>, p: seq<gf>, len: nat, deg: nat, roots: seq<int>,
                          locs: seq<int>)
    requires c.b0 > 0
  {
    && |p| == |bb| + 1 && Generates(F, p, len, SyndromeSeq(F, c, bb), |bb|)
      && Shortest(F, len, SyndromeSeq(F, c, bb), |bb|)
    && NoTermAbove(p, deg) && (deg > 0 ==> At(p, deg) != 0) && Searched(F, p, roots, locs, NN + 1) && |roots| <= deg
  }

  lemma FoundPlace(F: Field, c: Code, errs: seq<Error>, p: seq<gf>, r: nat, x: int)
    requires IsField(F) && Primitive(F, 2) && c.b0 > 0 && IsPattern(errs) && |errs| <= r && 1 <= x <= NN
    requires p == Locator(F, TermsOf(F, errs, c.b0), r + 1) && RootAt(F, p, x)
    ensures exists i :: 0 <= i < |errs| && errs[i].pos == NN - x
  {
    RootsArePositions(F, errs, c.b0, r, x);
  }

  lemma PlaceFound(F: Field, c: Code, errs: seq<Error>, p: seq<gf>, r: nat, roots: seq<int>, i: int, x: nat)
    requires IsField(F) && Primitive(F, 2) && c.b0 > 0 && IsPattern(errs) && |errs| <= r && 0 <= i < |errs|
      && x == NN - errs[i].pos
    requires p == Locator(F, TermsOf(F, errs, c.b0), r + 1) && Found(F, p, roots, NN + 1)
    ensures x in roots
  {
    RootsArePositions(F, errs, c.b0, r, x);
    assert errs[i].pos == NN - x;
    assert RootAt(F, p, x);
  }

  /** The locator found has the degree of the pattern, and as many roots. */
  lemma PatternFound(F: Field, c: Code, bb: seq<gf>, errs: seq<Error>, p: seq<gf>, len: nat, deg: nat, roots: seq<int>,
                     locs: seq<int>)
    requires IsField(F) && Primitive(F, 2) && IsCode(c) && Explains(F, c, bb, errs) && 2 * |errs| <= |bb|
    requires Located(F, c, bb, p, len, deg, roots, locs)
    ensures p == Locator(F, TermsOf(F, errs, c.b0), |bb| + 1) && deg == |errs| == |roots|
    ensures forall i {:trigger errs[i]} :: 0 <= i < |errs| ==> NN - errs[i].pos in roots
    ensures forall k {:trigger roots[k]} :: 0 <= k < |roots| ==>
      exists i :: 0 <= i < |errs| && errs[i].pos == NN - roots[k]
  {
    PatternDegree(F, c, bb, errs, p, len, deg, roots, locs);
    forall i {:trigger errs[i]} | 0 <= i < |errs| ensures NN - errs[i].pos in roots {
      PlaceFound(F, c, errs, p, |bb|, roots, i, NN - errs[i].pos);
    }
    NotMore(errs, |errs|, roots);
    forall k {:trigger roots[k]} | 0 <= k < |roots|
      ensures exists i :: 0 <= i < |errs| && errs[i].pos == NN - roots[k]
    {
      FoundPlace(F, c, errs, p, |bb|, roots[k]);
    }
  }

  lemma PatternDegree(F: Field, c: Code, bb: seq<gf>, errs: seq<Error>, p: seq<gf>, len: nat, deg: nat, roots: seq<int>,
                      locs: seq<int>)
    requires IsField(F) && Primitive(F, 2) && IsCode(c) && Explains(F, c, bb, errs) && 2 * |errs| <= |bb|
    requires Located(F, c, bb, p, len, deg, roots, locs)
    ensures p == Locator(F, TermsOf(F, errs, c.b0), |bb| + 1) && deg == |errs|
  {
    ExplainedSyndromes(F, c, bb, errs);
    PatternLocator(F, errs, c.b0, p, len, SyndromeSeq(F, c, bb), |bb|);
    assert At(p, |errs|) != 0 && NoTermAbove(p, |errs|);
  }

  /** The denominator at alpha^x is not zero, and the quotient is v. */
  ghost predicate GivesValue(F: Field, c: Code, W: seq<gf>, p: seq<gf>, x: nat, r: nat, v: gf)
    requires c.b0 > 0
  { Odd(F, p, Power(F, 2, x), r + 1) != 0 && ForneyValue(F, c, W, p, x, r) == v }

  /** Forney's formula at the root of an error gives the y of its term, over x^(b0-1): the value of the error. */
  lemma FormulaAt(F: Field, c: Code, t: seq<Term>, s: seq<gf>, r: nat, W: seq<gf>, p: seq<gf>, x: nat, i: int, v: gf)
    requires IsField(F) && IsCode(c) && SumsTo(F, t, s, r) && Distinct(t) && |t| <= r && Hits(F, t, Power(F, 2, x), i)
    requires p == Locator(F, t, r + 1) && IsOmega(F, W, p, s, r) && t[i].y == Mul(F, v, Power(F, t[i].x, c.b0 - 1))
    ensures GivesValue(F, c, W, p, x, r, v)
  {
    ValueAtRoot(F, c, t, s, r, W, p, Power(F, 2, x), i, v);
  }

  lemma ValueAtRoot(F: Field, c: Code, t: seq<Term>, s: seq<gf>, r: nat, W: seq<gf>, p: seq<gf>, z: gf, i: int, v: gf)
    requires IsField(F) && IsCode(c) && SumsTo(F, t, s, r) && Distinct(t) && |t| <= r && Hits(F, t, z, i)
    requires p == Locator(F, t, r + 1) && IsOmega(F, W, p, s, r) && t[i].y == Mul(F, v, Power(F, t[i].x, c.b0 - 1))
    ensures Odd(F, p, z, r + 1) != 0 && ForneyAt(F, c, W, p, z, r) == v
  {
    ErrorValue(F, W, p, t, s, r, z, i);
    QuotientIsValue(F, c, t[i], W, p, z, r, v);
  }

  lemma QuotientIsValue(F: Field, c: Code, t: Term, W: seq<gf>, p: seq<gf>, z: gf, r: nat, v: gf)
    requires IsField(F) && IsCode(c) && Mul(F, t.x, z) == 1 && t.y == Mul(F, v, Power(F, t.x, c.b0 - 1))
    requires Odd(F, p, z, r + 1) != 0 && Eval(F, W, z, r) == Mul(F, t.y, Odd(F, p, z, r + 1))
    ensures ForneyAt(F, c, W, p, z, r) == v
  {
    Unweighted(F, v, t.x, z, c.b0 - 1, Odd(F, p, z, r + 1));
  }

  lemma PatternTerms(F: Field, c: Code, bb: seq<gf>, errs: seq<Error>)
    requires IsField(F) && Primitive(F, 2) && IsCode(c) && Explains(F, c, bb, errs)
    ensures SumsTo(F, TermsOf(F, errs, c.b0), SyndromeSeq(F, c, bb), |bb|) && Distinct(TermsOf(F, errs, c.b0))
  {
    ExplainedSyndromes(F, c, bb, errs);
    SyndromesSum(F, errs, c.b0, SyndromeSeq(F, c, bb), |bb|);
    TermsDistinct(F, errs, c.b0);
  }

  /** What is known of the term of error i. */
  lemma TermOfError(F: Field, c: Code, bb: seq<gf>, errs: seq<Error>, i: nat, x: nat) returns (t: seq<Term>)
    requires IsField(F) && Primitive(F, 2) && IsCode(c) && Explains(F, c, bb, errs) && i < |errs|
      && x == NN - errs[i].pos
    ensures t == TermsOf(F, errs, c.b0) && |t| == |errs| && SumsTo(F, t, SyndromeSeq(F, c, bb), |bb|) && Distinct(t)
    ensures Hits(F, t, Power(F, 2, x), i) && t[i].y == Mul(F, errs[i].val, Power(F, t[i].x, c.b0 - 1))
  {
    t := TermsOf(F, errs, c.b0);
    PatternTerms(F, c, bb, errs);
    HitIsPosition(F, errs, c.b0, i, x);
  }

  /** (v * x^n * d) * z^n / d = v */
  lemma Unweighted(F: Field, v: gf, x: gf, z: gf, n: nat, d: gf)
    requires IsField(F) && Mul(F, x, z) == 1 && d != 0
    ensures Mul(F, Mul(F, Mul(F, Mul(F, v, Power(F, x, n)), d), Power(F, z, n)), Inv(F, d)) == v
  {
    var a, w, i := Power(F, x, n), Power(F, z, n), Inv(F, d);
    PowersCancel(F, x, z, n);
    var va := Mul(F, v, a);
    assert MulAssoc(F, va, d, w) && MulComm(F, d, w) && MulAssoc(F, va, w, d) && MulAssoc(F, v, a, w);
    OneMul(F, v);
    assert MulAssoc(F, v, d, i) && Inverse(F, d);
  }

  lemma {:induction false} PowersCancel(F: Field, x: gf, z: gf, n: nat)
    requires IsField(F) && Mul(F, x, z) == 1
    ensures Mul(F, Power(F, x, n), Power(F, z, n)) == 1
  {
    OneMul(F, 1);
    if n > 0 {
      PowersCancel(F, x, z, n - 1);
      ProductTerm(F, x, Power(F, x, n - 1), z, Power(F, z, n - 1));
    }
  }

  // ----- the decoder -----

  /** What a result means: exactly the errors, if there are no more than the code can correct. */
  ghost predicate Decoded(F: Field, c: Code, bb: seq<gf>, errs: seq<Error>, count: int, pos: seq<int>, val: seq<gf>)
    requires c.b0 > 0
  { Explains(F, c, bb, errs) && 2 * |errs| <= |bb| ==> count == |errs| && Lists(errs, pos, val) }

  /** Fewer roots than the degree: there are more errors than can be corrected. */
  lemma TooFewRoots(F: Field, c: Code, bb: seq<gf>, errs: seq<Error>, p: seq<gf>, len: nat, deg: nat, roots: seq<int>,
                    locs: seq<int>)
    requires IsField(F) && Primitive(F, 2) && IsCode(c) && Located(F, c, bb, p, len, deg, roots, locs) && |roots| != deg
    ensures !(Explains(F, c, bb, errs) && 2 * |errs| <= |bb|)
  {
    if Explains(F, c, bb, errs) && 2 * |errs| <= |bb| { PatternFound(F, c, bb, errs, p, len, deg, roots, locs); }
  }

  lemma PlaceOfRoot(F: Field, c: Code, bb: seq<gf>, errs: seq<Error>, p: seq<gf>, len: nat, deg: nat, roots: seq<int>,
                    locs: seq<int>, k: int)
    returns (i: nat)
    requires IsField(F) && Primitive(F, 2) && IsCode(c) && Located(F, c, bb, p, len, deg, roots, locs)
      && Explains(F, c, bb, errs) && 2 * |errs| <= |bb| && 0 <= k < |roots|
    ensures i < |errs| && errs[i].pos == NN - roots[k] && p == Locator(F, TermsOf(F, errs, c.b0), |bb| + 1)
    ensures 1 <= roots[k] <= NN
  {
    PatternFound(F, c, bb, errs, p, len, deg, roots, locs);
    i :| 0 <= i < |errs| && errs[i].pos == NN - roots[k];
  }

  /** Every root found is that of an error, and gives its value. */
  lemma ErrorOfRoot(F: Field, c: Code, bb: seq<gf>, errs: seq<Error>, p: seq<gf>, len: nat, deg: nat, roots: seq<int>,
                    locs: seq<int>, W: seq<gf>, k: int)
    returns (i: nat)
    requires IsField(F) && Primitive(F, 2) && IsCode(c) && Located(F, c, bb, p, len, deg, roots, locs)
      && Explains(F, c, bb, errs) && 2 * |errs| <= |bb|
    requires IsOmega(F, W, p, SyndromeSeq(F, c, bb), |bb|) && 0 <= k < |roots|
    ensures i < |errs| && roots[k] == NN - errs[i].pos >= 0 && GivesValue(F, c, W, p, roots[k], |bb|, errs[i].val)
  {
    i := PlaceOfRoot(F, c, bb, errs, p, len, deg, roots, locs, k);
    var t := TermOfError(F, c, bb, errs, i, roots[k]);
    FormulaAt(F, c, t, SyndromeSeq(F, c, bb), |bb|, W, p, roots[k], i, errs[i].val);
  }

  /** The denominator is not zero. */
  lemma NonzeroDenominator(F: Field, c: Code, bb: seq<gf>, errs: seq<Error>, p: seq<gf>, len: nat, deg: nat,
                           roots: seq<int>, locs: seq<int>, W: seq<gf>, k: int)
    requires IsField(F) && Primitive(F, 2) && IsCode(c) && Located(F, c, bb, p, len, deg, roots, locs)
    requires IsOmega(F, W, p, SyndromeSeq(F, c, bb), |bb|) && 0 <= k < |roots| && roots[k] >= 0
    requires Odd(F, p, Power(F, 2, roots[k]), |bb| + 1) == 0
    ensures !(Explains(F, c, bb, errs) && 2 * |errs| <= |bb|)
  {
    if Explains(F, c, bb, errs) && 2 * |errs| <= |bb| {
      var i := ErrorOfRoot(F, c, bb, errs, p, len, deg, roots, locs, W, k);
    }
  }

  ghost predicate Valued(F: Field, c: Code, W: seq<gf>, p: seq<gf>, roots: seq<int>, vals: seq<gf>, r: nat)
    requires c.b0 > 0
  {
    |vals| == |roots| && forall k {:trigger vals[k]} :: 0 <= k < |vals| && roots[k] >= 0 ==>
      vals[k] == ForneyValue(F, c, W, p, roots[k], r)
  }

  /** Error i is at place k of the lists. */
  ghost predicate Holds(errs: seq<Error>, pos: seq<int>, val: seq<gf>, k: int, i: int) {
    0 <= k < |pos| && k < |val| && 0 <= i < |errs| && pos[k] == errs[i].pos && val[k] == errs[i].val
  }

  lemma RootHolds(F: Field, c: Code, bb: seq<gf>, errs: seq<Error>, p: seq<gf>, len: nat, deg: nat, roots: seq<int>,
                  locs: seq<int>, W: seq<gf>, vals: seq<gf>, k: int)
    returns (i: nat)
    requires IsField(F) && Primitive(F, 2) && IsCode(c) && Located(F, c, bb, p, len, deg, roots, locs)
      && Explains(F, c, bb, errs) && 2 * |errs| <= |bb|
    requires IsOmega(F, W, p, SyndromeSeq(F, c, bb), |bb|) && Valued(F, c, W, p, roots, vals, |bb|) && 0 <= k < |roots|
    ensures Holds(errs, locs, vals, k, i)
  {
    i := ErrorOfRoot(F, c, bb, errs, p, len, deg, roots, locs, W, k);
    assert vals[k] == ForneyValue(F, c, W, p, roots[k], |bb|);
    assert locs[k] == NN - roots[k];
  }

  lemma ErrorHolds(F: Field, c: Code, bb: seq<gf>, errs: seq<Error>, p: seq<gf>, len: nat, deg: nat, roots: seq<int>,
                   locs: seq<int>, W: seq<gf>, vals: seq<gf>, i: int)
    returns (k: nat)
    requires IsField(F) && Primitive(F, 2) && IsCode(c) && Located(F, c, bb, p, len, deg, roots, locs)
      && Explains(F, c, bb, errs) && 2 * |errs| <= |bb|
    requires IsOmega(F, W, p, SyndromeSeq(F, c, bb), |bb|) && Valued(F, c, W, p, roots, vals, |bb|) && 0 <= i < |errs|
    ensures Holds(errs, locs, vals, k, i)
  {
    k := RootOfError(F, c, bb, errs, p, len, deg, roots, locs, i);
    var j := RootHolds(F, c, bb, errs, p, len, deg, roots, locs, W, vals, k);
    SamePlace(errs, i, j);
  }

  lemma RootOfError(F: Field, c: Code, bb: seq<gf>, errs: seq<Error>, p: seq<gf>, len: nat, deg: nat, roots: seq<int>,
                    locs: seq<int>, i: int)
    returns (k: nat)
    requires IsField(F) && Primitive(F, 2) && IsCode(c) && Located(F, c, bb, p, len, deg, roots, locs)
      && Explains(F, c, bb, errs) && 2 * |errs| <= |bb|
    requires 0 <= i < |errs|
    ensures k < |roots| == |locs| == |errs| && locs[k] == errs[i].pos
  {
    PatternFound(F, c, bb, errs, p, len, deg, roots, locs);
    k :| 0 <= k < |roots| && roots[k] == NN - errs[i].pos;
    assert locs[k] == NN - roots[k];
  }

  lemma AllDecoded(F: Field, c: Code, bb: seq<gf>, errs: seq<Error>, p: seq<gf>, len: nat, deg: nat, roots: seq<int>,
                   locs: seq<int>, W: seq<gf>, vals: seq<gf>)
    requires IsField(F) && Primitive(F, 2) && IsCode(c) && Located(F, c, bb, p, len, deg, roots, locs)
    requires IsOmega(F, W, p, SyndromeSeq(F, c, bb), |bb|) && Valued(F, c, W, p, roots, vals, |bb|)
    ensures Decoded(F, c, bb, errs, |roots|, locs, vals)
  {
    if Explains(F, c, bb, errs) && 2 * |errs| <= |bb| {
      assert |roots| == |errs| by { PatternFound(F, c, bb, errs, p, len, deg, roots, locs); }
      forall k {:trigger Real(errs, locs, vals, k)} | 0 <= k < |locs| ensures Real(errs, locs, vals, k) {
        var i := RootHolds(F, c, bb, errs, p, len, deg, roots, locs, W, vals, k);
      }
      forall i {:trigger Listed(errs, locs, vals, i)} | 0 <= i < |errs| ensures Listed(errs, locs, vals, i) {
        var k := ErrorHolds(F, c, bb, errs, p, len, deg, roots, locs, W, vals, i);
      }
    }
  }

  lemma SamePlace(errs: seq<Error>, i: int, j: int)
    requires IsPattern(errs) && 0 <= i < |errs| && 0 <= j < |errs| && errs[i].pos == errs[j].pos
    ensures i == j
  {
    assert Apart(errs, i, j) && Apart(errs, j, i);
  }

  lemma NothingDecoded(F: Field, c: Code, bb: seq<gf>, errs: seq<Error>)
    requires IsField(F) && Primitive(F, 2) && IsCode(c) && forall j {:trigger bb[j]} :: 0 <= j < |bb| ==> bb[j] == 0
    ensures Decoded(F, c, bb, errs, 0, [], [])
  {
    if Explains(F, c, bb, errs) && 2 * |errs| <= |bb| { NoErrors(F, c, bb, errs); }
  }

  // ----- more errors than that -----

  function ErrorsOf(pos: seq<int>, val: seq<gf>): (errs: seq<Error>)
    requires |pos| == |val| && forall k {:trigger pos[k]} :: 0 <= k < |pos| ==> 0 <= pos[k]
    ensures |errs| == |pos|
  { seq(|pos|, k requires 0 <= k < |pos| => Error(pos[k], val[k])) }

  /** The syndromes are those of the errors listed. */
  ghost predicate ListExplains(F: Field, c: Code, bb: seq<gf>, pos: seq<int>, val: seq<gf>)
    requires c.b0 > 0 && |pos| == |val| && forall k {:trigger pos[k]} :: 0 <= k < |pos| ==> 0 <= pos[k]
  {
    forall i: nat {:trigger SyndromeAt(F, c, bb, i)} :: 1 <= i <= |bb| ==>
      SyndromeAt(F, c, bb, i) == ErrorAt(F, ErrorsOf(pos, val), Beta(F, c, i))
  }

  lemma SameDistinct(e: seq<Term>, e': seq<Term>)
    requires Distinct(e) && |e| == |e'| && forall k {:trigger e[k]} {:trigger e'[k]} :: 0 <= k < |e| ==>
      e'[k].x == e[k].x
    ensures Distinct(e')
  {
    forall k {:trigger e'[k]} | 0 <= k < |e'| ensures e'[k].x != 0 { assert e[k].x != 0; }
    forall i, k ensures Differ(e', i, k) { assert Differ(e, i, k); }
  }

  /** As many roots as the degree: lambda is the locator of the errors listed. */
  lemma ListedTerms(F: Field, c: Code, p: seq<gf>, deg: nat, roots: seq<int>, locs: seq<int>, vals: seq<gf>,
                    t: seq<Term>)
    requires IsField(F) && Primitive(F, 2) && IsCode(c) && At(p, 0) == 1 && NoTermAbove(p, deg)
      && Searched(F, p, roots, locs, NN + 1)
    requires |roots| == deg == |vals| && deg < |p| && (forall k {:trigger locs[k]} :: 0 <= k < |locs| ==> 0 <= locs[k])
    requires t == TermsOf(F, ErrorsOf(locs, vals), c.b0)
    ensures Distinct(t) && Locates(F, p, t) && p == Locator(F, t, |p|)
    ensures forall k {:trigger t[k]} {:trigger roots[k]} :: 0 <= k < deg ==>
      1 <= roots[k] <= NN && t[k].x == Power(F, 2, NN - roots[k])
  {
    InversesDistinct(F, roots);
    SameDistinct(Inverses(F, roots), t);
    forall k {:trigger t[k]} | 0 <= k < deg ensures Quot(F, p, t[k].x, deg) == 0 { RootIsQuot(F, p, roots[k], deg); }
    assert Locates(F, p, t);
    forall j | 0 <= j < |p| ensures p[j] == Locator(F, t, |p|)[j] {
      OnlyLocator(F, p, t, j);
      assert At(p, j) == LocatorAt(F, t, j);
    }
  }

  /** ((w * z^n) / d) * x^n * d = w */
  lemma Reweighted(F: Field, w: gf, x: gf, z: gf, n: nat, d: gf)
    requires IsField(F) && Mul(F, x, z) == 1 && d != 0
    ensures Mul(F, Mul(F, Mul(F, Mul(F, w, Power(F, z, n)), Inv(F, d)), Power(F, x, n)), d) == w
  {
    var a, b, i := Power(F, x, n), Power(F, z, n), Inv(F, d);
    PowersCancel(F, x, z, n);
    var wb := Mul(F, w, b);
    assert MulAssoc(F, wb, i, a) && MulComm(F, i, a) && MulAssoc(F, wb, a, i) && MulAssoc(F, w, b, a)
      && MulComm(F, b, a);
    OneMul(F, w);
    assert MulAssoc(F, w, i, d) && MulComm(F, i, d) && Inverse(F, d);
  }

  /** The denominator is not zero, and the value is what the evaluator says. */
  lemma ListedFits(F: Field, c: Code, p: seq<gf>, roots: seq<int>, t: seq<Term>, W: seq<gf>, r: nat, k: int, v: gf)
    requires IsField(F) && Primitive(F, 2) && IsCode(c) && Distinct(t) && p == Locator(F, t, r + 1) && |t| <= r
    requires 0 <= k < |t| && k < |roots| && 1 <= roots[k] <= NN && t[k].x == Power(F, 2, NN - roots[k])
    requires v == ForneyValue(F, c, W, p, roots[k], r) && t[k].y == Mul(F, v, Power(F, t[k].x, c.b0 - 1))
    ensures Odd(F, p, Power(F, 2, roots[k]), r + 1) != 0 && Fits(F, t, p, W, roots[k], r, k)
  {
    InverseOf(F, roots[k]);
    TermFits(F, c, p, roots[k], t, W, r, k, Power(F, 2, roots[k]), v);
  }

  lemma TermFits(F: Field, c: Code, p: seq<gf>, x: nat, t: seq<Term>, W: seq<gf>, r: nat, k: int, z: gf, v: gf)
    requires IsField(F) && IsCode(c) && Distinct(t) && p == Locator(F, t, r + 1) && |t| <= r && 0 <= k < |t|
    requires z == Power(F, 2, x) && Mul(F, t[k].x, z) == 1 && 1 <= x <= NN && t[k].x == Power(F, 2, NN - x)
    requires v == ForneyValue(F, c, W, p, x, r) && t[k].y == Mul(F, v, Power(F, t[k].x, c.b0 - 1))
    ensures Odd(F, p, z, r + 1) != 0 && Fits(F, t, p, W, x, r, k)
  {
    SimpleRootOf(F, p, t, z, k, r);
    Reweighted(F, Eval(F, W, z, r), t[k].x, z, c.b0 - 1, Odd(F, p, z, r + 1));
  }

  /** What is listed explains the syndromes, as a power sum. */
  lemma ListIsSum(F: Field, c: Code, bb: seq<gf>, pos: seq<int>, val: seq<gf>)
    requires IsField(F) && IsCode(c) && |pos| == |val| && forall k {:trigger pos[k]} :: 0 <= k < |pos| ==> 0 <= pos[k]
    ensures ListExplains(F, c, bb, pos, val) <==>
      SumsTo(F, TermsOf(F, ErrorsOf(pos, val), c.b0), SyndromeSeq(F, c, bb), |bb|)
  {
    var s, errs := SyndromeSeq(F, c, bb), ErrorsOf(pos, val);
    forall i: nat {:trigger SyndromeAt(F, c, bb, i)} | 1 <= i <= |bb|
      ensures At(s, i) == SyndromeAt(F, c, bb, i)
        && ErrorAt(F, errs, Beta(F, c, i)) == PowerSum(F, TermsOf(F, errs, c.b0), i)
    {
      ErrorIsSum(F, errs, c.b0, i);
    }
    if SumsTo(F, TermsOf(F, errs, c.b0), s, |bb|) {
      forall i: nat {:trigger SyndromeAt(F, c, bb, i)} | 1 <= i <= |bb|
        ensures SyndromeAt(F, c, bb, i) == ErrorAt(F, errs, Beta(F, c, i))
      {
        assert At(s, i) == SyndromeAt(F, c, bb, i);
      }
    }
    if ListExplains(F, c, bb, pos, val) {
      forall i {:trigger At(s, i)} | 1 <= i <= |bb| ensures At(s, i) == PowerSum(F, TermsOf(F, errs, c.b0), i) {
        assert SyndromeAt(F, c, bb, i) == ErrorAt(F, errs, Beta(F, c, i));
      }
    }
  }

  /** With as many roots as the degree of lambda, what is listed explains the syndromes if, and only if, the degree
      is the length of the register: the code does not compare them. */
  lemma ExplainedIff(F: Field, c: Code, bb: seq<gf>, p: seq<gf>, len: nat, deg: nat, roots: seq<int>, locs: seq<int>,
                     W: seq<gf>, vals: seq<gf>)
    requires IsField(F) && Primitive(F, 2) && IsCode(c) && Located(F, c, bb, p, len, deg, roots, locs)
      && |roots| == deg <= |bb|
    requires IsOmega(F, W, p, SyndromeSeq(F, c, bb), |bb|) && Valued(F, c, W, p, roots, vals, |bb|)
    requires forall k {:trigger locs[k]} :: 0 <= k < |locs| ==> 0 <= locs[k]
    ensures ListExplains(F, c, bb, locs, vals) <==> len == deg
  {
    var s, r, t := SyndromeSeq(F, c, bb), |bb|, TermsOf(F, ErrorsOf(locs, vals), c.b0);
    ListIsSum(F, c, bb, locs, vals);
    ListedTerms(F, c, p, deg, roots, locs, vals, t);
    assert deg <= len by { assert deg > len ==> At(p, deg) == 0; }
    if len == deg {
      forall k {:trigger t[k]} {:trigger roots[k]} | 0 <= k < |t| ensures Fits(F, t, p, W, roots[k], r, k) {
        assert vals[k] == ForneyValue(F, c, W, p, roots[k], r);
        ListedFits(F, c, p, roots, t, W, r, k, vals[k]);
      }
      TermsExplain(F, t, p, s, r, W, roots);
    }
    if SumsTo(F, t, s, r) {
      LocatorGenerates(F, t, r + 1, s, r);
    }
  }

  /** So a denominator is never zero. */
  lemma NoZeroDenominator(F: Field, c: Code, bb: seq<gf>, p: seq<gf>, len: nat, deg: nat, roots: seq<int>,
                          locs: seq<int>, k: int)
    requires IsField(F) && Primitive(F, 2) && IsCode(c) && Located(F, c, bb, p, len, deg, roots, locs)
      && |roots| == deg <= |bb|
    requires 0 <= k < |roots|
    ensures 1 <= roots[k] <= NN && Odd(F, p, Power(F, 2, roots[k]), |bb| + 1) != 0
  {
    ProductOfRoots(F, p, roots);
    HitsInverse(F, roots, k);
    SimpleRootOf(F, p, Inverses(F, roots), Power(F, 2, roots[k]), k, |bb|);
  }

  lemma HitsInverse(F: Field, roots: seq<int>, k: int)
    requires IsField(F) && Primitive(F, 2) && 0 <= k < |roots| && forall j {:trigger roots[j]} :: 0 <= j < |roots| ==>
      1 <= roots[j] <= NN
    ensures Hits(F, Inverses(F, roots), Power(F, 2, roots[k]), k)
  {
    InverseOf(F, roots[k]);
  }

  /** What the decoder's answer says about every pattern of errors. */
  ghost predicate Answer(F: Field, c: Code, bb: seq<gf>, count: int, pos: seq<int>, val: seq<gf>)
    requires c.b0 > 0
  {
    forall errs {:trigger Explains(F, c, bb, errs)} {:trigger Decoded(F, c, bb, errs, count, pos, val)} ::
      Decoded(F, c, bb, errs, count, pos, val)
  }

  lemma AnswerFew(F: Field, c: Code, bb: seq<gf>, p: seq<gf>, len: nat, deg: nat, roots: seq<int>, locs: seq<int>,
                  pos: seq<int>, val: seq<gf>)
    requires IsField(F) && Primitive(F, 2) && IsCode(c) && Located(F, c, bb, p, len, deg, roots, locs) && |roots| != deg
    ensures Answer(F, c, bb, -1, pos, val)
  {
    forall errs ensures Decoded(F, c, bb, errs, -1, pos, val) {
      TooFewRoots(F, c, bb, errs, p, len, deg, roots, locs);
    }
  }

  lemma AnswerZero(F: Field, c: Code, bb: seq<gf>, p: seq<gf>, len: nat, deg: nat, roots: seq<int>, locs: seq<int>,
                   W: seq<gf>, k: int, pos: seq<int>, val: seq<gf>)
    requires IsField(F) && Primitive(F, 2) && IsCode(c) && Located(F, c, bb, p, len, deg, roots, locs)
    requires IsOmega(F, W, p, SyndromeSeq(F, c, bb), |bb|) && 0 <= k < |roots| && roots[k] >= 0
    requires Odd(F, p, Power(F, 2, roots[k]), |bb| + 1) == 0
    ensures Answer(F, c, bb, -1, pos, val)
  {
    forall errs ensures Decoded(F, c, bb, errs, -1, pos, val) {
      NonzeroDenominator(F, c, bb, errs, p, len, deg, roots, locs, W, k);
    }
  }

  /** The places that the decoder returns: symbols of the code word, from the last one down. */
  ghost predicate Places(pos: seq<int>) {
    && (forall k {:trigger pos[k]} :: 0 <= k < |pos| ==> 0 <= pos[k] < NN)
    && (forall i, k {:trigger Falls(pos, i, k)} :: Falls(pos, i, k))
  }
  ghost predicate Falls(pos: seq<int>, i: int, k: int) { 0 <= i < k < |pos| ==> pos[k] < pos[i] }

  lemma AnswerAll(F: Field, c: Code, bb: seq<gf>, p: seq<gf>, len: nat, deg: nat, roots: seq<int>, locs: seq<int>,
                  W: seq<gf>, vals: seq<gf>)
    requires IsField(F) && Primitive(F, 2) && IsCode(c) && Located(F, c, bb, p, len, deg, roots, locs)
    requires IsOmega(F, W, p, SyndromeSeq(F, c, bb), |bb|) && Valued(F, c, W, p, roots, vals, |bb|)
    ensures Answer(F, c, bb, |roots|, locs, vals) && Places(locs)
  {
    forall errs ensures Decoded(F, c, bb, errs, |roots|, locs, vals) {
      AllDecoded(F, c, bb, errs, p, len, deg, roots, locs, W, vals);
    }
    forall k {:trigger locs[k]} | 0 <= k < |locs| ensures 0 <= locs[k] < NN { assert 1 <= roots[k]; }
    forall i, k ensures Falls(locs, i, k) { assert Less(roots, i, k); }
  }

  lemma AnswerNone(F: Field, c: Code, bb: seq<gf>)
    requires IsField(F) && Primitive(F, 2) && IsCode(c) && forall j {:trigger bb[j]} :: 0 <= j < |bb| ==> bb[j] == 0
    ensures Answer(F, c, bb, 0, [], [])
  {
    forall errs ensures Decoded(F, c, bb, errs, 0, [], []) { NothingDecoded(F, c, bb, errs); }
  }

  /** p is lambda, a shortest register for the syndromes, and el its length; count is its degree, or it has no such
      number of roots. */
  ghost predicate IsLambda(F: Field, c: Code, bb: seq<gf>, count: int, el: nat, p: seq<gf>)
    requires c.b0 > 0
  {
    && Shortest(F, el, SyndromeSeq(F, c, bb), |bb|) && Generates(F, p, el, SyndromeSeq(F, c, bb), |bb|)
    && (count == -1 ==> !NoTermAbove(p, 0)) && (count >= 0 ==> At(p, count) != 0)
  }

  lemma NothingToExplain(F: Field, c: Code, bb: seq<gf>) returns (p: seq<gf>)
    requires IsField(F) && Primitive(F, 2) && IsCode(c) && forall j {:trigger bb[j]} :: 0 <= j < |bb| ==> bb[j] == 0
    ensures IsLambda(F, c, bb, 0, 0, p) && ListExplains(F, c, bb, [], [])
  {
    var s, one: seq<gf> := SyndromeSeq(F, c, bb), [1];
    p := one;
    forall i: nat {:trigger SyndromeAt(F, c, bb, i)} | 1 <= i <= |bb|
      ensures SyndromeAt(F, c, bb, i) == ErrorAt(F, ErrorsOf([], []), Beta(F, c, i))
    {
      ZeroSyndrome(F, c, bb, i);
    }
    forall j {:trigger Value(F, one, s, j)} | 0 < j <= |bb| ensures Value(F, one, s, j) == 0 {
      ZeroSyndrome(F, c, bb, j);
      assert At(s, j) == SyndromeAt(F, c, bb, j);
      OneMul(F, 0);
      assert AddZero(F, 0) && Conv(F, one, s, j, 0) == 0;
    }
    assert Generates(F, one, 0, s, |bb|);
  }

  /** Places and values of the errors; or -1. The length of the register may be more than its degree:
      then the list is no explanation of the syndromes. */
  method ErasDecRs(F: Field, c: Code, alphaTo: array<gf>, indexOf: array<gf>, bb: array<gf>, erasVal: array<gf>,
                   erasPos: array<int>)
    returns (count: int, ghost el: nat, ghost p: seq<gf>)
    requires Ready(F, alphaTo[..], indexOf[..]) && IsCode(c) && 1 <= bb.Length == erasVal.Length == erasPos.Length
    requires erasVal != alphaTo && erasVal != indexOf && erasVal != bb
    modifies erasVal, erasPos
    ensures -1 <= count <= bb.Length && (count >= 0 ==> Places(erasPos[..count]))
    ensures if count == -1 then Answer(F, c, bb[..], -1, [], [])
      else Answer(F, c, bb[..], count, erasPos[..count], erasVal[..count])
    ensures IsLambda(F, c, bb[..], count, el, p)
    ensures count >= 0 ==> (ListExplains(F, c, bb[..], erasPos[..count], erasVal[..count]) <==> el == count)
  {
    ghost var v := bb[..];
    var synError := false;
    for i := 0 to bb.Length
      invariant !synError ==> forall j {:trigger v[j]} :: 0 <= j < i ==> v[j] == 0
    {
      synError := synError || bb[i] != 0;
    }
    if !synError {
      AnswerNone(F, c, v);
      p := NothingToExplain(F, c, v);
      return 0, 0, p;
    }
    var s, lambda, root, loc, deg;
    ghost var len;
    s, lambda, root, loc, deg, count, p, len := Locate(F, c, alphaTo, indexOf, bb);
    if deg != count {
      AnswerFew(F, c, v, p, len, deg, root[..count], loc[..count], [], []);
      return -1, len, p;
    }
    el := len;
    count := Evaluate(F, c, alphaTo, indexOf, s, lambda, deg, root, loc, count, erasVal, erasPos, v, p, len);
    assert bb[..] == v;
  }

  /** Syndromes, and a shortest register for them. */
  method FindRegister(F: Field, c: Code, alphaTo: array<gf>, indexOf: array<gf>, bb: array<gf>)
    returns (s: array<gf>, lambda: array<gf>, ghost p: seq<gf>, ghost len: nat, ghost B: seq<gf>)
    requires Ready(F, alphaTo[..], indexOf[..]) && IsCode(c) && 1 <= bb.Length
    ensures fresh(s) && fresh(lambda) && s != lambda && s.Length == lambda.Length == bb.Length + 1 && lambda[..] == p
    ensures LogsOf(F, s[..], SyndromeSeq(F, c, bb[..]), 1)
    ensures AfterStep(F, p, B, SyndromeSeq(F, c, bb[..]), bb.Length, len)
  {
    s, lambda := new gf[bb.Length + 1](_ => 0), new gf[bb.Length + 1](_ => 0);
    FindSyndromes(F, c, alphaTo, indexOf, bb, s);
    len, B := FindLocator(F, alphaTo, indexOf, s, lambda, SyndromeSeq(F, c, bb[..]));
    p := lambda[..];
  }

  /** Syndromes, the error locator, and its roots. */
  method Locate(F: Field, c: Code, alphaTo: array<gf>, indexOf: array<gf>, bb: array<gf>)
    returns (s: array<gf>, lambda: array<gf>, root: array<int>, loc: array<int>, deg: nat, count: nat, ghost p: seq<gf>,
             ghost len: nat)
    requires Ready(F, alphaTo[..], indexOf[..]) && IsCode(c) && 1 <= bb.Length
    ensures fresh(s) && fresh(lambda) && fresh(root) && fresh(loc) && s != lambda && root != loc
    ensures s.Length == lambda.Length == bb.Length + 1 && root.Length == loc.Length == bb.Length
      && count <= deg <= bb.Length
    ensures LogsOf(F, s[..], SyndromeSeq(F, c, bb[..]), 1) && LogsOf(F, lambda[..], p, 0)
    ensures Located(F, c, bb[..], p, len, deg, root[..count], loc[..count])
  {
    var n := bb.Length;
    ghost var B;
    s, lambda, p, len, B := FindRegister(F, c, alphaTo, indexOf, bb);
    deg := ToIndexForm(F, indexOf, lambda);
    root, loc := new int[n](_ => 0), new int[n](_ => 0);
    count := FindRoots(F, alphaTo, lambda, deg, root, loc, p);
    assert At(p, deg) == p[deg];
  }

  /** The errors at the roots of the locator. */
  method Evaluate(F: Field, c: Code, alphaTo: array<gf>, indexOf: array<gf>, s: array<gf>, lambda: array<gf>, deg: nat,
                  root: array<int>, loc: array<int>, n: nat, erasVal: array<gf>, erasPos: array<int>, ghost bb: seq<gf>,
                  ghost p: seq<gf>, ghost len: nat)
    returns (count: int)
    requires Ready(F, alphaTo[..], indexOf[..]) && IsCode(c) && |bb| >= 1
    requires LogsOf(F, s[..], SyndromeSeq(F, c, bb), 1) && LogsOf(F, lambda[..], p, 0)
    requires n <= root.Length == loc.Length == erasVal.Length == erasPos.Length == |bb|
    requires Located(F, c, bb, p, len, deg, root[..n], loc[..n]) && deg <= |bb|
    requires erasVal != alphaTo && erasVal != indexOf && erasVal != s && erasVal != lambda && erasPos != root
      && erasPos != loc
    modifies erasVal, erasPos
    ensures (count == n && Places(erasPos[..count])) || (count == -1 && n > 0)
    ensures if count == -1 then Answer(F, c, bb, -1, [], [])
      else Answer(F, c, bb, count, erasPos[..count], erasVal[..count])
    ensures count >= 0 && n == deg ==> (ListExplains(F, c, bb, erasPos[..count], erasVal[..count]) <==> len == deg)
  {
    ghost var roots, locs := root[..n], loc[..n];
    var ok;
    ghost var W, k;
    ok, W, k := Valuate(F, c, alphaTo, indexOf, s, lambda, deg, root, n, erasVal, bb, p, roots);
    if !ok {
      AnswerZero(F, c, bb, p, len, deg, roots, locs, W, k, [], []);
      return -1;
    }
    ghost var vals := erasVal[..n];
    CopyPlaces(erasPos, loc, n);
    assert erasVal[..n] == vals;
    AnswerAll(F, c, bb, p, len, deg, roots, locs, W, vals);
    if n == deg { ExplainedIff(F, c, bb, p, len, deg, roots, locs, W, vals); }
    count := n;
  }

  /** The values of all the errors, unless a denominator is zero, at root k. */
  method Valuate(F: Field, c: Code, alphaTo: array<gf>, indexOf: array<gf>, s: array<gf>, lambda: array<gf>, deg: nat,
                 root: array<int>, n: nat, erasVal: array<gf>, ghost bb: seq<gf>, ghost p: seq<gf>,
                 ghost roots: seq<int>)
    returns (ok: bool, ghost W: seq<gf>, ghost k: int)
    requires Ready(F, alphaTo[..], indexOf[..]) && IsCode(c) && |bb| >= 1
    requires LogsOf(F, s[..], SyndromeSeq(F, c, bb), 1) && LogsOf(F, lambda[..], p, 0) && |p| == |bb| + 1
    requires n <= root.Length == erasVal.Length == |bb| && roots == root[..n]
      && (forall j {:trigger roots[j]} :: 0 <= j < n ==> roots[j] >= 0)
    requires NoTermAbove(p, deg) && deg <= |bb|
    requires erasVal != alphaTo && erasVal != indexOf && erasVal != s && erasVal != lambda
    modifies erasVal
    ensures IsOmega(F, W, p, SyndromeSeq(F, c, bb), |bb|)
    ensures ok ==> Valued(F, c, W, p, roots, erasVal[..n], |bb|)
    ensures !ok ==> 0 <= k < n && Odd(F, p, Power(F, 2, roots[k]), |bb| + 1) == 0
  {
    var omega := new gf[lambda.Length](_ => 0);
    var degOmega;
    degOmega, W := FindOmega(F, alphaTo, indexOf, s, lambda, deg, omega, SyndromeSeq(F, c, bb), p);
    ok, k := FindValues(F, c, alphaTo, indexOf, omega, degOmega, lambda, deg, root, n, erasVal, W, p, |bb|, roots);
  }

  method CopyPlaces(erasPos: array<int>, loc: array<int>, n: nat)
    requires n <= loc.Length == erasPos.Length && erasPos != loc
    modifies erasPos
    ensures erasPos[..n] == loc[..n]
  {
    for i := 0 to n
      invariant erasPos[..i] == loc[..i]
    {
      erasPos[i] := loc[i];
      assert erasPos[..i + 1] == erasPos[..i] + [loc[i]];
    }
  }
}
