/** Error patterns, their syndromes, and what the decoder's steps say about them. */
module ErrorPatterns {
  import opened Fields
  import opened Sums
  import opened Massey
  import opened PowerSums
  import opened Locators
  import opened Products
  import opened Values
  import opened Forney
  import opened Logs

  /** Symbol `pos` of the code word is off by `val`. */
  datatype Error = Error(pos: nat, val: gf)

  ghost predicate IsPattern(errs: seq<Error>) {
    && (forall i {:trigger errs[i]} :: 0 <= i < |errs| ==> errs[i].pos < NN && errs[i].val != 0)
    && (forall i, k {:trigger Apart(errs, i, k)} :: Apart(errs, i, k))
  }
  ghost predicate Apart(errs: seq<Error>, i: int, k: int) { 0 <= i < k < |errs| ==> errs[i].pos != errs[k].pos }

  /** The error polynomial, at z. */
  function ErrorAt(F: Field, errs: seq<Error>, z: gf): gf {
    if |errs| == 0 then 0
    else Add(F, ErrorAt(F, errs[..|errs| - 1], z), Mul(F, errs[|errs| - 1].val, Power(F, z, errs[|errs| - 1].pos)))
  }

  /** The symbols s_1 to s_r are the values of the error polynomial at alpha^b0, alpha^(b0+1) and so on. */
  ghost predicate SyndromesOf(F: Field, errs: seq<Error>, b0: nat, s: seq<gf>, r: int)
    requires b0 > 0
  {
    forall i: nat {:trigger At(s, i)} :: 1 <= i <= r ==> At(s, i) == ErrorAt(F, errs, Power(F, 2, b0 + i - 1))
  }

  // ----- as a power sum -----

  function TermOf(F: Field, e: Error, b0: nat): Term
    requires b0 > 0
  { Term(Power(F, 2, e.pos), Mul(F, e.val, Power(F, Power(F, 2, e.pos), b0 - 1))) }

  function TermsOf(F: Field, errs: seq<Error>, b0: nat): (t: seq<Term>)
    requires b0 > 0
    ensures |t| == |errs|
  { seq(|errs|, i requires 0 <= i < |errs| => TermOf(F, errs[i], b0)) }

  lemma PowerSwap(F: Field, x: gf, m: nat, n: nat)
    requires IsRing(F)
    ensures Power(F, Power(F, x, m), n) == Power(F, Power(F, x, n), m)
  {
    PowerPower(F, x, m, n);
    PowerPower(F, x, n, m);
    assert m * n == n * m;
  }

  /** val * (alpha^(b0+i-1))^pos = val * x^(b0-1) * x^i with x = alpha^pos */
  lemma ErrorTerm(F: Field, e: Error, b0: nat, i: nat)
    requires IsRing(F) && b0 > 0
    ensures Mul(F, e.val, Power(F, Power(F, 2, b0 + i - 1), e.pos)) ==
      Mul(F, TermOf(F, e, b0).y, Power(F, TermOf(F, e, b0).x, i))
  {
    var x := Power(F, 2, e.pos);
    PowerSwap(F, 2, b0 + i - 1, e.pos);
    PowerAdds(F, x, b0 - 1, i);
    assert b0 - 1 + i == b0 + i - 1;
    assert MulAssoc(F, e.val, Power(F, x, b0 - 1), Power(F, x, i));
  }

  lemma {:induction false} ErrorIsSum(F: Field, errs: seq<Error>, b0: nat, i: nat)
    requires IsRing(F) && b0 > 0
    ensures ErrorAt(F, errs, Power(F, 2, b0 + i - 1)) == PowerSum(F, TermsOf(F, errs, b0), i)
    decreases |errs|
  {
    if |errs| > 0 {
      ErrorIsSum(F, errs[..|errs| - 1], b0, i);
      ErrorTerm(F, errs[|errs| - 1], b0, i);
      assert TermsOf(F, errs, b0)[..|errs| - 1] == TermsOf(F, errs[..|errs| - 1], b0);
    }
  }

  lemma SyndromesSum(F: Field, errs: seq<Error>, b0: nat, s: seq<gf>, r: int)
    requires IsRing(F) && b0 > 0 && SyndromesOf(F, errs, b0, s, r)
    ensures SumsTo(F, TermsOf(F, errs, b0), s, r)
  {
    forall j {:trigger At(s, j)} | 1 <= j <= r ensures At(s, j) == PowerSum(F, TermsOf(F, errs, b0), j) {
      ErrorIsSum(F, errs, b0, j);
    }
  }

  lemma TermsDistinct(F: Field, errs: seq<Error>, b0: nat)
    requires IsField(F) && Primitive(F, 2) && b0 > 0 && IsPattern(errs)
    ensures Distinct(TermsOf(F, errs, b0)) && forall k {:trigger TermsOf(F, errs, b0)[k]} :: 0 <= k < |errs| ==>
      TermsOf(F, errs, b0)[k].y != 0
  {
    var t := TermsOf(F, errs, b0);
    forall k {:trigger t[k]} | 0 <= k < |errs| ensures t[k].x != 0 && t[k].y != 0 {
      PowersNonzero(F, 2, errs[k].pos);
      PowerNonzero(F, t[k].x, b0 - 1);
      if t[k].y == 0 { NoZeroDivisors(F, errs[k].val, Power(F, t[k].x, b0 - 1)); }
    }
    forall i, k ensures Differ(t, i, k) {
      if 0 <= i < k < |t| && t[i].x == t[k].x {
        assert Apart(errs, i, k);
        if errs[i].pos < errs[k].pos {
          Cancel(F, 2, errs[i].pos, errs[k].pos);
        } else {
          Cancel(F, 2, errs[k].pos, errs[i].pos);
        }
      }
    }
  }

  // ----- the locator of a pattern -----

  /** The shortest register is the locator, whose roots are the inverses of the places. */
  lemma PatternLocator(F: Field, errs: seq<Error>, b0: nat, lambda: seq<gf>, len: nat, s: seq<gf>, r: nat)
    requires IsField(F) && Primitive(F, 2) && b0 > 0 && IsPattern(errs) && 2 * |errs| <= r && |lambda| == r + 1
    requires SyndromesOf(F, errs, b0, s, r) && Generates(F, lambda, len, s, r) && Shortest(F, len, s, r)
    ensures lambda == Locator(F, TermsOf(F, errs, b0), r + 1) && At(lambda, |errs|) != 0 && NoTermAbove(lambda, |errs|)
  {
    var t := TermsOf(F, errs, b0);
    SyndromesSum(F, errs, b0, s, r);
    TermsDistinct(F, errs, b0);
    forall k {:trigger t[k]} | 0 <= k < |t| ensures t[k].y != 0 {}
    ShortestIsLocator(F, lambda, len, t, s, r);
    forall i | 0 <= i <= r ensures lambda[i] == Locator(F, t, r + 1)[i] { assert At(lambda, i) == LocatorAt(F, t, i); }
    LocatorDegree(F, t);
    assert At(lambda, |t|) == LocatorAt(F, t, |t|);
  }

  /** alpha^i is a root of the locator if and only if position NN - i is in error. */
  lemma RootsArePositions(F: Field, errs: seq<Error>, b0: nat, r: nat, i: nat)
    requires IsField(F) && Primitive(F, 2) && b0 > 0 && IsPattern(errs) && |errs| <= r && 1 <= i <= NN
    ensures Eval(F, Locator(F, TermsOf(F, errs, b0), r + 1), Power(F, 2, i), r + 1) == 0 <==>
      exists k :: 0 <= k < |errs| && errs[k].pos == NN - i
  {
    var t, z := TermsOf(F, errs, b0), Power(F, 2, i);
    LocatorValue(F, t, z, r);
    forall k | 0 <= k < |errs| ensures Hits(F, t, z, k) <==> errs[k].pos == NN - i { HitIsPosition(F, errs, b0, k, i); }
    if k :| 0 <= k < |errs| && errs[k].pos == NN - i { assert Hits(F, t, z, k); }
  }

  lemma HitIsPosition(F: Field, errs: seq<Error>, b0: nat, k: int, i: nat)
    requires IsField(F) && Primitive(F, 2) && b0 > 0 && IsPattern(errs) && 0 <= k < |errs| && 1 <= i <= NN
    ensures Hits(F, TermsOf(F, errs, b0), Power(F, 2, i), k) <==> errs[k].pos == NN - i
  {
    var p := errs[k].pos;
    PowerAdds(F, 2, p, i);
    if p + i == NN {
    } else if p + i < NN {
      assert Power(F, 2, p + i) != 1;
    } else {
      Period(F, 2, p + i);
      Cancel0(F, p + i);
    }
  }

  lemma Cancel0(F: Field, n: nat)
    requires IsRing(F) && Primitive(F, 2) && NN < n < 2 * NN
    ensures Power(F, 2, n) != 1
  {
    Period(F, 2, n);
    assert n % NN == n - NN;
    assert Power(F, 2, n - NN) != 1;
  }
}
