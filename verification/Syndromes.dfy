/** From the register to the syndromes; from the syndromes and the locator to the error values. */
module Syndromes {
  import opened Fields
  import opened Sums
  import opened Massey
  import opened PowerSums
  import opened Values
  import opened Forney
  import opened Logs
  import opened Tables
  import opened BerlekampMassey
  import opened Chien

  // ----- syndromes -----

  /** The code that is used: NN - kk check symbols, roots from alpha^b0 on. */
  datatype Code = Code(b0: nat, kk: nat)

  ghost predicate IsCode(c: Code) { c.b0 > 0 && c.kk < NN }

  ghost function Beta(F: Field, c: Code, i: nat): gf
    requires c.b0 > 0
  { Power(F, 2, c.b0 + i - 1) }

  /** What undoes the multiplication by the feedback register. */
  function FeedbackShift(c: Code, i: nat): nat
    requires c.b0 > 0
  {
    NatProduct(2 * c.kk, c.b0 + i - 1);
    2 * c.kk * (c.b0 + i - 1)
  }

  lemma NatProduct(x: nat, y: nat)
    ensures x * y >= 0
  {}

  /** Syndrome i of the register contents `bb`. */
  ghost function SyndromeAt(F: Field, c: Code, bb: seq<gf>, i: nat): gf
    requires c.b0 > 0
  { Mul(F, Eval(F, bb, Beta(F, c, i), |bb|), Power(F, 2, FeedbackShift(c, i))) }

  /** The syndromes from place 1 on, after a 1. */
  ghost function SyndromeSeq(F: Field, c: Code, bb: seq<gf>): (s: seq<gf>)
    requires c.b0 > 0
    ensures |s| == |bb| + 1
  { seq(|bb| + 1, i => if i <= 0 then 1 else SyndromeAt(F, c, bb, i)) }

  lemma SyndromeTerm(F: Field, b: gf, n: nat, j: nat)
    requires IsField(F) && Primitive(F, 2) && b != 0
    ensures n * j >= 0 && Power(F, 2, Log(F, 2, b) + n * j) == Mul(F, b, Power(F, Power(F, 2, n), j))
  {
    PowerPower(F, 2, n, j);
    PowerAdds(F, 2, Log(F, 2, b), n * j);
  }

  /** Partial syndromes: the sums over the first j symbols. */
  ghost predicate Partial(F: Field, c: Code, s: seq<gf>, bb: seq<gf>, j: int, i: int)
    requires c.b0 > 0
  { 1 <= i < |s| && 0 <= j ==> s[i] == Eval(F, bb, Beta(F, c, i), j) }

  method AddSymbol(F: Field, c: Code, alphaTo: array<gf>, indexOf: array<gf>, s: array<gf>, ghost bb: seq<gf>, b: gf,
                   j: nat)
    requires Ready(F, alphaTo[..], indexOf[..]) && IsCode(c) && s != alphaTo && s != indexOf && s.Length >= 1
    requires j < |bb| && b == bb[j] != 0 && forall i {:trigger Partial(F, c, s[..], bb, j, i)} ::
      Partial(F, c, s[..], bb, j, i)
    modifies s
    ensures forall i {:trigger Partial(F, c, s[..], bb, j + 1, i)} :: Partial(F, c, s[..], bb, j + 1, i)
  {
    ghost var was := s[..];
    assert indexOf[..][b] == Log(F, 2, b);
    var tmp := indexOf[b];
    for i := 1 to s.Length
      invariant Ready(F, alphaTo[..], indexOf[..])
      invariant forall k {:trigger s[k]} :: 1 <= k < s.Length ==>
        s[k] == if k < i then Add(F, was[k], Mul(F, b, Power(F, Beta(F, c, k), j))) else was[k]
    {
      SyndromeTerm(F, b, c.b0 + i - 1, j);
      var a := Antilog(alphaTo, tmp as int + (c.b0 + i - 1) * j, F);
      s[i] := Add(F, s[i], a);
    }
    forall i {:trigger Partial(F, c, s[..], bb, j + 1, i)} ensures Partial(F, c, s[..], bb, j + 1, i) {
      assert Partial(F, c, was, bb, j, i);
    }
  }

  lemma SkipSymbol(F: Field, c: Code, s: seq<gf>, bb: seq<gf>, j: nat)
    requires IsField(F) && c.b0 > 0 && j < |bb| && bb[j] == 0
    requires forall i {:trigger Partial(F, c, s, bb, j, i)} :: Partial(F, c, s, bb, j, i)
    ensures forall i {:trigger Partial(F, c, s, bb, j + 1, i)} :: Partial(F, c, s, bb, j + 1, i)
  {
    forall i {:trigger Partial(F, c, s, bb, j + 1, i)} ensures Partial(F, c, s, bb, j + 1, i) {
      assert Partial(F, c, s, bb, j, i);
      if 1 <= i < |s| { NothingAdded(F, s[i], bb[j], Power(F, Beta(F, c, i), j)); }
    }
  }

  lemma FirstSymbol(F: Field, c: Code, bb: seq<gf>, i: nat)
    requires IsField(F) && c.b0 > 0 && |bb| > 0
    ensures Eval(F, bb, Beta(F, c, i), 1) == bb[0]
  {
    OneMul(F, bb[0]);
    AddsUp(F, bb[0], 0);
    assert Eval(F, bb, Beta(F, c, i), 0) == 0;
  }

  /** Undo the multiplication that the feedback register has done. */
  lemma UndoFeedback(F: Field, a: gf, n: nat)
    requires IsField(F) && Primitive(F, 2)
    ensures Log(F, 2, Mul(F, a, Power(F, 2, n))) == if a == 0 then A0 else (Log(F, 2, a) + n) % NN
  {
    if a == 0 {
      MulZero(F, Power(F, 2, n));
    } else {
      var k := Log(F, 2, a);
      assert Power(F, 2, k) == a;
      PowerAdds(F, 2, k, n);
      LogIs(F, 2, k + n);
    }
  }

  /** The syndromes in index form. */
  method FindSyndromes(F: Field, c: Code, alphaTo: array<gf>, indexOf: array<gf>, bb: array<gf>, s: array<gf>)
    requires Ready(F, alphaTo[..], indexOf[..]) && IsCode(c) && s.Length == bb.Length + 1 >= 2
    requires s != alphaTo && s != indexOf && s != bb
    modifies s
    ensures LogsOf(F, s[..], SyndromeSeq(F, c, bb[..]), 1)
  {
    for i := 1 to s.Length
      invariant forall k {:trigger s[k]} :: 1 <= k < i ==> s[k] == bb[0]
    {
      s[i] := bb[0];
    }
    ghost var v := bb[..];
    forall i {:trigger Partial(F, c, s[..], v, 1, i)} ensures Partial(F, c, s[..], v, 1, i) {
      if 1 <= i < s.Length { FirstSymbol(F, c, v, i); }
    }
    for j := 1 to bb.Length
      invariant Ready(F, alphaTo[..], indexOf[..]) && bb[..] == v
      invariant forall i {:trigger Partial(F, c, s[..], v, j, i)} :: Partial(F, c, s[..], v, j, i)
    {
      if bb[j] == 0 {
        SkipSymbol(F, c, s[..], v, j);
      } else {
        AddSymbol(F, c, alphaTo, indexOf, s, v, bb[j], j);
      }
    }
    ToIndex(F, c, indexOf, s, v);
  }

  method ToIndex(F: Field, c: Code, indexOf: array<gf>, s: array<gf>, ghost bb: seq<gf>)
    requires IsField(F) && Primitive(F, 2) && LogTable(F, indexOf[..]) && IsCode(c) && s.Length == |bb| + 1
      && s != indexOf
    requires forall i {:trigger Partial(F, c, s[..], bb, |bb|, i)} :: Partial(F, c, s[..], bb, |bb|, i)
    modifies s
    ensures LogsOf(F, s[..], SyndromeSeq(F, c, bb), 1)
  {
    ghost var was := s[..];
    for i := 1 to s.Length
      invariant LogTable(F, indexOf[..])
      invariant forall k {:trigger s[k]} :: 1 <= k < s.Length ==>
        s[k] == if k < i then Log(F, 2, SyndromeAt(F, c, bb, k)) else was[k]
    {
      assert Partial(F, c, was, bb, |bb|, i);
      UndoFeedback(F, s[i], FeedbackShift(c, i));
      var tmp := indexOf[s[i]];
      if tmp != A0 {
        tmp := Modnn(tmp as int + 2 * c.kk * (c.b0 + i - 1));
      }
      s[i] := tmp;
    }
  }

  // ----- the evaluator polynomial -----

  /** One more term, from the upper end of the sum. */
  lemma OmegaTerm(F: Field, p: seq<gf>, S: seq<gf>, n: int, j: nat, tmp: gf)
    requires IsField(F)
    ensures var t := Mul(F, At(p, j), At(S, n - j));
      && Add(F, Add(F, tmp, t), Conv(F, p, S, n, j)) == Add(F, tmp, Conv(F, p, S, n, j + 1))
      && (At(p, j) == 0 || At(S, n - j) == 0 ==>
          Add(F, tmp, Conv(F, p, S, n, j)) == Add(F, tmp, Conv(F, p, S, n, j + 1)))
  {
    AddTerm(F, tmp, Conv(F, p, S, n, j), Mul(F, At(p, j), At(S, n - j)));
    MulZero(F, At(p, j));
    MulZero(F, At(S, n - j));
  }

  lemma OmegaDone(F: Field, p: seq<gf>, S: seq<gf>, deg: nat, i: nat, m: nat, tmp: gf, all: gf)
    requires IsField(F) && NoTermAbove(p, deg) && m == (if deg < i then deg else i)
    requires Pending(F, p, S, i + 1, 0, tmp, all) && all == Conv(F, p, S, i + 1, m + 1)
    ensures tmp == OmegaAt(F, p, S, i)
  {
    assert AddZero(F, tmp);
    ConvShort(F, p, S, i + 1, m + 1, i + 1);
  }

  /** `all` is what there will be in `tmp` when the first j terms have been added, too. */
  ghost predicate Pending(F: Field, p: seq<gf>, S: seq<gf>, n: int, j: nat, tmp: gf, all: gf) {
    Add(F, tmp, Conv(F, p, S, n, j)) == all
  }

  /** Add the term p_j * S_(n-j), if it is not zero. */
  method AddProduct(F: Field, alphaTo: array<gf>, s: array<gf>, lambda: array<gf>, n: int, j: nat, tmp: gf,
                    ghost S: seq<gf>, ghost p: seq<gf>, ghost all: gf)
    returns (tmp': gf)
    requires IsField(F) && Primitive(F, 2) && Antilogs(F, alphaTo[..]) && LogsOf(F, s[..], S, 1)
      && LogsOf(F, lambda[..], p, 0)
    requires s.Length == lambda.Length && j < n < s.Length && Pending(F, p, S, n, j + 1, tmp, all)
    ensures Pending(F, p, S, n, j, tmp', all)
  {
    assert s[..][n - j] == Log(F, 2, S[n - j]) && lambda[..][j] == Log(F, 2, p[j]);
    OmegaTerm(F, p, S, n, j, tmp);
    tmp' := tmp;
    if s[n - j] != A0 && lambda[j] != A0 {
      LogSum(F, p[j], S[n - j]);
      var a := Antilog(alphaTo, s[n - j] as int + lambda[j], F);
      tmp' := Add(F, tmp, a);
    }
  }

  /** One coefficient of s(x)*lambda(x)/x. */
  method OmegaSum(F: Field, alphaTo: array<gf>, s: array<gf>, lambda: array<gf>, deg: nat, i: nat, ghost S: seq<gf>,
                  ghost p: seq<gf>)
    returns (tmp: gf)
    requires IsField(F) && Primitive(F, 2) && Antilogs(F, alphaTo[..]) && LogsOf(F, s[..], S, 1)
      && LogsOf(F, lambda[..], p, 0)
    requires s.Length == lambda.Length && i + 1 < s.Length && NoTermAbove(p, deg) && deg < |p|
    ensures tmp == OmegaAt(F, p, S, i)
  {
    var m := if deg < i then deg else i;
    var j := m + 1;
    tmp := 0;
    ghost var all := Conv(F, p, S, i + 1, m + 1);
    assert Pending(F, p, S, i + 1, j, tmp, all) by { AddsUp(F, all, 0); }
    while j > 0
      invariant 0 <= j <= m + 1 && Pending(F, p, S, i + 1, j, tmp, all)
    {
      j := j - 1;
      tmp := AddProduct(F, alphaTo, s, lambda, i + 1, j, tmp, S, p, all);
    }
    OmegaDone(F, p, S, deg, i, m, tmp, all);
  }

  /** omega(x) = s(x)*lambda(x) (modulo x**(NN-KK)), in index form, and its degree. */
  method FindOmega(F: Field, alphaTo: array<gf>, indexOf: array<gf>, s: array<gf>, lambda: array<gf>, deg: nat,
                   omega: array<gf>, ghost S: seq<gf>, ghost p: seq<gf>)
    returns (degOmega: int, ghost W: seq<gf>)
    requires Ready(F, alphaTo[..], indexOf[..]) && LogsOf(F, s[..], S, 1) && LogsOf(F, lambda[..], p, 0)
    requires s.Length == lambda.Length == omega.Length >= 2 && NoTermAbove(p, deg) && deg < |p|
    requires omega != s && omega != lambda && omega != alphaTo && omega != indexOf
    modifies omega
    ensures |W| == omega.Length && LogsOf(F, omega[..], W, 0) && IsOmega(F, W, p, S, |W| - 1)
    ensures 0 <= degOmega < |W| - 1 && NoTermAbove(W, degOmega)
  {
    var n := omega.Length - 1;
    W := [];
    degOmega := 0;
    for i := 0 to n
      invariant Ready(F, alphaTo[..], indexOf[..]) && LogsOf(F, s[..], S, 1) && LogsOf(F, lambda[..], p, 0)
      invariant |W| == i && 0 <= degOmega < n && NoTermAbove(W, degOmega)
      invariant IsOmega(F, W, p, S, i) && LogsOf(F, omega[..i], W, 0)
    {
      var tmp := OmegaSum(F, alphaTo, s, lambda, deg, i, S, p);
      if tmp != 0 {
        degOmega := i;
      }
      assert indexOf[..][tmp] == Log(F, 2, tmp);
      ghost var was := omega[..i];
      omega[i] := indexOf[tmp];
      assert omega[..i + 1] == was + [Log(F, 2, tmp)];
      MoreLogs(F, was, W, tmp);
      MoreOmega(F, W, p, S, i, tmp, degOmega);
      W := W + [tmp];
    }
    ghost var was := omega[..n];
    omega[n] := A0;
    assert omega[..] == was + [Log(F, 2, 0)];
    MoreLogs(F, was, W, 0);
    LastOmega(F, W, p, S, n, degOmega);
    W := W + [0];
  }

  lemma MoreLogs(F: Field, x: seq<gf>, v: seq<gf>, a: gf)
    requires IsField(F) && Primitive(F, 2) && LogsOf(F, x, v, 0)
    ensures LogsOf(F, x + [Log(F, 2, a)], v + [a], 0)
  {}

  lemma MoreOmega(F: Field, W: seq<gf>, p: seq<gf>, S: seq<gf>, i: nat, tmp: gf, degOmega: int)
    requires |W| == i && IsOmega(F, W, p, S, i) && tmp == OmegaAt(F, p, S, i)
    ensures IsOmega(F, W + [tmp], p, S, i + 1)
    ensures NoTermAbove(W, degOmega) && tmp == 0 ==> NoTermAbove(W + [tmp], degOmega)
    ensures degOmega == i ==> NoTermAbove(W + [tmp], degOmega)
  {
    forall j: nat {:trigger At(W + [tmp], j)} | j < i + 1 ensures At(W + [tmp], j) == OmegaAt(F, p, S, j) {
      if j < i { assert At(W, j) == OmegaAt(F, p, S, j); }
    }
    forall j {:trigger At(W + [tmp], j)} ensures j < i ==> At(W + [tmp], j) == At(W, j) {}
  }

  lemma LastOmega(F: Field, W: seq<gf>, p: seq<gf>, S: seq<gf>, n: nat, degOmega: int)
    requires |W| == n && IsOmega(F, W, p, S, n) && NoTermAbove(W, degOmega)
    ensures IsOmega(F, W + [0], p, S, n) && NoTermAbove(W + [0], degOmega)
  {
    forall j {:trigger At(W + [0], j)} ensures At(W + [0], j) == At(W, j) {}
  }
}
