/** Fields on the symbols of 10 bits, in which every element is its own negative. */
module Fields {
  const MM := 10
  const NN := 1023

  /** A symbol. */
  type gf = x: int | 0 <= x <= 1023

  datatype Field = Field(add: (gf, gf) -> gf, mul: (gf, gf) -> gf)

  function Add(F: Field, a: gf, b: gf): gf { F.add(a, b) }
  function Mul(F: Field, a: gf, b: gf): gf { F.mul(a, b) }
  /** An inverse of `a`, if there is one. */
  ghost function Inv(F: Field, a: gf): gf { if b: gf :| Mul(F, a, b) == 1 then b else 0 }

  // ----- the laws: to use one, mention it -----

  predicate AddComm(F: Field, a: gf, b: gf) { Add(F, a, b) == Add(F, b, a) }
  predicate AddAssoc(F: Field, a: gf, b: gf, c: gf) { Add(F, Add(F, a, b), c) == Add(F, a, Add(F, b, c)) }
  predicate AddZero(F: Field, a: gf) { Add(F, a, 0) == a }
  predicate AddSelf(F: Field, a: gf) { Add(F, a, a) == 0 }
  predicate MulComm(F: Field, a: gf, b: gf) { Mul(F, a, b) == Mul(F, b, a) }
  predicate MulAssoc(F: Field, a: gf, b: gf, c: gf) { Mul(F, Mul(F, a, b), c) == Mul(F, a, Mul(F, b, c)) }
  predicate MulOne(F: Field, a: gf) { Mul(F, a, 1) == a }
  predicate Distributes(F: Field, a: gf, b: gf, c: gf) { Mul(F, a, Add(F, b, c)) == Add(F, Mul(F, a, b), Mul(F, a, c)) }
  ghost predicate Inverse(F: Field, a: gf) { a != 0 ==> Mul(F, a, Inv(F, a)) == 1 }

  ghost predicate IsRing(F: Field) {
    && (forall a, b {:trigger AddComm(F, a, b)} :: AddComm(F, a, b))
    && (forall a, b, c {:trigger AddAssoc(F, a, b, c)} :: AddAssoc(F, a, b, c))
    && (forall a {:trigger AddZero(F, a)} :: AddZero(F, a))
    && (forall a {:trigger AddSelf(F, a)} :: AddSelf(F, a))
    && (forall a, b {:trigger MulComm(F, a, b)} :: MulComm(F, a, b))
    && (forall a, b, c {:trigger MulAssoc(F, a, b, c)} :: MulAssoc(F, a, b, c))
    && (forall a {:trigger MulOne(F, a)} :: MulOne(F, a))
    && (forall a, b, c {:trigger Distributes(F, a, b, c)} :: Distributes(F, a, b, c))
  }

  ghost predicate IsField(F: Field) { IsRing(F) && forall a {:trigger Inverse(F, a)} :: Inverse(F, a) }

  // ----- consequences -----

  lemma Swap4(F: Field, a: gf, b: gf, c: gf, d: gf)
    requires IsRing(F)
    ensures Add(F, Add(F, a, b), Add(F, c, d)) == Add(F, Add(F, a, c), Add(F, b, d))
  {
    assert AddAssoc(F, a, b, Add(F, c, d)) && AddAssoc(F, b, c, d) && AddComm(F, b, c);
    assert AddAssoc(F, c, b, d) && AddAssoc(F, a, c, Add(F, b, d));
  }

  lemma AddsUp(F: Field, a: gf, b: gf)
    requires IsRing(F)
    ensures Add(F, a, Add(F, a, b)) == b && Add(F, Add(F, b, a), a) == b && Add(F, 0, a) == a
    ensures Add(F, a, b) == 0 <==> a == b
  {
    assert AddAssoc(F, a, a, b) && AddSelf(F, a) && AddComm(F, 0, b) && AddZero(F, b) && AddAssoc(F, b, a, a);
    assert AddComm(F, 0, a) && AddZero(F, a);
  }

  lemma MulZero(F: Field, a: gf)
    requires IsRing(F)
    ensures Mul(F, a, 0) == 0 && Mul(F, 0, a) == 0
  {
    assert AddSelf(F, 0) && Distributes(F, a, 0, 0) && AddSelf(F, Mul(F, a, 0)) && MulComm(F, a, 0);
  }

  lemma OneMul(F: Field, a: gf)
    requires IsRing(F)
    ensures Mul(F, a, 1) == a && Mul(F, 1, a) == a
  {
    assert MulOne(F, a) && MulComm(F, a, 1);
  }

  lemma DistributesLeft(F: Field, a: gf, b: gf, c: gf)
    requires IsRing(F)
    ensures Mul(F, Add(F, a, b), c) == Add(F, Mul(F, a, c), Mul(F, b, c))
  {
    assert MulComm(F, Add(F, a, b), c) && Distributes(F, c, a, b) && MulComm(F, c, a) && MulComm(F, c, b);
  }

  lemma MulSwap(F: Field, a: gf, b: gf, c: gf)
    requires IsRing(F)
    ensures Mul(F, a, Mul(F, b, c)) == Mul(F, b, Mul(F, a, c))
  {
    assert MulAssoc(F, a, b, c) && MulComm(F, a, b) && MulAssoc(F, b, a, c);
  }

  lemma NoZeroDivisors(F: Field, a: gf, b: gf)
    requires IsField(F) && Mul(F, a, b) == 0
    ensures a == 0 || b == 0
  {
    if a != 0 {
      var i := Inv(F, a);
      assert Inverse(F, a) && MulComm(F, a, i) && MulAssoc(F, i, a, b);
      OneMul(F, b);
      MulZero(F, i);
    }
  }
}
