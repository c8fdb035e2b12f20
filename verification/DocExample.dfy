/** One run of doc_decode_ecc with all its numbers: the register that one error of value 1 at place 100 leaves. */
module DocExample {
  import opened Basics
  import opened Fields
  import opened Gf
  import opened Order
  import opened PowerSums
  import opened Values
  import opened Logs
  import opened ErrorPatterns
  import opened Syndromes
  import opened Decoder
  import opened DocEcc
  import opened DocFailing

  // ----- some powers of 2 -----

  lemma From33To54(F: Field, k: nat)
    requires Doubles(F) && Alpha(F, k) == 620
    ensures Alpha(F, k + 21) == 244
  {
    Go(F, k, 620, 209, 418, 836, 641, 267, 534, 37, 74, 148, 296, 592);
    GoFive(F, k + 11, 592, 169, 338, 676, 321, 642);
    GoFive(F, k + 16, 642, 269, 538, 61, 122, 244);
  }

  lemma From143To162(F: Field, k: nat)
    requires Doubles(F) && Alpha(F, k) == 945
    ensures Alpha(F, k + 19) == 265
  {
    Go(F, k, 945, 875, 735, 439, 878, 725, 419, 838, 645, 259, 518, 5);
    GoFive(F, k + 11, 5, 10, 20, 40, 80, 160);
    assert Alpha(F, k + 17) == 320 && Alpha(F, k + 18) == 640 && Alpha(F, k + 19) == 265;
  }

  lemma From308To341(F: Field, k: nat)
    requires Doubles(F) && Alpha(F, k) == 17
    ensures Alpha(F, k + 30) == 664 && Alpha(F, k + 31) == 313 && Alpha(F, k + 32) == 626 && Alpha(F, k + 33) == 237
  {
    Go(F, k, 17, 34, 68, 136, 272, 544, 73, 146, 292, 584, 153, 306);
    Go(F, k + 11, 306, 612, 193, 386, 772, 513, 11, 22, 44, 88, 176, 352);
    GoFive(F, k + 22, 352, 704, 393, 786, 557, 83);
    assert Alpha(F, k + 28) == 166 && Alpha(F, k + 29) == 332 && Alpha(F, k + 30) == 664;
    assert Alpha(F, k + 31) == 313;
    assert Alpha(F, k + 32) == 626;
    assert Alpha(F, k + 33) == 237;
  }

  lemma From451To457(F: Field, k: nat)
    requires Doubles(F) && Alpha(F, k) == 223
    ensures Alpha(F, k + 6) == 933
  {
    GoFive(F, k, 223, 446, 892, 753, 491, 982);
    assert Alpha(F, k + 6) == 933;
  }

  lemma From506To551(F: Field, k: nat)
    requires Doubles(F) && Alpha(F, k) == 846
    ensures Alpha(F, k + 39) == 951 && Alpha(F, k + 41) == 711 && Alpha(F, k + 42) == 391 && Alpha(F, k + 43) == 782
      && Alpha(F, k + 45) == 35
  {
    Go(F, k, 846, 661, 291, 582, 133, 266, 532, 33, 66, 132, 264, 528);
    Go(F, k + 11, 528, 41, 82, 164, 328, 656, 297, 594, 173, 346, 692, 353);
    Go(F, k + 22, 353, 706, 397, 794, 573, 115, 230, 460, 920, 825, 635, 255);
    GoFive(F, k + 33, 255, 510, 1020, 1009, 1003, 991);
    assert Alpha(F, k + 39) == 951;
    assert Alpha(F, k + 40) == 871 && Alpha(F, k + 41) == 711;
    assert Alpha(F, k + 42) == 391;
    assert Alpha(F, k + 43) == 782;
    assert Alpha(F, k + 44) == 533 && Alpha(F, k + 45) == 35;
  }

  lemma From836To851(F: Field, k: nat)
    requires Doubles(F) && Alpha(F, k) == 860
    ensures Alpha(F, k + 15) == 300
  {
    Go(F, k, 860, 689, 363, 726, 421, 842, 669, 307, 614, 197, 394, 788);
    assert Alpha(F, k + 12) == 545 && Alpha(F, k + 13) == 75 && Alpha(F, k + 14) == 150 && Alpha(F, k + 15) == 300;
  }

  lemma From836To861(F: Field, k: nat)
    requires Doubles(F) && Alpha(F, k) == 860
    ensures Alpha(F, k + 25) == 94
  {
    Go(F, k, 860, 689, 363, 726, 421, 842, 669, 307, 614, 197, 394, 788);
    Go(F, k + 11, 788, 545, 75, 150, 300, 600, 185, 370, 740, 449, 898, 781);
    assert Alpha(F, k + 23) == 531 && Alpha(F, k + 24) == 47 && Alpha(F, k + 25) == 94;
  }

  lemma From946To973(F: Field, k: nat)
    requires Doubles(F) && Alpha(F, k) == 1016
    ensures Alpha(F, k + 18) == 777 && Alpha(F, k + 21) == 126 && Alpha(F, k + 23) == 504 && Alpha(F, k + 24) == 1008
      && Alpha(F, k + 27) == 959
  {
    Go(F, k, 1016, 1017, 1019, 1023, 1015, 999, 967, 903, 775, 519, 7, 14);
    GoFive(F, k + 11, 14, 28, 56, 112, 224, 448);
    assert Alpha(F, k + 17) == 896 && Alpha(F, k + 18) == 777;
    assert Alpha(F, k + 19) == 539 && Alpha(F, k + 20) == 63 && Alpha(F, k + 21) == 126;
    assert Alpha(F, k + 22) == 252 && Alpha(F, k + 23) == 504;
    assert Alpha(F, k + 24) == 1008;
    assert Alpha(F, k + 25) == 1001 && Alpha(F, k + 26) == 987 && Alpha(F, k + 27) == 959;
  }

  lemma From946To983(F: Field, k: nat)
    requires Doubles(F) && Alpha(F, k) == 1016
    ensures Alpha(F, k + 37) == 632
  {
    Go(F, k, 1016, 1017, 1019, 1023, 1015, 999, 967, 903, 775, 519, 7, 14);
    Go(F, k + 11, 14, 28, 56, 112, 224, 448, 896, 777, 539, 63, 126, 252);
    Go(F, k + 22, 252, 504, 1008, 1001, 987, 959, 887, 743, 455, 910, 789, 547);
    assert Alpha(F, k + 34) == 79 && Alpha(F, k + 35) == 158 && Alpha(F, k + 36) == 316 && Alpha(F, k + 37) == 632;
  }

  /** The powers from which the others are near. */
  lemma Anchors(F: Field, k: nat)
    requires Doubles(F) && k == 0
    ensures Alpha(F, k + 33) == 620 && Alpha(F, k + 143) == 945 && Alpha(F, k + 308) == 17 && Alpha(F, k + 341) == 237
  {
    assert Alpha(F, k) == 1;
    From0(F, k);
    From33(F, k + 33);
    From88(F, k + 88);
    From143(F, k + 143);
    From198(F, k + 198);
    From253(F, k + 253);
    From308(F, k + 308);
  }

  lemma FarAnchors(F: Field, k: nat)
    requires Doubles(F) && Alpha(F, k + 341) == 237
    ensures Alpha(F, k + 451) == 223 && Alpha(F, k + 506) == 846 && Alpha(F, k + 836) == 860
      && Alpha(F, k + 946) == 1016
  {
    From341(F, k + 341);
    From396(F, k + 396);
    From451(F, k + 451);
    From506(F, k + 506);
    From561(F, k + 561);
    From616(F, k + 616);
    From671(F, k + 671);
    From726(F, k + 726);
    From781(F, k + 781);
    From836(F, k + 836);
    From891(F, k + 891);
  }

  /** The logarithms of the register contents. */
  ghost predicate Contents(F: Field, k: nat) {
    Alpha(F, k + 983) == 632 && Alpha(F, k + 851) == 300 && Alpha(F, k + 548) == 391 && Alpha(F, k + 457) == 933
  }

  /** Their multiples by the powers of a root, and what these add up to. */
  ghost predicate Multiples(F: Field, k: nat) {
    && Alpha(F, k + 338) == 664 && Alpha(F, k + 545) == 951 && Alpha(F, k + 964) == 777 && Alpha(F, k + 861) == 94
    && Alpha(F, k + 339) == 313 && Alpha(F, k + 547) == 711 && Alpha(F, k + 967) == 126 && Alpha(F, k + 969) == 504
    && Alpha(F, k + 340) == 626 && Alpha(F, k + 549) == 782 && Alpha(F, k + 970) == 1008 && Alpha(F, k + 54) == 244
    && Alpha(F, k + 341) == 237 && Alpha(F, k + 551) == 35 && Alpha(F, k + 973) == 959 && Alpha(F, k + 162) == 265
  }

  lemma AllPowers(F: Field, k: nat)
    requires Doubles(F) && k == 0
    ensures Contents(F, k) && Multiples(F, k)
  {
    Anchors(F, k);
    FarAnchors(F, k);
    From33To54(F, k + 33);
    From143To162(F, k + 143);
    From308To341(F, k + 308);
    From451To457(F, k + 451);
    From506To551(F, k + 506);
    From836To851(F, k + 836);
    From836To861(F, k + 836);
    From946To973(F, k + 946);
    From946To983(F, k + 946);
  }

  // ----- sums -----

  /** The last three binary digits of the exclusive or. */
  function Last3(a: nat, b: nat): nat {
    4 * Bit(a / 4 % 2 != b / 4 % 2) + 2 * Bit(a / 2 % 2 != b / 2 % 2) + Bit(a % 2 != b % 2)
  }

  lemma XorBy8(x: nat, y: nat, a: nat, b: nat)
    requires a / 8 == x && b / 8 == y
    ensures Xor(a, b) == 8 * Xor(x, y) + Last3(a, b)
  {
    Halves(a, b, a / 2, b / 2, a / 4, b / 4, x, y);
  }

  lemma Halves(a: nat, b: nat, a1: nat, b1: nat, a2: nat, b2: nat, a3: nat, b3: nat)
    requires a / 2 == a1 && a1 / 2 == a2 && a2 / 2 == a3 && b / 2 == b1 && b1 / 2 == b2 && b2 / 2 == b3
    ensures Xor(a, b) == 8 * Xor(a3, b3) + 4 * Bit(a2 % 2 != b2 % 2) + 2 * Bit(a1 % 2 != b1 % 2) + Bit(a % 2 != b % 2)
  {
    XorSplit(a, b);
    XorSplit(a1, b1);
    XorSplit(a2, b2);
  }

  lemma XorOf(a: nat, b: nat, c: nat, a1: nat, b1: nat, a2: nat, b2: nat, a3: nat, b3: nat)
    requires a / 8 == a1 && a1 / 8 == a2 && a2 / 8 == a3 < 2 && b / 8 == b1 && b1 / 8 == b2 && b2 / 8 == b3 < 2
    requires c == 512 * Bit(a3 != b3) + 64 * Last3(a2, b2) + 8 * Last3(a1, b1) + Last3(a, b)
    ensures Xor(a, b) == c
  {
    XorBy8(a1, b1, a, b);
    XorBy8(a2, b2, a1, b1);
    XorBy8(a3, b3, a2, b2);
    XorBit(a3, b3, 0);
  }

  lemma XorBit(a: nat, b: nat, z: nat)
    requires a < 2 && b < 2 && z == 0
    ensures Xor(a, b) == Bit(a != b)
  {
    XorDigit(z, a, z, b);
    XorZero(z);
  }

  // ----- the field, as far as it is needed -----

  ghost predicate AddIsXor(F: Field, a: gf, b: gf) { Add(F, a, b) == Xor(a, b) }
  ghost predicate AddsBits(F: Field) { forall a: gf, b: gf {:trigger AddIsXor(F, a, b)} :: AddIsXor(F, a, b) }

  lemma AddOf(F: Field, a: gf, b: gf, c: gf, a1: nat, b1: nat, a2: nat, b2: nat, a3: nat, b3: nat)
    requires AddsBits(F)
    requires a / 8 == a1 && a1 / 8 == a2 && a2 / 8 == a3 < 2 && b / 8 == b1 && b1 / 8 == b2 && b2 / 8 == b3 < 2
    requires c as int == 512 * Bit(a3 != b3) + 64 * Last3(a2, b2) + 8 * Last3(a1, b1) + Last3(a, b)
    ensures Add(F, a, b) == c
  {
    XorOf(a, b, c, a1, b1, a2, b2, a3, b3);
    assert AddIsXor(F, a, b);
  }

  function Four(F: Field, a: gf, b: gf, c: gf, d: gf): gf { Add(F, Add(F, Add(F, a, b), c), d) }

  lemma Sum1(F: Field)
    requires AddsBits(F)
    ensures Four(F, 632, 664, 951, 777) == 94
  {
    assert Add(F, 632, 664) == 224 by { AddOf(F, 632, 664, 224, 79, 83, 9, 10, 1, 1); }
    assert Add(F, 224, 951) == 855 by { AddOf(F, 224, 951, 855, 28, 118, 3, 14, 0, 1); }
    assert Add(F, 855, 777) == 94 by { AddOf(F, 855, 777, 94, 106, 97, 13, 12, 1, 1); }
  }

  lemma Sum2(F: Field)
    requires AddsBits(F)
    ensures Four(F, 632, 313, 711, 126) == 504
  {
    assert Add(F, 632, 313) == 833 by { AddOf(F, 632, 313, 833, 79, 39, 9, 4, 1, 0); }
    assert Add(F, 833, 711) == 390 by { AddOf(F, 833, 711, 390, 104, 88, 13, 11, 1, 1); }
    assert Add(F, 390, 126) == 504 by { AddOf(F, 390, 126, 504, 48, 15, 6, 1, 0, 0); }
  }

  lemma Sum3(F: Field)
    requires AddsBits(F)
    ensures Four(F, 632, 626, 782, 1008) == 244
  {
    assert Add(F, 632, 626) == 10 by { AddOf(F, 632, 626, 10, 79, 78, 9, 9, 1, 1); }
    assert Add(F, 10, 782) == 772 by { AddOf(F, 10, 782, 772, 1, 97, 0, 12, 0, 1); }
    assert Add(F, 772, 1008) == 244 by { AddOf(F, 772, 1008, 244, 96, 126, 12, 15, 1, 1); }
  }

  lemma Sum4(F: Field)
    requires AddsBits(F)
    ensures Four(F, 632, 237, 35, 959) == 265
  {
    assert Add(F, 632, 237) == 661 by { AddOf(F, 632, 237, 661, 79, 29, 9, 3, 1, 0); }
    assert Add(F, 661, 35) == 694 by { AddOf(F, 661, 35, 694, 82, 4, 10, 0, 1, 0); }
    assert Add(F, 694, 959) == 265 by { AddOf(F, 694, 959, 265, 86, 119, 10, 14, 1, 1); }
  }

  // ----- the syndromes -----

  ghost predicate IsContents(bb: seq<gf>) { |bb| == 4 && bb[0] == 632 && bb[1] == 300 && bb[2] == 391 && bb[3] == 933 }

  lemma TermIs(F: Field, b: gf, l: nat, n: nat, j: nat, k: nat, x: nat, t: gf)
    requires IsField(F) && Primitive(F, 2) && Alpha(F, l) == b && x == n * j && k == (l + x) % NN && Alpha(F, k) == t
    ensures Mul(F, b, Power(F, Power(F, 2, n), j)) == t
  {
    PowerPower(F, 2, n, j);
    PowerAdds(F, 2, l, x);
    Period(F, 2, l + x);
  }

  /** One more term of the value of the register contents. */
  lemma ValueIs(F: Field, bb: seq<gf>, z: gf, t1: gf, t2: gf, t3: gf)
    requires IsField(F) && |bb| == 4 && Mul(F, bb[1], Power(F, z, 1)) == t1 && Mul(F, bb[2], Power(F, z, 2)) == t2
      && Mul(F, bb[3], Power(F, z, 3)) == t3
    ensures Eval(F, bb, z, 4) == Four(F, bb[0], t1, t2, t3)
  {
    assert Eval(F, bb, z, 1) == bb[0] by {
      OneMul(F, bb[0]);
      AddsUp(F, bb[0], 0);
      assert Eval(F, bb, z, 0) == 0 && Power(F, z, 0) == 1;
    }
    assert Eval(F, bb, z, 2) == Add(F, bb[0], t1);
    assert Eval(F, bb, z, 3) == Add(F, Add(F, bb[0], t1), t2);
  }

  lemma ErrorIs(F: Field, n: nat)
    requires IsField(F) && Primitive(F, 2)
    ensures ErrorAt(F, [Error(100, 1)], Power(F, 2, n)) == Power(F, 2, n * 100 % NN)
  {
    var errs, z := [Error(100, 1)], Power(F, 2, n);
    OneMul(F, Power(F, z, 100));
    AddsUp(F, Power(F, z, 100), 0);
    assert errs[..0] == [];
    PowerPower(F, 2, n, 100);
    Period(F, 2, n * 100);
  }

  lemma UndoneIs(F: Field, e: gf, k: nat, n: nat)
    requires IsField(F) && Primitive(F, 2) && e == Alpha(F, k)
    ensures Mul(F, e, Power(F, 2, 2038 * n)) == Power(F, 2, (k + 2038 * n) % NN)
  {
    PowerAdds(F, 2, k, 2038 * n);
    Period(F, 2, k + 2038 * n);
  }

  lemma SyndromeIs(F: Field, bb: seq<gf>, i: nat, n: nat, t1: gf, t2: gf, t3: gf, e: gf, k: nat)
    requires IsField(F) && Primitive(F, 2) && |bb| == 4 && i >= 1 && n == 509 + i
    requires var z := Power(F, 2, n);
      Mul(F, bb[1], Power(F, z, 1)) == t1 && Mul(F, bb[2], Power(F, z, 2)) == t2 && Mul(F, bb[3], Power(F, z, 3)) == t3
    requires Four(F, bb[0], t1, t2, t3) == e == Alpha(F, k) && (k + 2038 * n) % NN == n * 100 % NN
    ensures SyndromeAt(F, DOC_CODE, bb, i) == ErrorAt(F, [Error(100, 1)], Beta(F, DOC_CODE, i))
  {
    ValueIs(F, bb, Power(F, 2, n), t1, t2, t3);
    ErrorIs(F, n);
    UndoneIs(F, e, k, n);
    assert FeedbackShift(DOC_CODE, i) == 2038 * n;
  }

  lemma Syndrome1(F: Field, bb: seq<gf>, k: nat, i: nat)
    requires IsField(F) && Primitive(F, 2) && AddsBits(F) && k == 0 && Contents(F, k) && Multiples(F, k)
      && IsContents(bb)
    requires i == 1
    ensures SyndromeAt(F, DOC_CODE, bb, i) == ErrorAt(F, [Error(100, 1)], Beta(F, DOC_CODE, i))
  {
    TermIs(F, 300, k + 851, 510, 1, k + 338, 510, 664);
    TermIs(F, 391, k + 548, 510, 2, k + 545, 1020, 951);
    TermIs(F, 933, k + 457, 510, 3, k + 964, 1530, 777);
    Sum1(F);
    SyndromeIs(F, bb, i, 510, 664, 951, 777, 94, k + 861);
  }

  lemma Syndrome2(F: Field, bb: seq<gf>, k: nat, i: nat)
    requires IsField(F) && Primitive(F, 2) && AddsBits(F) && k == 0 && Contents(F, k) && Multiples(F, k)
      && IsContents(bb)
    requires i == 2
    ensures SyndromeAt(F, DOC_CODE, bb, i) == ErrorAt(F, [Error(100, 1)], Beta(F, DOC_CODE, i))
  {
    TermIs(F, 300, k + 851, 511, 1, k + 339, 511, 313);
    TermIs(F, 391, k + 548, 511, 2, k + 547, 1022, 711);
    TermIs(F, 933, k + 457, 511, 3, k + 967, 1533, 126);
    Sum2(F);
    SyndromeIs(F, bb, i, 511, 313, 711, 126, 504, k + 969);
  }

  lemma Syndrome3(F: Field, bb: seq<gf>, k: nat, i: nat)
    requires IsField(F) && Primitive(F, 2) && AddsBits(F) && k == 0 && Contents(F, k) && Multiples(F, k)
      && IsContents(bb)
    requires i == 3
    ensures SyndromeAt(F, DOC_CODE, bb, i) == ErrorAt(F, [Error(100, 1)], Beta(F, DOC_CODE, i))
  {
    TermIs(F, 300, k + 851, 512, 1, k + 340, 512, 626);
    TermIs(F, 391, k + 548, 512, 2, k + 549, 1024, 782);
    TermIs(F, 933, k + 457, 512, 3, k + 970, 1536, 1008);
    Sum3(F);
    SyndromeIs(F, bb, i, 512, 626, 782, 1008, 244, k + 54);
  }

  lemma Syndrome4(F: Field, bb: seq<gf>, k: nat, i: nat)
    requires IsField(F) && Primitive(F, 2) && AddsBits(F) && k == 0 && Contents(F, k) && Multiples(F, k)
      && IsContents(bb)
    requires i == 4
    ensures SyndromeAt(F, DOC_CODE, bb, i) == ErrorAt(F, [Error(100, 1)], Beta(F, DOC_CODE, i))
  {
    TermIs(F, 300, k + 851, 513, 1, k + 341, 513, 237);
    TermIs(F, 391, k + 548, 513, 2, k + 551, 1026, 35);
    TermIs(F, 933, k + 457, 513, 3, k + 973, 1539, 959);
    Sum4(F);
    SyndromeIs(F, bb, i, 513, 237, 35, 959, 265, k + 162);
  }

  // ----- the run -----

  lemma AllSyndromes(F: Field, bb: seq<gf>, k: nat)
    requires IsField(F) && Primitive(F, 2) && AddsBits(F) && Doubles(F) && IsContents(bb) && k == 0
    ensures Explains(F, DOC_CODE, bb, [Error(100, 1)])
  {
    var errs := [Error(100, 1)];
    AllPowers(F, k);
    forall i: nat {:trigger SyndromeAt(F, DOC_CODE, bb, i)} | 1 <= i <= 4
      ensures SyndromeAt(F, DOC_CODE, bb, i) == ErrorAt(F, errs, Beta(F, DOC_CODE, i))
    {
      if i == 1 { Syndrome1(F, bb, k, i); }
      else if i == 2 { Syndrome2(F, bb, k, i); }
      else if i == 3 { Syndrome3(F, bb, k, i); }
      else { Syndrome4(F, bb, k, i); }
    }
    assert forall i, j {:trigger Apart(errs, i, j)} :: Apart(errs, i, j);
    assert IsPattern(errs);
  }

  lemma OfTheDriver(bb: seq<gf>)
    requires IsContents(bb)
    ensures Explains(Gf10(), DOC_CODE, bb, [Error(100, 1)])
  {
    var F := Gf10();
    LowIsPrimitive();
    SymbolsAre(LOW);
    forall a: gf, b: gf ensures AddIsXor(F, a, b) {}
    forall a: gf {:trigger Mul(F, 2, a)} ensures Mul(F, 2, a) == Next(a) { NextIs(a); }
    AllSyndromes(F, bb, 0);
  }

  /** The bytes after the correction of one error. */
  lemma OneCorrected(s': seq<byte>, s: seq<byte>, p: nat, v: gf, j: int)
    requires |s'| == |s| && p < NB_DATA && AllXor(s', s, [p], [v]) && 0 <= j < |s|
    ensures s'[j] == XorByte(s[j], ErrByte(p, v, j))
  {
    ChangeAdds([], [], p, v, j);
    assert [] + [p] == [p] && [] + [v] == [v];
    XorZero(ErrByte(p, v, j));
    assert Xors(s', s, j, Change([p], [v], j));
  }

  /** Only the last bit of byte 387 of the stream changes. */
  lemma OneBit(j: int)
    ensures ErrByte(100, 1, j) == if j == 387 then 1 else 0
  {
    assert FirstBit(100) == 3094;
  }

  lemma OneParity()
    ensures ErrSum(100, 1, SECTOR_SIZE + 1) == 1
  {
    ErrSumIs(100, 1, SECTOR_SIZE + 1, 386);
    OneBit(386);
    OneBit(387);
    XorZero(1);
  }

  function LastFlipped(b: byte): byte { if b % 2 == 0 then b + 1 else b - 1 }

  lemma OneByteOf(sector': seq<byte>, sector: seq<byte>)
    requires |sector'| == |sector| == SECTOR_SIZE && AllXor(Stream(sector'), Stream(sector), [100], [1])
    ensures sector' == sector[386 := LastFlipped(sector[386])]
  {
    XorOne(sector[386], 1);
    forall i | 0 <= i < SECTOR_SIZE ensures sector'[i] == if i == 386 then LastFlipped(sector[386]) else sector[i]
    {
      var j := Swap(i);
      SwapTwice(i);
      OneCorrected(Stream(sector'), Stream(sector), 100, 1, j);
      OneBit(j);
      XorZero(sector[i]);
    }
  }

  /** The hardware has left these six bytes: the lowest bit of byte 386 is wrong, and it is put right. */
  method DecodeExample(sector: array<byte>, ecc1: seq<byte>) returns (n: int)
    requires sector.Length == SECTOR_SIZE && ecc1 == [233, 1, 116, 88, 120, 178]
    modifies sector
    ensures n == 1
    ensures sector[..] == old(sector[..])[386 := LastFlipped(old(sector[386]))]
  {
    ghost var count, pos, val, el, q;
    OfTheDriver(Register(ecc1));
    n, count, pos, val, el, q := DocDecodeEcc(sector, ecc1);
    OneError(Register(ecc1), 100, 1, count, pos, val);
    ChangeSumAdds([], [], 100, 1, sector.Length + 1);
    assert [] + [100] == pos && [] + [1] == val;
    OneParity();
    NoSum(sector.Length + 1, 1);
    assert Present(pos);
    OneByteOf(sector[..], old(sector[..]));
  }
}
