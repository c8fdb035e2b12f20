/** 2 has order 1023 modulo z^10 + z^3 + 1. */
module Order {
  import opened Fields
  import opened PowerSums
  import opened Logs
  import opened Gf

  const LOW := 9      // 1 + z^3

  function Next(a: gf): gf { if a < 512 then 2 * a else if a % 8 < 4 then 2 * a - 1015 else 2 * a - 1031 }

  lemma XorDigit(x: nat, a: nat, y: nat, b: nat)
    requires a < 2 && b < 2
    ensures Xor(2 * x + a, 2 * y + b) == Bit(a != b) + 2 * Xor(x, y)
  {
    XorSplit(2 * x + a, 2 * y + b);
  }

  lemma XorNine(h: nat, b: nat, c: nat, four: nat)
    requires b < 2 && c < 2 && four == 4
    ensures var x := 4 * h + 2 * b + c; Xor(2 * x, 2 * four + 1) == if h % 2 == 0 then 2 * x + 9 else 2 * x - 7
  {
    XorDigit(4 * h + 2 * b + c, 0, four, 1);
    XorFour(h, b, c, 2, 1);
  }

  lemma XorFour(h: nat, b: nat, c: nat, two: nat, one: nat)
    requires b < 2 && c < 2 && two == 2 && one == 1
    ensures Xor(4 * h + 2 * b + c, 2 * two) == if h % 2 == 0 then 4 * h + 2 * b + c + 4 else 4 * h + 2 * b + c - 4
  {
    XorDigit(2 * h + b, c, two, 0);
    XorDigit(h, b, one, 0);
    XorOne(h, one);
  }

  lemma XorOne(x: nat, one: nat)
    requires one == 1
    ensures Xor(x, one) == if x % 2 == 0 then x + 1 else x - 1
  {
    XorSplit(x, one);
    XorZero(x / 2);
  }

  lemma Digits(x: nat)
    ensures x == 4 * (x / 4) + 2 * (x / 2 % 2) + x % 2
  {}

  /** Bit 2 of a. */
  lemma BitTwo(a: nat, low: nat, h: nat, b: nat, c: nat)
    requires (a == low || a == low + 512) && low == 4 * h + 2 * b + c && b < 2 && c < 2
    ensures a % 8 < 4 <==> h % 2 == 0
  {}

  lemma NextIs(a: gf)
    ensures Xtime(LOW, a) == Next(a)
  {
    var low := Low(a);
    var h, b, c := low / 4, low / 2 % 2, low % 2;
    Digits(low);
    BitTwo(a, low, h, b, c);
    assert Xor(2 * low, 9) == if h % 2 == 0 then 2 * low + 9 else 2 * low - 7 by { XorNine(h, b, c, 4); }
    NextFrom(a, low, h);
  }

  lemma NextFrom(a: gf, low: nat, h: nat)
    requires low == Low(a) && (a % 8 < 4 <==> h % 2 == 0)
    requires Xor(2 * low, 9) == if h % 2 == 0 then 2 * low + 9 else 2 * low - 7
    ensures Xtime(LOW, a) == Next(a)
  {
    XorZero(2 * low);
    var p := LOW;
    assert Sum(2 * low, p) == Xor(2 * low, 9);
  }

  /** All that has to be known of the field here. */
  ghost predicate Doubles(F: Field) { forall a: gf {:trigger Mul(F, 2, a)} :: Mul(F, 2, a) == Next(a) }

  ghost function Alpha(F: Field, k: nat): gf { Power(F, 2, k) }

  /** From power k of 2 to power k + 11. */
  lemma Go(F: Field, k: nat, a: gf, b: gf, c: gf, d: gf, e: gf, f: gf, g: gf, h: gf, i: gf, j: gf, l: gf, m: gf)
    requires Doubles(F) && Alpha(F, k) == a
    requires Next(a) == b && Next(b) == c && Next(c) == d && Next(d) == e && Next(e) == f && Next(f) == g
    requires Next(g) == h && Next(h) == i && Next(i) == j && Next(j) == l && Next(l) == m
    ensures Alpha(F, k + 11) == m
  {
    GoFive(F, k, a, b, c, d, e, f);
    GoFive(F, k + 5, f, g, h, i, j, l);
    assert Alpha(F, k + 10) == l;
  }

  lemma GoFive(F: Field, k: nat, a: gf, b: gf, c: gf, d: gf, e: gf, f: gf)
    requires Doubles(F) && Alpha(F, k) == a && Next(a) == b && Next(b) == c && Next(c) == d && Next(d) == e
      && Next(e) == f
    ensures Alpha(F, k + 5) == f
  {
    assert Alpha(F, k + 1) == b && Alpha(F, k + 2) == c && Alpha(F, k + 3) == d && Alpha(F, k + 4) == e;
  }

  lemma From0(F: Field, k: nat)
    requires Doubles(F) && Alpha(F, k) == 1
    ensures Alpha(F, k + 33) == 620
  {
    Go(F, k, 1, 2, 4, 8, 16, 32, 64, 128, 256, 512, 9, 18);
    Go(F, k + 11, 18, 36, 72, 144, 288, 576, 137, 274, 548, 65, 130, 260);
    Go(F, k + 22, 260, 520, 25, 50, 100, 200, 400, 800, 585, 155, 310, 620);
  }

  lemma From33(F: Field, k: nat)
    requires Doubles(F) && Alpha(F, k) == 620
    ensures Alpha(F, k + 55) == 54
  {
    Go(F, k, 620, 209, 418, 836, 641, 267, 534, 37, 74, 148, 296, 592);
    Go(F, k + 11, 592, 169, 338, 676, 321, 642, 269, 538, 61, 122, 244, 488);
    Go(F, k + 22, 488, 976, 937, 859, 703, 375, 750, 469, 938, 861, 691, 367);
    Go(F, k + 33, 367, 734, 437, 874, 733, 435, 870, 709, 387, 774, 517, 3);
    Go(F, k + 44, 3, 6, 12, 24, 48, 96, 192, 384, 768, 521, 27, 54);
  }

  lemma From88(F: Field, k: nat)
    requires Doubles(F) && Alpha(F, k) == 54
    ensures Alpha(F, k + 55) == 945
  {
    Go(F, k, 54, 108, 216, 432, 864, 713, 411, 822, 613, 195, 390, 780);
    Go(F, k + 11, 780, 529, 43, 86, 172, 344, 688, 361, 722, 429, 858, 701);
    Go(F, k + 22, 701, 371, 742, 453, 906, 797, 563, 111, 222, 444, 888, 761);
    Go(F, k + 33, 761, 507, 1014, 997, 963, 911, 791, 551, 71, 142, 284, 568);
    Go(F, k + 44, 568, 121, 242, 484, 968, 921, 827, 639, 247, 494, 988, 945);
  }

  lemma From143(F: Field, k: nat)
    requires Doubles(F) && Alpha(F, k) == 945
    ensures Alpha(F, k + 55) == 770
  {
    Go(F, k, 945, 875, 735, 439, 878, 725, 419, 838, 645, 259, 518, 5);
    Go(F, k + 11, 5, 10, 20, 40, 80, 160, 320, 640, 265, 530, 45, 90);
    Go(F, k + 22, 90, 180, 360, 720, 425, 850, 685, 339, 678, 325, 650, 285);
    Go(F, k + 33, 285, 570, 125, 250, 500, 1000, 985, 955, 895, 759, 487, 974);
    Go(F, k + 44, 974, 917, 803, 591, 151, 302, 604, 177, 354, 708, 385, 770);
  }

  lemma From198(F: Field, k: nat)
    requires Doubles(F) && Alpha(F, k) == 770
    ensures Alpha(F, k + 55) == 807
  {
    Go(F, k, 770, 525, 19, 38, 76, 152, 304, 608, 201, 402, 804, 577);
    Go(F, k + 11, 577, 139, 278, 556, 81, 162, 324, 648, 281, 562, 109, 218);
    Go(F, k + 22, 218, 436, 872, 729, 443, 886, 741, 451, 902, 773, 515, 15);
    Go(F, k + 33, 15, 30, 60, 120, 240, 480, 960, 905, 795, 575, 119, 238);
    Go(F, k + 44, 238, 476, 952, 889, 763, 511, 1022, 1013, 995, 975, 919, 807);
  }

  lemma From253(F: Field, k: nat)
    requires Doubles(F) && Alpha(F, k) == 807
    ensures Alpha(F, k + 55) == 17
  {
    Go(F, k, 807, 583, 135, 270, 540, 49, 98, 196, 392, 784, 553, 91);
    Go(F, k + 11, 91, 182, 364, 728, 441, 882, 749, 467, 934, 837, 643, 271);
    Go(F, k + 22, 271, 542, 53, 106, 212, 424, 848, 681, 347, 694, 357, 714);
    Go(F, k + 33, 714, 413, 826, 637, 243, 486, 972, 913, 811, 607, 183, 366);
    Go(F, k + 44, 366, 732, 433, 866, 717, 403, 806, 581, 131, 262, 524, 17);
  }

  lemma From308(F: Field, k: nat)
    requires Doubles(F) && Alpha(F, k) == 17
    ensures Alpha(F, k + 33) == 237
  {
    Go(F, k, 17, 34, 68, 136, 272, 544, 73, 146, 292, 584, 153, 306);
    Go(F, k + 11, 306, 612, 193, 386, 772, 513, 11, 22, 44, 88, 176, 352);
    Go(F, k + 22, 352, 704, 393, 786, 557, 83, 166, 332, 664, 313, 626, 237);
  }

  lemma From341(F: Field, k: nat)
    requires Doubles(F) && Alpha(F, k) == 237
    ensures Alpha(F, k + 55) == 854
  {
    Go(F, k, 237, 474, 948, 865, 715, 415, 830, 629, 227, 454, 908, 785);
    Go(F, k + 11, 785, 555, 95, 190, 380, 760, 505, 1010, 1005, 979, 943, 855);
    Go(F, k + 22, 855, 679, 327, 654, 277, 554, 93, 186, 372, 744, 473, 946);
    Go(F, k + 33, 946, 877, 723, 431, 862, 693, 355, 710, 389, 778, 541, 51);
    Go(F, k + 44, 51, 102, 204, 408, 816, 617, 219, 438, 876, 721, 427, 854);
  }

  lemma From396(F: Field, k: nat)
    requires Doubles(F) && Alpha(F, k) == 854
    ensures Alpha(F, k + 55) == 223
  {
    Go(F, k, 854, 677, 323, 646, 261, 522, 29, 58, 116, 232, 464, 928);
    Go(F, k + 11, 928, 841, 667, 319, 638, 245, 490, 980, 929, 843, 671, 311);
    Go(F, k + 22, 311, 622, 213, 426, 852, 673, 331, 662, 293, 586, 157, 314);
    Go(F, k + 33, 314, 628, 225, 450, 900, 769, 523, 31, 62, 124, 248, 496);
    Go(F, k + 44, 496, 992, 969, 923, 831, 631, 231, 462, 924, 817, 619, 223);
  }

  lemma From451(F: Field, k: nat)
    requires Doubles(F) && Alpha(F, k) == 223
    ensures Alpha(F, k + 55) == 846
  {
    Go(F, k, 223, 446, 892, 753, 491, 982, 933, 835, 655, 279, 558, 85);
    Go(F, k + 11, 85, 170, 340, 680, 345, 690, 365, 730, 445, 890, 765, 499);
    Go(F, k + 22, 499, 998, 965, 899, 783, 535, 39, 78, 156, 312, 624, 233);
    Go(F, k + 33, 233, 466, 932, 833, 651, 287, 574, 117, 234, 468, 936, 857);
    Go(F, k + 44, 857, 699, 383, 766, 501, 1002, 989, 947, 879, 727, 423, 846);
  }

  lemma From506(F: Field, k: nat)
    requires Doubles(F) && Alpha(F, k) == 846
    ensures Alpha(F, k + 55) == 315
  {
    Go(F, k, 846, 661, 291, 582, 133, 266, 532, 33, 66, 132, 264, 528);
    Go(F, k + 11, 528, 41, 82, 164, 328, 656, 297, 594, 173, 346, 692, 353);
    Go(F, k + 22, 353, 706, 397, 794, 573, 115, 230, 460, 920, 825, 635, 255);
    Go(F, k + 33, 255, 510, 1020, 1009, 1003, 991, 951, 871, 711, 391, 782, 533);
    Go(F, k + 44, 533, 35, 70, 140, 280, 560, 105, 210, 420, 840, 665, 315);
  }

  lemma From561(F: Field, k: nat)
    requires Doubles(F) && Alpha(F, k) == 315
    ensures Alpha(F, k + 55) == 257
  {
    Go(F, k, 315, 630, 229, 458, 916, 801, 587, 159, 318, 636, 241, 482);
    Go(F, k + 11, 482, 964, 897, 779, 543, 55, 110, 220, 440, 880, 745, 475);
    Go(F, k + 22, 475, 950, 869, 707, 399, 798, 565, 99, 198, 396, 792, 569);
    Go(F, k + 33, 569, 123, 246, 492, 984, 953, 891, 767, 503, 1006, 981, 931);
    Go(F, k + 44, 931, 847, 663, 295, 590, 149, 298, 596, 161, 322, 644, 257);
  }

  lemma From616(F: Field, k: nat)
    requires Doubles(F) && Alpha(F, k) == 257
    ensures Alpha(F, k + 55) == 578
  {
    Go(F, k, 257, 514, 13, 26, 52, 104, 208, 416, 832, 649, 283, 566);
    Go(F, k + 11, 566, 101, 202, 404, 808, 601, 187, 374, 748, 465, 930, 845);
    Go(F, k + 22, 845, 659, 303, 606, 181, 362, 724, 417, 834, 653, 275, 550);
    Go(F, k + 33, 550, 69, 138, 276, 552, 89, 178, 356, 712, 409, 818, 621);
    Go(F, k + 44, 621, 211, 422, 844, 657, 299, 598, 165, 330, 660, 289, 578);
  }

  lemma From671(F: Field, k: nat)
    requires Doubles(F) && Alpha(F, k) == 578
    ensures Alpha(F, k + 55) == 611
  {
    Go(F, k, 578, 141, 282, 564, 97, 194, 388, 776, 537, 59, 118, 236);
    Go(F, k + 11, 236, 472, 944, 873, 731, 447, 894, 757, 483, 966, 901, 771);
    Go(F, k + 22, 771, 527, 23, 46, 92, 184, 368, 736, 457, 914, 813, 595);
    Go(F, k + 33, 595, 175, 350, 700, 369, 738, 461, 922, 829, 627, 239, 478);
    Go(F, k + 44, 478, 956, 881, 747, 479, 958, 885, 739, 463, 926, 821, 611);
  }

  lemma From726(F: Field, k: nat)
    requires Doubles(F) && Alpha(F, k) == 611
    ensures Alpha(F, k + 55) == 764
  {
    Go(F, k, 611, 207, 414, 828, 625, 235, 470, 940, 849, 683, 351, 702);
    Go(F, k + 11, 702, 373, 746, 477, 954, 893, 755, 495, 990, 949, 867, 719);
    Go(F, k + 22, 719, 407, 814, 597, 163, 326, 652, 273, 546, 77, 154, 308);
    Go(F, k + 33, 308, 616, 217, 434, 868, 705, 395, 790, 549, 67, 134, 268);
    Go(F, k + 44, 268, 536, 57, 114, 228, 456, 912, 809, 603, 191, 382, 764);
  }

  lemma From781(F: Field, k: nat)
    requires Doubles(F) && Alpha(F, k) == 764
    ensures Alpha(F, k + 55) == 860
  {
    Go(F, k, 764, 497, 994, 973, 915, 815, 599, 167, 334, 668, 305, 610);
    Go(F, k + 11, 610, 205, 410, 820, 609, 203, 406, 812, 593, 171, 342, 684);
    Go(F, k + 22, 684, 337, 674, 333, 666, 317, 634, 253, 506, 1012, 993, 971);
    Go(F, k + 33, 971, 927, 823, 615, 199, 398, 796, 561, 107, 214, 428, 856);
    Go(F, k + 44, 856, 697, 379, 758, 485, 970, 925, 819, 623, 215, 430, 860);
  }

  lemma From836(F: Field, k: nat)
    requires Doubles(F) && Alpha(F, k) == 860
    ensures Alpha(F, k + 55) == 84
  {
    Go(F, k, 860, 689, 363, 726, 421, 842, 669, 307, 614, 197, 394, 788);
    Go(F, k + 11, 788, 545, 75, 150, 300, 600, 185, 370, 740, 449, 898, 781);
    Go(F, k + 22, 781, 531, 47, 94, 188, 376, 752, 489, 978, 941, 851, 687);
    Go(F, k + 33, 687, 343, 686, 341, 682, 349, 698, 381, 762, 509, 1018, 1021);
    Go(F, k + 44, 1021, 1011, 1007, 983, 935, 839, 647, 263, 526, 21, 42, 84);
  }

  lemma From891(F: Field, k: nat)
    requires Doubles(F) && Alpha(F, k) == 84
    ensures Alpha(F, k + 55) == 1016
  {
    Go(F, k, 84, 168, 336, 672, 329, 658, 301, 602, 189, 378, 756, 481);
    Go(F, k + 11, 481, 962, 909, 787, 559, 87, 174, 348, 696, 377, 754, 493);
    Go(F, k + 22, 493, 986, 957, 883, 751, 471, 942, 853, 675, 335, 670, 309);
    Go(F, k + 33, 309, 618, 221, 442, 884, 737, 459, 918, 805, 579, 143, 286);
    Go(F, k + 44, 286, 572, 113, 226, 452, 904, 793, 571, 127, 254, 508, 1016);
  }

  lemma From946(F: Field, k: nat)
    requires Doubles(F) && Alpha(F, k) == 1016
    ensures Alpha(F, k + 55) == 863
  {
    Go(F, k, 1016, 1017, 1019, 1023, 1015, 999, 967, 903, 775, 519, 7, 14);
    Go(F, k + 11, 14, 28, 56, 112, 224, 448, 896, 777, 539, 63, 126, 252);
    Go(F, k + 22, 252, 504, 1008, 1001, 987, 959, 887, 743, 455, 910, 789, 547);
    Go(F, k + 33, 547, 79, 158, 316, 632, 249, 498, 996, 961, 907, 799, 567);
    Go(F, k + 44, 567, 103, 206, 412, 824, 633, 251, 502, 1004, 977, 939, 863);
  }

  lemma From1001(F: Field, k: nat)
    requires Doubles(F) && Alpha(F, k) == 863
    ensures Alpha(F, k + 22) == 1
  {
    Go(F, k, 863, 695, 359, 718, 405, 810, 605, 179, 358, 716, 401, 802);
    Go(F, k + 11, 802, 589, 147, 294, 588, 145, 290, 580, 129, 258, 516, 1);
  }

  lemma From88To93(F: Field, k: nat)
    requires Doubles(F) && Alpha(F, k) == 54
    ensures Alpha(F, k + 5) == 713
  {
    assert Alpha(F, k + 1) == 108 && Alpha(F, k + 2) == 216 && Alpha(F, k + 3) == 432 && Alpha(F, k + 4) == 864;
  }

  /** Power `one` of 2 is 1, and powers `i`, `j` and `l` are not. */
  lemma Landmarks(F: Field, k: nat, l: nat, j: nat, i: nat, one: nat)
    requires Doubles(F) && k == 0 && l == 33 && j == 93 && i == 341 && one == NN
    ensures Alpha(F, l) != 1 && Alpha(F, j) != 1 && Alpha(F, i) != 1 && Alpha(F, one) == 1
  {
    assert Alpha(F, k) == 1;
    From0(F, k);
    From33(F, k + 33);
    From88To93(F, k + 88);
    From88(F, k + 88);
    From143(F, k + 143);
    From198(F, k + 198);
    From253(F, k + 253);
    From308(F, k + 308);
    ToTheEnd(F, i);
  }

  /** From power 341 to power 1023. */
  lemma ToTheEnd(F: Field, i: nat)
    requires Doubles(F) && i == 341 && Alpha(F, i) == 237
    ensures Alpha(F, i + 682) == 1
  {
    From341(F, i);
    From396(F, i + 55);
    From451(F, i + 110);
    From506(F, i + 165);
    From561(F, i + 220);
    From616(F, i + 275);
    From671(F, i + 330);
    From726(F, i + 385);
    From781(F, i + 440);
    From836(F, i + 495);
    From891(F, i + 550);
    From946(F, i + 605);
    From1001(F, i + 660);
  }

  /** The field of the decoder. */
  lemma LowIsPrimitive()
    ensures IsRing(Symbols(LOW)) && Primitive(Symbols(LOW), 2) && IsField(Symbols(LOW))
  {
    SymbolsAre(LOW);
    forall a: gf {:trigger Mul(Symbols(LOW), 2, a)} ensures Mul(Symbols(LOW), 2, a) == Next(a) { NextIs(a); }
    OrderOfTwo(Symbols(LOW));
  }

  lemma OrderOfTwo(F: Field)
    requires IsRing(F) && Doubles(F)
    ensures Primitive(F, 2) && IsField(F)
  {
    Landmarks(F, 0, 33, 93, 341, NN);
    forall k: nat {:trigger Power(F, 2, k)} | 0 < k < NN ensures Power(F, 2, k) != 1 {
      OrderIsFull(F, 2, k);
    }
    RingIsField(F, 2);
  }
}
