/** Sums of bytes, of which block checks and checksums are made. */
module ByteSums {
  import opened Basics

  function Sum(s: seq<byte>): nat { if |s| == 0 then 0 else Sum(s[..|s| - 1]) + s[|s| - 1] }

  lemma {:induction false} SumAdds(s: seq<byte>, t: seq<byte>)
    ensures Sum(s + t) == Sum(s) + Sum(t)
    decreases |t|
  {
    if |t| == 0 {
      assert s + t == s;
    } else {
      assert (s + t)[..|s + t| - 1] == s + t[..|t| - 1];
      SumAdds(s, t[..|t| - 1]);
    }
  }

  lemma SumOne(c: byte)
    ensures Sum([c]) == c
  {
    assert [c][..0] == [] && Sum([c][..0]) == 0;
  }
}
