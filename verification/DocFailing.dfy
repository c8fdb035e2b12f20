/** doc_decode_ecc can return -1 with a sector that it has changed. */
module DocFailing {
  import opened Basics
  import opened Fields
  import opened Order
  import opened ErrorPatterns
  import opened Decoder
  import opened Registers
  import opened DocEcc

  /** ECC bytes with these register contents. */
  function EccBytes(bb: seq<gf>, parity: byte): (ecc1: seq<byte>)
    requires |bb| == 4
    ensures |ecc1| == 6 && ecc1[1] == parity
  {
    var a: int, b: int, c: int, d: int := bb[0], bb[1], bb[2], bb[3];
    [d / 4, parity, b / 64 + c % 16 * 16, c / 16 + d % 4 * 64, a % 256, a / 256 + b % 64 * 4]
  }

  lemma LowSymbol(a: int, b: int, e: int, f: int)
    requires e == a % 256 && f == a / 256 + b % 64 * 4 && 0 <= a < 1024
    ensures e + f % 4 * 256 == a && f / 4 == b % 64
  {}

  lemma SymbolBytes(b: int, c: int, f: int, x: int)
    requires x == b / 64 + c % 16 * 16 && 0 <= b < 1024 && f / 4 == b % 64
    ensures f / 4 + x % 16 * 64 == b && x / 16 == c % 16
  {}

  lemma HighSymbols(c: int, d: int, x: int, y: int)
    requires y == c / 16 + d % 4 * 64 && 0 <= c < 1024 && x / 16 == c % 16
    ensures x / 16 + y % 64 * 16 == c && y / 64 == d % 4
  {}

  lemma LastSymbol(d: int, y: int, a: int)
    requires a == d / 4 && y / 64 == d % 4
    ensures y / 64 + a * 4 == d
  {}

  lemma RegisterBack(bb: seq<gf>, parity: byte)
    requires |bb| == 4
    ensures Register(EccBytes(bb, parity)) == bb
  {
    var ecc1 := EccBytes(bb, parity);
    LowSymbol(bb[0], bb[1], ecc1[4], ecc1[5]);
    SymbolBytes(bb[1], bb[2], ecc1[5], ecc1[2]);
    HighSymbols(bb[2], bb[3], ecc1[2], ecc1[3]);
    LastSymbol(bb[3], ecc1[3], ecc1[0]);
  }

  /** For every pattern of errors there are ECC bytes, with any parity. */
  lemma EccExists(errs: seq<Error>, parity: byte) returns (ecc1: seq<byte>)
    requires IsPattern(errs)
    ensures |ecc1| == 6 && ecc1[1] == parity && Explains(Gf10(), DOC_CODE, Register(ecc1), errs)
  {
    LowIsPrimitive();
    var bb := RegisterOf(Gf10(), DOC_CODE, errs, 4);
    EveryPatternExplained(Gf10(), DOC_CODE, errs, 4);
    ecc1 := EccBytes(bb, parity);
    RegisterBack(bb, parity);
  }

  /** The only error is the answer. */
  lemma OneError(bb: seq<gf>, p: nat, v: gf, count: int, pos: seq<int>, val: seq<gf>)
    requires |bb| == 4 && Explains(Gf10(), DOC_CODE, bb, [Error(p, v)]) && Answer(Gf10(), DOC_CODE, bb, count, pos, val)
    ensures count == 1 && pos == [p] && val == [v]
  {
    var errs := [Error(p, v)];
    TwoErrors(bb, errs, count, pos, val);
    assert Listed(errs, pos, val, 0);
  }

  /** Whenever there is one error in the sector and the parity byte does not agree with it. */
  method DecodeOneError(sector: array<byte>, ecc1: seq<byte>, ghost p: nat, ghost v: gf) returns (n: int)
    requires sector.Length == SECTOR_SIZE && |ecc1| == 6 && Explains(Gf10(), DOC_CODE, Register(ecc1), [Error(p, v)])
    requires Touches(p, v)
    modifies sector
    ensures sector[..] != old(sector[..])
    ensures n == if ErrSum(p, v, SECTOR_SIZE + 1) == ecc1[1] then 1 else -1
  {
    ghost var count, pos, val, el, q;
    n, count, pos, val, el, q := DocDecodeEcc(sector, ecc1);
    OneError(Register(ecc1), p, v, count, pos, val);
    ChangeSumAdds([], [], p, v, sector.Length + 1);
    assert [] + [p as int] == pos && [] + [v] == val;
    NoSum(sector.Length + 1, ErrSum(p, v, sector.Length + 1));
    assert Present(pos);
    assert Touches(pos[0], val[0]);
  }

  /** There is such an input, for every error that is in the sector. */
  lemma FailingInput(p: nat, v: gf) returns (ecc1: seq<byte>)
    requires Touches(p, v)
    ensures |ecc1| == 6 && Explains(Gf10(), DOC_CODE, Register(ecc1), [Error(p, v)])
      && ErrSum(p, v, SECTOR_SIZE + 1) != ecc1[1]
  {
    ecc1 := EccExists([Error(p, v)], if ErrSum(p, v, SECTOR_SIZE + 1) == 0 then 1 else 0);
  }

  /** Errors that are not noticed: the result is 0, but the register is not that of a word without errors. */
  method DecodeUnnoticed(sector: array<byte>, ecc1: seq<byte>) returns (n: int)
    requires sector.Length == SECTOR_SIZE && |ecc1| == 6 && FirstSyndromeOnly(Gf10(), DOC_CODE, Register(ecc1))
    modifies sector
    ensures n == 0 && sector[..] == old(sector[..]) && !ListExplains(Gf10(), DOC_CODE, Register(ecc1), [], [])
  {
    ghost var count, pos, val, el, q;
    n, count, pos, val, el, q := DocDecodeEcc(sector, ecc1);
    LowIsPrimitive();
    TakenForNone(Gf10(), DOC_CODE, Register(ecc1), count, el, q);
    assert pos == [] && val == [];
  }

  lemma UnnoticedInput() returns (ecc1: seq<byte>)
    ensures |ecc1| == 6 && FirstSyndromeOnly(Gf10(), DOC_CODE, Register(ecc1))
  {
    LowIsPrimitive();
    var bb := FirstSyndromeRegister(Gf10(), DOC_CODE, 4);
    ecc1 := EccBytes(bb, 0);
    RegisterBack(bb, 0);
  }

  lemma NoSum(size: nat, x: byte)
    ensures XorByte(ChangeSum([], [], size), x) == x
  {
    for n := 0 to size
      invariant ChangeSum([], [], n) == 0
    {
      Gf.XorZero(0);
    }
    Gf.XorZero(x);
  }
}
