/** asmppc and the numbers that the disassembler finds in the word. */
module Assembler {
  import opened Bits
  import opened Instructions
  import opened OpcodeTable

  const WORD := 0x1_0000_0000

  datatype Error = BadOpcode | NumOperands | BadRegister | BadSpr | BadTbr

  datatype Result<T> = Ok(value: T) | Err(error: Error)

  /** As a signed 32-bit number. */
  function Signed(x: int): int { (x + 0x8000_0000) % WORD - 0x8000_0000 }

  // ----- one operand -----

  /** The halves of the number of a special register: ((i >> 5) & 0x1f) | ((i & 0x1f) << 5). */
  function Swap(i: int): nat { i / 32 % 32 + i % 32 * 32 }

  /** How far the operand is from the place where it is used. */
  function Distance(e: Opcode, memaddr: nat, n: int): int { if e.relative then Signed(n - memaddr) else n }

  /** What an operand, which says n, puts into its field. */
  function FieldValue(e: Opcode, o: Operand, memaddr: nat, n: int): Result<int> {
    match o.hint
    case Address =>
      if o.bits == 0 then Ok(0) else
        var d := Distance(e, memaddr, n);
        Ok(Lowest(d / 4, o.bits - 1) + if d < 0 then Pow2(o.bits - 1) else 0)
    case Register => if n > 31 then Err(BadRegister) else Ok(n)
    case Special => if Swap(n) == 0 then Err(BadSpr) else Ok(Swap(n))
    case TimeBase => if n == 268 || n == 269 then Ok(Swap(n)) else Err(BadTbr)
    case _ => Ok(n)
  }

  /** parse_operand, for an operand the text of which says n. */
  method ParseOperand(memaddr: nat, e: Opcode, o: Operand, n: int) returns (r: Result<nat>)
    requires Fitting(o)
    ensures r == Parsed(e, o, memaddr, n)
  {
    var data := n;
    if o.hint == Address {
      if e.relative { data := Signed(data - memaddr); }
      var isNeg := data < 0;
      data := Lowest(data / 4, o.bits - 1);          // data >>= 2; data &= mask >> 1
      if isNeg { data := data + Pow2(o.bits - 1); }        // the bit is clear
    } else if o.hint == Register {
      if data > 31 { return Err(BadRegister); }
    } else if o.hint == Special {
      data := Swap(data);
      if data == 0 { return Err(BadSpr); }
    } else if o.hint == TimeBase {
      if data != 268 && data != 269 { return Err(BadTbr); }
      data := Swap(data);
    }
    r := Ok(Place(data, o.shift, o.bits));
  }

  function Parsed(e: Opcode, o: Operand, memaddr: nat, n: int): Result<nat> {
    match FieldValue(e, o, memaddr, n)
    case Err(error) => Err(error)
    case Ok(v) => Ok(Place(v, o.shift, o.bits))
  }

  // ----- all operands -----

  /** How many of the first k operands are written. */
  function SpokenBefore(ops: seq<Operand>, e: Opcode, k: nat): nat
    requires Numbered(ops, e) && k <= |e.fields|
  { if k == 0 then 0 else SpokenBefore(ops, e, k - 1) + if OperandAt(ops, e, k - 1).hint == Silent then 0 else 1 }

  /** The word after k operands, or the first error. */
  function Assembled(ops: seq<Operand>, e: Opcode, memaddr: nat, args: seq<int>, k: nat): Result<nat>
    requires Numbered(ops, e) && k <= |e.fields|
  {
    if k == 0 then Ok(e.opcode) else
      var o, m := OperandAt(ops, e, k - 1), SpokenBefore(ops, e, k - 1);
      match Assembled(ops, e, memaddr, args, k - 1)
      case Err(error) => Err(error)
      case Ok(instr) =>
        if o.hint == Silent then Ok(instr)
        else if m >= |args| then Err(NumOperands)
        else
          match Parsed(e, o, memaddr, args[m])
          case Err(error) => Err(error)
          case Ok(p) => Ok(Or(instr, p))
  }

  lemma {:induction false} ErrorStays(ops: seq<Operand>, e: Opcode, memaddr: nat, args: seq<int>, k: nat, l: nat)
    requires Numbered(ops, e) && k <= l <= |e.fields| && Assembled(ops, e, memaddr, args, k).Err?
    ensures Assembled(ops, e, memaddr, args, l) == Assembled(ops, e, memaddr, args, k)
    decreases l
  {
    if k < l { ErrorStays(ops, e, memaddr, args, k, l - 1); }
  }

  /** asmppc, for a name and the numbers of the operands; what is left of these does not matter. */
  method Asmppc(t: seq<Opcode>, ops: seq<Operand>, memaddr: nat, name: string, args: seq<int>)
    returns (r: Result<nat>, ghost i: nat)
    requires forall j {:trigger t[j]} :: 0 <= j < |t| ==> Numbered(ops, t[j])
    ensures (forall j {:trigger t[j]} :: 0 <= j < |t| ==> t[j].name != name) ==> r == Err(BadOpcode)
    ensures (exists j {:trigger t[j]} :: 0 <= j < |t| && t[j].name == name) ==>
      i < |t| && t[i].name == name && (forall j {:trigger t[j]} :: 0 <= j < i ==> t[j].name != name)
        && r == Assembled(ops, t[i], memaddr, args, |t[i].fields|)
  {
    var found := FindOpcodeByName(t, name);
    if found.None? { return Err(BadOpcode), 0; }
    i := found.value;
    r := AsmOperands(ops, t[found.value], memaddr, args);
  }

  method AsmOperands(ops: seq<Operand>, e: Opcode, memaddr: nat, args: seq<int>) returns (r: Result<nat>)
    requires Numbered(ops, e)
    ensures r == Assembled(ops, e, memaddr, args, |e.fields|)
  {
    var instr, k, next := e.opcode, 0, 0;
    while k < |e.fields|
      invariant k <= |e.fields| && next == SpokenBefore(ops, e, k)
      invariant Assembled(ops, e, memaddr, args, k) == Ok(instr)
    {
      var o := ops[e.fields[k] - 1];
      if o.hint != Silent {
        if next >= |args| {
          ErrorStays(ops, e, memaddr, args, k + 1, |e.fields|);
          return Err(NumOperands);
        }
        var param := ParseOperand(memaddr, e, o, args[next]);
        if param.Err? {
          ErrorStays(ops, e, memaddr, args, k + 1, |e.fields|);
          return param;
        }
        instr, next := Or(instr, param.value), next + 1;
      }
      k := k + 1;
    }
    r := Ok(instr);
  }

  /** get_operand_value */
  method GetOperandValue(ops: seq<Operand>, e: Opcode, instr: nat, field: nat) returns (found: bool, value: nat)
    requires Numbered(ops, e)
    ensures found <==> field in e.fields
    ensures found ==> 1 <= field <= |ops| && value == Extract(instr, ops[field - 1].shift, ops[field - 1].bits)
  {
    if field > |ops| { return false, 0; }
    for i := 0 to |e.fields|
      invariant field !in e.fields[..i]
    {
      if e.fields[i] == field {
        var o := ops[field - 1];
        return true, Extract(instr, o.shift, o.bits);
      }
    }
    assert e.fields[..|e.fields|] == e.fields;
    found, value := false, 0;
  }

  // ----- what is found again -----

  /** There is a number for operand k, which is no error... */
  ghost predicate Said(ops: seq<Operand>, e: Opcode, memaddr: nat, args: seq<int>, k: nat)
    requires Numbered(ops, e) && k < |e.fields|
  {
    SpokenBefore(ops, e, k) < |args| && FieldValue(e, OperandAt(ops, e, k), memaddr, args[SpokenBefore(ops, e, k)]).Ok?
  }

  /** ... and this is put into the word. */
  ghost function Put(ops: seq<Operand>, e: Opcode, memaddr: nat, args: seq<int>, k: nat): int
    requires Numbered(ops, e) && k < |e.fields|
  {
    if Said(ops, e, memaddr, args, k)
      then FieldValue(e, OperandAt(ops, e, k), memaddr, args[SpokenBefore(ops, e, k)]).value else 0
  }

  /** After k operands: the opcode, the fields of these operands, and nothing in the others. */
  ghost predicate Built(ops: seq<Operand>, e: Opcode, memaddr: nat, args: seq<int>, k: nat, instr: nat)
    requires Numbered(ops, e) && k <= |e.fields|
  {
    And(instr, e.mask) == e.opcode && forall j: nat {:trigger FieldBuilt(ops, e, memaddr, args, k, instr, j)} ::
      j < |e.fields| ==> FieldBuilt(ops, e, memaddr, args, k, instr, j)
  }

  ghost predicate FieldBuilt(ops: seq<Operand>, e: Opcode, memaddr: nat, args: seq<int>, k: nat, instr: nat, j: nat)
    requires Numbered(ops, e) && j < |e.fields|
  {
    var o := OperandAt(ops, e, j);
    o.hint != Silent ==>
      if j < k then Said(ops, e, memaddr, args, j)
        && Extract(instr, o.shift, o.bits) == Lowest(Put(ops, e, memaddr, args, j), o.bits)
      else Extract(instr, o.shift, o.bits) == 0
  }

  lemma FieldNext(ops: seq<Operand>, e: Opcode, memaddr: nat, args: seq<int>, k: nat, instr: nat, instr': nat, j: nat)
    requires WellFormed(ops, e) && k < |e.fields| && j < |e.fields| && OperandAt(ops, e, k).hint != Silent
    requires FieldBuilt(ops, e, memaddr, args, k, instr, j)
    requires Said(ops, e, memaddr, args, k)
    requires instr' == Or(instr,
        Place(Put(ops, e, memaddr, args, k), OperandAt(ops, e, k).shift, OperandAt(ops, e, k).bits))
    ensures FieldBuilt(ops, e, memaddr, args, k + 1, instr', j)
  {
    var o, o', v := OperandAt(ops, e, k), OperandAt(ops, e, j), Put(ops, e, memaddr, args, k);
    if j == k {
      PlacedIsExtracted(instr, v, o.shift, o.bits);
    } else if o'.hint != Silent {
      assert e.fields[j] != e.fields[k] && (if j < k then Disjoint(o', o) else Disjoint(o, o'));
      OthersKept(instr, v, o.shift, o.bits, o'.shift, o'.bits);
    }
  }

  lemma BuiltNext(ops: seq<Operand>, e: Opcode, memaddr: nat, args: seq<int>, k: nat, instr: nat, instr': nat)
    requires WellFormed(ops, e) && k < |e.fields| && Built(ops, e, memaddr, args, k, instr)
    requires Assembled(ops, e, memaddr, args, k) == Ok(instr) && Assembled(ops, e, memaddr, args, k + 1) == Ok(instr')
    ensures Built(ops, e, memaddr, args, k + 1, instr')
  {
    var o := OperandAt(ops, e, k);
    if o.hint != Silent {
      var v := Put(ops, e, memaddr, args, k);
      assert instr' == Or(instr, Place(v, o.shift, o.bits));
      assert e.fields[k] > 0;
      MaskKept(instr, v, o.shift, o.bits, e.mask);
    }
    forall j: nat {:trigger FieldBuilt(ops, e, memaddr, args, k + 1, instr', j)} | j < |e.fields|
      ensures FieldBuilt(ops, e, memaddr, args, k + 1, instr', j)
    {
      assert FieldBuilt(ops, e, memaddr, args, k, instr, j);
      if o.hint != Silent { FieldNext(ops, e, memaddr, args, k, instr, instr', j); }
    }
  }

  lemma BuiltStart(ops: seq<Operand>, e: Opcode, memaddr: nat, args: seq<int>)
    requires WellFormed(ops, e)
    ensures Built(ops, e, memaddr, args, 0, e.opcode)
  {
    forall j: nat {:trigger FieldBuilt(ops, e, memaddr, args, 0, e.opcode, j)} | j < |e.fields|
      ensures FieldBuilt(ops, e, memaddr, args, 0, e.opcode, j)
    {
      var o := OperandAt(ops, e, j);
      assert e.fields[j] >= 1;
      if o.hint != Silent { NothingOutside(e.opcode, e.mask, o.shift, o.bits); }
    }
  }

  /** Every operand is in its field, and the word has the opcode. */
  lemma {:induction false} AllBuilt(ops: seq<Operand>, e: Opcode, memaddr: nat, args: seq<int>, k: nat)
    requires WellFormed(ops, e) && k <= |e.fields| && Assembled(ops, e, memaddr, args, k).Ok?
    ensures Built(ops, e, memaddr, args, k, Assembled(ops, e, memaddr, args, k).value)
    decreases k
  {
    if k == 0 {
      BuiltStart(ops, e, memaddr, args);
    } else {
      AllBuilt(ops, e, memaddr, args, k - 1);
      BuiltNext(ops, e, memaddr, args, k - 1, Assembled(ops, e, memaddr, args, k - 1).value,
                Assembled(ops, e, memaddr, args, k).value);
    }
  }

  /** The opcode, and every operand that is written times the power of two of its place. */
  ghost function PlacedSum(ops: seq<Operand>, e: Opcode, memaddr: nat, args: seq<int>, k: nat): nat
    requires Numbered(ops, e) && k <= |e.fields|
  {
    if k == 0 then e.opcode else
      var o := OperandAt(ops, e, k - 1);
      PlacedSum(ops, e, memaddr, args, k - 1)
      + if o.hint == Silent then 0 else Lowest(Put(ops, e, memaddr, args, k - 1), o.bits) * Pow2(o.shift)
  }

  /** The word is this sum: no two parts overlap. */
  lemma {:induction false} WordIsSum(ops: seq<Operand>, e: Opcode, memaddr: nat, args: seq<int>, k: nat)
    requires WellFormed(ops, e) && k <= |e.fields| && Assembled(ops, e, memaddr, args, k).Ok?
    ensures Assembled(ops, e, memaddr, args, k).value == PlacedSum(ops, e, memaddr, args, k)
    decreases k
  {
    if k > 0 {
      WordIsSum(ops, e, memaddr, args, k - 1);
      var instr, o := Assembled(ops, e, memaddr, args, k - 1).value, OperandAt(ops, e, k - 1);
      if o.hint != Silent {
        AllBuilt(ops, e, memaddr, args, k - 1);
        assert FieldBuilt(ops, e, memaddr, args, k - 1, instr, k - 1);
        OnePlaced(ops, e, memaddr, args, k);
        PlacedIsAdded(instr, Put(ops, e, memaddr, args, k - 1), o.shift, o.bits);
      }
    }
  }

  /** The disassembler finds the entry of the assembler, and no other. */
  lemma FoundAgain(t: seq<Opcode>, ops: seq<Operand>, i: nat, memaddr: nat, args: seq<int>, j: nat)
    requires Ordered(t) && i < |t| && j < |t| && WellFormed(ops, t[i])
      && Assembled(ops, t[i], memaddr, args, |t[i].fields|).Ok?
    ensures Matches(t[j], Assembled(ops, t[i], memaddr, args, |t[i].fields|).value) <==> j == i
  {
    AllBuilt(ops, t[i], memaddr, args, |t[i].fields|);
    var instr := Assembled(ops, t[i], memaddr, args, |t[i].fields|).value;
    if Matches(t[j], instr) { OneEntry(t, instr, i, j); }
  }

  /** It is a 32-bit word. */
  lemma {:induction false} WordBuilt(ops: seq<Operand>, e: Opcode, memaddr: nat, args: seq<int>, k: nat, n: nat)
    requires WellFormed(ops, e) && k <= |e.fields| && Assembled(ops, e, memaddr, args, k).Ok? && n == 32
    ensures Assembled(ops, e, memaddr, args, k).value < Pow2(n)
    decreases k
  {
    if k > 0 {
      WordBuilt(ops, e, memaddr, args, k - 1, n);
      var o, v := OperandAt(ops, e, k - 1), Put(ops, e, memaddr, args, k - 1);
      if o.hint != Silent {
        assert e.fields[k - 1] > 0;
        OnePlaced(ops, e, memaddr, args, k);
        PlacedBound(Assembled(ops, e, memaddr, args, k - 1).value, v, o.shift, o.bits, n);
      }
    }
  }

  lemma OnePlaced(ops: seq<Operand>, e: Opcode, memaddr: nat, args: seq<int>, k: nat)
    requires Numbered(ops, e) && 0 < k <= |e.fields| && Assembled(ops, e, memaddr, args, k).Ok?
    requires OperandAt(ops, e, k - 1).hint != Silent
    ensures Assembled(ops, e, memaddr, args, k - 1).Ok?
    ensures Assembled(ops, e, memaddr, args, k).value ==
      Or(Assembled(ops, e, memaddr, args, k - 1).value,
         Place(Put(ops, e, memaddr, args, k - 1), OperandAt(ops, e, k - 1).shift, OperandAt(ops, e, k - 1).bits))
  {
    assert e.fields[k - 1] > 0;
  }

  lemma PlacedBound(word: nat, v: int, shift: nat, bits: nat, n: nat)
    requires word < Pow2(n) && shift + bits <= n
    ensures Or(word, Place(v, shift, bits)) < Pow2(n)
  {
    PlaceBound(v, shift, bits, n);
    OrBound(word, Place(v, shift, bits), n);
  }

  // ----- what the operands say again -----

  /** Registers and plain numbers that fit their fields are read back. */
  lemma NumberBack(e: Opcode, o: Operand, memaddr: nat, n: int)
    requires (o.hint == Register || o.hint == Plain) && 0 <= n < Pow2(o.bits) && (o.hint == Register ==> n <= 31)
    ensures FieldValue(e, o, memaddr, n) == Ok(n) && Lowest(n, o.bits) == n
  {
    LowIs(n, o.bits);
  }

  /** The number of a special register is read back, through both swaps; 0 is refused. */
  lemma SpecialBack(e: Opcode, o: Operand, memaddr: nat, n: int)
    requires o.hint == Special && o.bits == 10
    ensures FieldValue(e, o, memaddr, n).Ok? <==> n % 1024 != 0
    ensures FieldValue(e, o, memaddr, n).Ok? ==> Swap(Lowest(FieldValue(e, o, memaddr, n).value, o.bits)) == n % 1024
  {
    SwapBack(n);
    Ten(o.bits);
    LowIs(Swap(n), o.bits);
  }

  /** The number of a time base register is 268 or 269; the halves are swapped, and it is read back. */
  lemma TimeBaseBack(e: Opcode, o: Operand, memaddr: nat, n: int)
    requires o.hint == TimeBase && o.bits == 10
    ensures FieldValue(e, o, memaddr, n).Ok? <==> n == 268 || n == 269
    ensures n == 268 || n == 269 ==> var v := if n == 268 then 392 else 424;
      FieldValue(e, o, memaddr, n) == Ok(v) && Lowest(v, o.bits) == v && Swap(v) == n
  {
    var v := if n == 268 then 392 else 424;
    if n == 268 || n == 269 { SwapOf(n, v); }
    Ten(o.bits);
    LowIs(v, o.bits);
  }

  lemma SwapOf(n: nat, v: nat)
    requires (n == 268 && v == 392) || (n == 269 && v == 424)
    ensures Swap(n) == v && Swap(v) == n
  {}

  /** The lower half goes up, and the upper half down. */
  lemma SwapHalves(n: int)
    ensures Swap(n) / 32 == n % 32 && Swap(n) % 32 == n / 32 % 32
  {
    Halves(n / 32 % 32, n % 32);
  }

  lemma Halves(lo: nat, hi: nat)
    requires lo < 32
    ensures (lo + hi * 32) / 32 == hi && (lo + hi * 32) % 32 == lo
  {}

  /** What is refused, and why: a register above 31, the special register 0, a time base register but these two. */
  lemma Refused(e: Opcode, o: Operand, memaddr: nat, n: int)
    ensures FieldValue(e, o, memaddr, n) == Err(BadRegister) <==> o.hint == Register && n > 31
    ensures FieldValue(e, o, memaddr, n) == Err(BadSpr) <==> o.hint == Special && n % 1024 == 0
    ensures FieldValue(e, o, memaddr, n) == Err(BadTbr) <==> o.hint == TimeBase && n != 268 && n != 269
    ensures FieldValue(e, o, memaddr, n).Ok? <==>
      !(o.hint == Register && n > 31) && !(o.hint == Special && n % 1024 == 0)
      && !(o.hint == TimeBase && n != 268 && n != 269)
  {
    SwapBack(n);
  }

  lemma Ten(n: nat)
    requires n == 10
    ensures Pow2(n) == 1024
  {
    assert Pow2(n - 8) == 4 && Pow2(n - 6) == 16 && Pow2(n - 4) == 64;
  }

  lemma SwapBack(n: int)
    ensures Swap(n) < 1024 && Swap(Swap(n)) == n % 1024 && (Swap(n) == 0 <==> n % 1024 == 0)
  {
    assert n % 1024 == n / 32 % 32 * 32 + n % 32;
  }

  /** print_operands: the address that is printed. */
  function PrintedAddress(e: Opcode, o: Operand, field: nat, virtual: nat): int
    requires o.bits > 0
  {
    var operand := if BitOf(field, o.bits - 1) then field - Pow2(o.bits) else field;
    (if e.relative then 4 * operand + virtual else 4 * operand) % WORD
  }

  /** The number that the disassembler reads in the field. */
  lemma OperandRead(e: Opcode, o: Operand, memaddr: nat, d: int, h: nat, field: nat, operand: int)
    requires o.bits > 0 && h == Pow2(o.bits - 1) && field == Lowest(d / 4, o.bits - 1) + (if d < 0 then h else 0)
    requires operand == Lowest(d / 4, o.bits - 1) - if d < 0 then h else 0
    ensures Lowest(field, o.bits) == field && -(h as int) <= operand < h
    ensures PrintedAddress(e, o, field, memaddr) == (if e.relative then 4 * operand + memaddr else 4 * operand) % WORD
  {
    assert Pow2(o.bits) == 2 * h;
    LowBound(d / 4, o.bits - 1);
    LowIs(field, o.bits);
    TopBit(field, o.bits - 1);
  }

  /** The address that is printed is the one that was meant if, and only if, the distance is a number
      of words and within reach of the field. */
  lemma AddressBack(e: Opcode, o: Operand, memaddr: nat, n: int)
    requires o.hint == Address && Fitting(o) && -0x8000_0000 <= n < 0x8000_0000
    ensures var d, h := Distance(e, memaddr, n), 4 * Pow2(o.bits - 1);
      PrintedAddress(e, o, Lowest(FieldValue(e, o, memaddr, n).value, o.bits), memaddr) == n % WORD <==>
        d % 4 == 0 && -h <= d < h
  {
    var d, h := Distance(e, memaddr, n), Pow2(o.bits - 1);
    var low := Lowest(d / 4, o.bits - 1);
    var field, operand: int := low + (if d < 0 then h else 0), low as int - if d < 0 then h else 0;
    assert FieldValue(e, o, memaddr, n) == Ok(field);
    OperandRead(e, o, memaddr, d, h, field, operand);
    ReachFits(o.bits, h);
    SamePlace(e, memaddr, n, operand, h);
    OperandIs(d, o.bits - 1, h, operand);
  }

  /** A branch just out of reach: what is printed is the address of the branch itself. */
  lemma BranchTooFar(e: Opcode, o: Operand, h: nat, memaddr: nat)
    requires e.relative && o.hint == Address && Fitting(o) && h == Pow2(o.bits - 1) && memaddr + 4 * h < 0x8000_0000
    ensures FieldValue(e, o, memaddr, memaddr + 4 * h) == Ok(0) && PrintedAddress(e, o, 0, memaddr) == memaddr
  {
    ReachFits(o.bits, h);
    Ahead(memaddr, h);
    LowestAre(h, o.bits - 1);
    var d := Distance(e, memaddr, memaddr + 4 * h);
    assert d == 4 * h && d / 4 == h && Lowest(h, o.bits - 1) == 0;
    OperandRead(e, o, memaddr, d, h, 0, 0);
  }

  lemma Ahead(memaddr: nat, h: nat)
    requires 0 < h && memaddr + 4 * h < 0x8000_0000
    ensures Signed(4 * h) == 4 * h && 4 * h / 4 == h && h % h == 0 && memaddr % WORD == memaddr
  {}

  lemma ReachFits(bits: nat, h: nat)
    requires 1 <= bits <= 24 && h == Pow2(bits - 1)
    ensures h <= 0x80_0000
  {
    Pow2Monotone(bits - 1, 23);
    assert Pow2(8) == 256 && Pow2(16) == 0x1_0000;
  }

  /** The operand is a quarter of the distance if, and only if, that is possible. */
  lemma OperandIs(d: int, n: nat, h: nat, operand: int)
    requires h == Pow2(n) && operand == Lowest(d / 4, n) - if d < 0 then h else 0
    ensures 4 * operand == d <==> d % 4 == 0 && -4 * h <= d < 4 * h
  {
    LowBound(d / 4, n);
    if d % 4 == 0 && -4 * h <= d < 4 * h { LowIs(d / 4, n); }
  }

  lemma SamePlace(e: Opcode, memaddr: nat, n: int, operand: int, h: nat)
    requires h <= 0x80_0000 && -(h as int) <= operand < h && -0x8000_0000 <= n < 0x8000_0000
    ensures (if e.relative then 4 * operand + memaddr else 4 * operand) % WORD == n % WORD <==>
      4 * operand == Distance(e, memaddr, n)
  {
    if e.relative {
      SameWord(4 * operand, n - memaddr, memaddr);
    } else {
      SameWord(4 * operand, n, 0);
      assert Signed(n) == n;
    }
  }

  lemma SameWord(x: int, y: int, m: int)
    requires -0x8000_0000 <= x < 0x8000_0000
    ensures (x + m) % WORD == (y + m) % WORD <==> x == Signed(y)
  {}
}
