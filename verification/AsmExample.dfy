/** One instruction in all its bits: `mftb r3, 268`. */
module AsmExample {
  import opened Bits
  import opened OpcodeTable
  import opened PpcTable
  import opened Assembler

  // ----- where it is in the table -----

  ghost predicate NoneNamed(t: seq<Opcode>, name: string) {
    forall i {:trigger t[i]} :: 0 <= i < |t| ==> t[i].name != name
  }

  lemma NotIn0()
    ensures NoneNamed(Part0() + Part1(), "mftb")
  {}

  lemma NotIn2()
    ensures NoneNamed(Part2() + Part3(), "mftb")
  {}

  lemma NotIn4()
    ensures NoneNamed(Part4() + Part5(), "mftb")
  {}

  lemma NotIn6()
    ensures NoneNamed(Part6() + Part7(), "mftb")
  {}

  lemma NotIn8()
    ensures NoneNamed(Part8() + Part9(), "mftb")
  {}

  lemma NotIn10()
    ensures NoneNamed(Part10() + Part11(), "mftb")
  {}

  lemma NotIn12()
    ensures NoneNamed(Part12() + Part13(), "mftb")
  {}

  lemma NotIn14()
    ensures NoneNamed(Part14() + Part15(), "mftb")
  {}

  lemma NotInFour(t: seq<Opcode>, t': seq<Opcode>, u: seq<Opcode>, u': seq<Opcode>, name: string)
    requires NoneNamed(t + t', name) && NoneNamed(u + u', name)
    ensures NoneNamed(t + t' + u + u', name)
  {
    assert t + t' + u + u' == (t + t') + (u + u');
  }

  lemma NotInGroup0()
    ensures NoneNamed(Group0(), "mftb")
  {
    NotIn0();
    NotIn2();
    NotInFour(Part0(), Part1(), Part2(), Part3(), "mftb");
  }

  lemma NotInGroup1()
    ensures NoneNamed(Group1(), "mftb")
  {
    NotIn4();
    NotIn6();
    NotInFour(Part4(), Part5(), Part6(), Part7(), "mftb");
  }

  lemma NotInGroup2()
    ensures NoneNamed(Group2(), "mftb")
  {
    NotIn8();
    NotIn10();
    NotInFour(Part8(), Part9(), Part10(), Part11(), "mftb");
  }

  lemma NotInGroup3()
    ensures NoneNamed(Group3(), "mftb")
  {
    NotIn12();
    NotIn14();
    NotInFour(Part12(), Part13(), Part14(), Part15(), "mftb");
  }

  lemma NotInGroup9()
    ensures NoneNamed(Group9(), "mftb") && |Group9()| == 96
  {
    NotInGroup0();
    NotInGroup1();
    NotInGroup2();
    NotInGroup3();
    Joined4(Group0(), Group1(), Group2(), Group3(), "mftb");
  }

  lemma Joined4(t: seq<Opcode>, t': seq<Opcode>, u: seq<Opcode>, u': seq<Opcode>, name: string)
    requires NoneNamed(t, name) && NoneNamed(t', name) && NoneNamed(u, name) && NoneNamed(u', name)
    ensures NoneNamed(t + t' + u + u', name)
  {}

  lemma NotBefore()
    ensures NoneNamed(Part16() + Part17() + Part18(), "mftb") && |Part16() + Part17() + Part18()| == 18
  {}

  lemma In19()
    ensures |Part19()| == 6 && Part19()[3] == X(31, 371, 0, Fields_rD_tbr(), "mftb")
    ensures forall i {:trigger Part19()[i]} :: 0 <= i < 3 ==> Part19()[i].name != "mftb"
  {}

  lemma Group10Begins(u: seq<Opcode>)
    requires u == Group10()
    ensures Part16() + Part17() + Part18() + Part19() <= u
  {
    assert Group4() <= u;
  }

  /** The entry is the 118th of its table, and the first of its name. */
  ghost predicate AtMftb(t: seq<Opcode>, e: Opcode) {
    117 < |t| && t[117] == e && forall i {:trigger t[i]} :: 0 <= i < 117 ==> t[i].name != "mftb"
  }

  lemma FirstOfTwo(e: Opcode)
    requires e == X(31, 371, 0, Fields_rD_tbr(), "mftb")
    ensures AtMftb(Group9() + Group10(), e)
  {
    NotInGroup9();
    NotBefore();
    In19();
    Group10Begins(Group10());
    AtOf(Group9() + Group10(), Group9(), Part16() + Part17() + Part18(), Part19(), "mftb");
  }

  lemma FirstOfName(e: Opcode)
    requires e == X(31, 371, 0, Fields_rD_tbr(), "mftb")
    ensures AtMftb(Opcodes(), e)
  {
    FirstOfTwo(e);
    StillAt(Group9() + Group10(), Group11(), e);
  }

  lemma StillAt(t: seq<Opcode>, u: seq<Opcode>, e: Opcode)
    requires AtMftb(t, e)
    ensures AtMftb(t + u, e)
  {}

  lemma AtOf(t: seq<Opcode>, a: seq<Opcode>, b: seq<Opcode>, c: seq<Opcode>, name: string)
    requires |a| == 96 && |b| == 18 && |c| == 6 && a + b + c <= t
    requires NoneNamed(a, name) && NoneNamed(b, name) && NoneNamed(c[..3], name)
    ensures t[117] == c[3] && forall i {:trigger t[i]} :: 0 <= i < 117 ==> t[i].name != name
  {
    var u := a + b + c;
    forall i {:trigger t[i]} | 0 <= i < 117 ensures t[i].name != name {
      assert t[i] == u[i];
      if i >= 114 { assert u[i] == c[i - 114] == c[..3][i - 114]; }
    }
    assert t[117] == u[117];
  }

  // ----- its bits -----

  lemma TwoOperands(ops: seq<Operand>, e: Opcode, memaddr: nat, args: seq<int>, v: nat, w: nat)
    requires WellFormed(ops, e) && |e.fields| == 2 && |args| == 2
    requires var o, p := OperandAt(ops, e, 0), OperandAt(ops, e, 1);
      && o.hint != Silent && FieldValue(e, o, memaddr, args[0]) == Ok(v) && Lowest(v, o.bits) == v
      && p.hint != Silent && FieldValue(e, p, memaddr, args[1]) == Ok(w) && Lowest(w, p.bits) == w
    ensures Assembled(ops, e, memaddr, args, 2) ==
      Ok(e.opcode + v * Pow2(OperandAt(ops, e, 0).shift) + w * Pow2(OperandAt(ops, e, 1).shift))
  {
    assert e.fields[0] > 0 && e.fields[1] > 0;
    assert SpokenBefore(ops, e, 0) == 0 && SpokenBefore(ops, e, 1) == 1;
    assert Assembled(ops, e, memaddr, args, 0) == Ok(e.opcode);
    assert Assembled(ops, e, memaddr, args, 1).Ok? && Assembled(ops, e, memaddr, args, 2).Ok?;
    WordIsSum(ops, e, memaddr, args, 2);
    assert PlacedSum(ops, e, memaddr, args, 0) == e.opcode;
    assert PlacedSum(ops, e, memaddr, args, 1) == e.opcode + v * Pow2(OperandAt(ops, e, 0).shift);
  }

  lemma EntryOkHere(e: Opcode)
    requires e == X(31, 371, 0, Fields_rD_tbr(), "mftb")
    ensures EntryOk(e)
  {
    In19();
    var t := Part19();
    assert EntryOk(t[3]);
  }

  lemma TheirOperands(ops: seq<Operand>, e: Opcode)
    requires ops == Operands() && e == X(31, 371, 0, Fields_rD_tbr(), "mftb")
    ensures WellFormed(ops, e) && |e.fields| == 2 && e.opcode == 0x7c00_02e6
    ensures OperandAt(ops, e, 0) == Operand(5, 21, Register) && OperandAt(ops, e, 1) == Operand(10, 11, TimeBase)
  {
    EntryOkHere(e);
    EntryWellFormed(e);
    MftbFields(e);
    FieldsWellFormed(e);
  }

  lemma MftbFields(e: Opcode)
    requires e == X(31, 371, 0, Fields_rD_tbr(), "mftb")
    ensures |e.fields| == 2 && e.fields[0] == 23 && e.fields[1] == 34 && e.opcode == 0x7c00_02e6
  {}

  lemma Powers(n: nat, m: nat)
    requires n == 21 && m == 11
    ensures Pow2(n) == 0x20_0000 && Pow2(m) == 0x800
  {
    Eight2(n - 8);
    Eight2(n - 16);
    Eight2(m - 8);
    Thirty2(n - 16, m - 8);
  }

  lemma Thirty2(n: nat, m: nat)
    requires n == 5 && m == 3
    ensures Pow2(n) == 32 && Pow2(m) == 8
  {
    assert Pow2(n - 2) == 8 && Pow2(m - 3) == 1;
  }

  lemma MftbWord(ops: seq<Operand>, e: Opcode, memaddr: nat, args: seq<int>)
    requires ops == Operands() && e == X(31, 371, 0, Fields_rD_tbr(), "mftb") && args == [3, 268]
    ensures Numbered(ops, e) && |e.fields| == 2 && Assembled(ops, e, memaddr, args, 2) == Ok(0x7c6c_42e6)
  {
    TheirOperands(ops, e);
    var o, p := OperandAt(ops, e, 0), OperandAt(ops, e, 1);
    Thirty2(o.bits, 3);
    NumberBack(e, o, memaddr, 3);
    TimeBaseBack(e, p, memaddr, 268);
    TwoOperands(ops, e, memaddr, args, 3, 392);
    Powers(o.shift, p.shift);
  }

  /** The assembler's answer, with its own table. */
  method AsmMftb(memaddr: nat, args: seq<int>) returns (r: Result<nat>)
    requires args == [3, 268]
    ensures r == Ok(0x7c6c_42e6)
  {
    ghost var i, e := 0, X(31, 371, 0, Fields_rD_tbr(), "mftb");
    FirstOfName(e);
    MftbWord(Operands(), e, memaddr, args);
    TableNumbered();
    r, i := Asmppc(Opcodes(), Operands(), memaddr, "mftb", args);
  }

  lemma TableNumbered()
    ensures forall j {:trigger Opcodes()[j]} :: 0 <= j < |Opcodes()| ==> Numbered(Operands(), Opcodes()[j])
  {
    TableOk();
    AllNumbered(Opcodes(), Operands());
  }

  lemma AllNumbered(t: seq<Opcode>, ops: seq<Operand>)
    requires forall e {:trigger WellFormed(ops, e)} :: e in t ==> WellFormed(ops, e)
    ensures forall j {:trigger t[j]} :: 0 <= j < |t| ==> Numbered(ops, t[j])
  {
    forall j {:trigger t[j]} | 0 <= j < |t| ensures Numbered(ops, t[j]) { assert WellFormed(ops, t[j]); }
  }
}
