/** The table of opcodes and the binary search in it. */
module OpcodeTable {
  import opened Basics
  import opened Bits
  import opened Instructions

  datatype Hint = Silent | Address | Register | Special | TimeBase | Plain

  datatype Operand = Operand(bits: nat, shift: nat, hint: Hint)

  /** The operands are given by their numbers, from 1 on. */
  datatype Opcode = Opcode(opcode: nat, mask: nat, fields: seq<nat>, name: string, relative: bool)

  predicate Matches(e: Opcode, instr: nat) { And(instr, e.mask) == e.opcode }

  /** Of two entries, the high bits decide: from some bit on the masks are the same, and the first
      opcode is the smaller one. */
  ghost predicate Before(e: Opcode, e': Opcode) {
    exists k {:trigger Down(e.mask, k)} :: Down(e.mask, k) == Down(e'.mask, k) && Down(e.opcode, k) < Down(e'.opcode, k)
  }

  /** The order of the table: bits below those that decide need not be in order. */
  ghost predicate Ordered(t: seq<Opcode>) {
    forall i, j {:trigger t[i], t[j]} :: 0 <= i < j < |t| ==> Before(t[i], t[j])
  }

  lemma {:induction false} DownAnd(x: nat, y: nat, k: nat)
    ensures Down(And(x, y), k) == And(Down(x, k), Down(y, k))
    decreases k
  {
    if k > 0 {
      AndHalf(x, y);
      DownAnd(x / 2, y / 2, k - 1);
    }
  }

  lemma {:induction false} DownMonotone(x: nat, y: nat, k: nat)
    requires x <= y
    ensures Down(x, k) <= Down(y, k)
    decreases k
  {
    if k > 0 { DownMonotone(x / 2, y / 2, k - 1); }
  }

  /** An instruction that is not above an entry is below those after it. */
  lemma BelowNext(e: Opcode, e': Opcode, instr: nat)
    requires Before(e, e') && And(instr, e.mask) <= e.opcode
    ensures And(instr, e'.mask) < e'.opcode
  {
    var k :| Down(e.mask, k) == Down(e'.mask, k) && Down(e.opcode, k) < Down(e'.opcode, k);
    DownAnd(instr, e.mask, k);
    DownAnd(instr, e'.mask, k);
    DownMonotone(And(instr, e.mask), e.opcode, k);
    if And(instr, e'.mask) >= e'.opcode {
      DownMonotone(e'.opcode, And(instr, e'.mask), k);
    }
  }

  /** So an instruction has at most one entry. */
  lemma OneEntry(t: seq<Opcode>, instr: nat, i: nat, j: nat)
    requires Ordered(t) && i < |t| && j < |t| && Matches(t[i], instr) && Matches(t[j], instr)
    ensures i == j
  {
    if i < j { BelowNext(t[i], t[j], instr); }
    if j < i { BelowNext(t[j], t[i], instr); }
  }

  /** find_opcode: the entry of an instruction. */
  method FindOpcode(t: seq<Opcode>, instr: nat) returns (found: Option<nat>)
    requires Ordered(t)
    ensures found.Some? ==> found.value < |t| && Matches(t[found.value], instr)
    ensures found.None? ==> forall i {:trigger t[i]} :: 0 <= i < |t| ==> !Matches(t[i], instr)
  {
    var top, bottom: int := 0, |t| - 1;
    while top <= bottom
      invariant 0 <= top <= bottom + 1 <= |t|
      invariant forall i {:trigger t[i]} :: 0 <= i < top ==> And(instr, t[i].mask) > t[i].opcode
      invariant forall i {:trigger t[i]} :: bottom < i < |t| ==> And(instr, t[i].mask) < t[i].opcode
    {
      var idx := (top + bottom) / 2;
      if And(instr, t[idx].mask) < t[idx].opcode {
        forall i {:trigger t[i]} | 0 <= i < |t|
          ensures idx <= i ==> And(instr, t[i].mask) < t[i].opcode
        {
          if idx < i { BelowNext(t[idx], t[i], instr); }
        }
        bottom := idx - 1;
      } else if And(instr, t[idx].mask) > t[idx].opcode {
        forall i {:trigger t[i]} | 0 <= i < |t|
          ensures i <= idx ==> And(instr, t[i].mask) > t[i].opcode
        {
          if i < idx && And(instr, t[i].mask) <= t[i].opcode { BelowNext(t[i], t[idx], instr); }
        }
        top := idx + 1;
      } else {
        return Some(idx);
      }
    }
    found := None;
  }

  /** find_opcode_by_name: the first one. */
  method FindOpcodeByName(t: seq<Opcode>, name: string) returns (found: Option<nat>)
    ensures found.Some? ==> found.value < |t| && t[found.value].name == name
    ensures found.Some? ==> forall i {:trigger t[i]} :: 0 <= i < found.value ==> t[i].name != name
    ensures found.None? ==> forall i {:trigger t[i]} :: 0 <= i < |t| ==> t[i].name != name
  {
    for idx := 0 to |t|
      invariant forall i {:trigger t[i]} :: 0 <= i < idx ==> t[i].name != name
    {
      if name == t[idx].name { return Some(idx); }
    }
    found := None;
  }

  // ----- what an entry must be -----

  /** The operand of field k. */
  function OperandAt(ops: seq<Operand>, e: Opcode, k: nat): Operand
    requires k < |e.fields| && 1 <= e.fields[k] <= |ops|
  { ops[e.fields[k] - 1] }

  ghost predicate Fitting(o: Operand) { o.shift + o.bits <= 32 && (o.hint == Address ==> 1 <= o.bits <= 24) }

  ghost predicate Numbered(ops: seq<Operand>, e: Opcode) {
    |e.fields| < 8 && forall k {:trigger e.fields[k]} :: 0 <= k < |e.fields| ==>
      1 <= e.fields[k] <= |ops| && Fitting(ops[e.fields[k] - 1])
  }

  /** The opcode is under its mask; operands have no bits under the mask; no two have a bit in common. */
  ghost predicate WellFormed(ops: seq<Operand>, e: Opcode) {
    && Numbered(ops, e) && e.opcode < Pow2(32) && And(e.opcode, e.mask) == e.opcode
    && (forall k {:trigger e.fields[k]} :: 0 <= k < |e.fields| ==>
        var o := OperandAt(ops, e, k); o.hint == Silent || Extract(e.mask, o.shift, o.bits) == 0)
    && forall j, k {:trigger e.fields[j], e.fields[k]} :: 0 <= j < k < |e.fields| ==>
      e.fields[j] != e.fields[k] && Disjoint(OperandAt(ops, e, j), OperandAt(ops, e, k))
  }

  predicate Disjoint(o: Operand, o': Operand) {
    o.hint == Silent || o'.hint == Silent || Apart(o.shift, o.bits, o'.shift, o'.bits)
  }
}
