/** The opcodes and operands of the PowerPC: the tables that the assembler and the disassembler use. */
module PpcTable {
  import opened Bits
  import opened Instructions
  import opened OpcodeTable

  // ----- operands, numbered from 1 -----

  const O_AA: nat := 1
  const O_BD: nat := 2
  const O_BI: nat := 3
  const O_BO: nat := 4
  const O_crbD: nat := 5
  const O_crbA: nat := 6
  const O_crbB: nat := 7
  const O_CRM: nat := 8
  const O_d: nat := 9
  const O_frC: nat := 10
  const O_frD: nat := 11
  const O_frS: nat := 12
  const O_IMM: nat := 13
  const O_LI: nat := 14
  const O_LK: nat := 15
  const O_MB: nat := 16
  const O_ME: nat := 17
  const O_NB: nat := 18
  const O_OE: nat := 19
  const O_rA: nat := 20
  const O_rB: nat := 21
  const O_Rc: nat := 22
  const O_rD: nat := 23
  const O_rS: nat := 24
  const O_SH: nat := 25
  const O_SIMM: nat := 26
  const O_SR: nat := 27
  const O_TO: nat := 28
  const O_UIMM: nat := 29
  const O_crfD: nat := 30
  const O_crfS: nat := 31
  const O_L: nat := 32
  const O_spr: nat := 33
  const O_tbr: nat := 34
  const O_cr2: nat := 35

  function OperandOf(n: nat): Operand {
    if n == 1 then Operand(1, 1, Silent)
    else if n == 2 then Operand(14, 2, Address)
    else if n == 3 then Operand(5, 16, Plain)
    else if n == 4 then Operand(5, 21, Plain)
    else if n == 5 then Operand(5, 21, Plain)
    else if n == 6 then Operand(5, 16, Plain)
    else if n == 7 then Operand(5, 11, Plain)
    else if n == 8 then Operand(8, 12, Plain)
    else if n == 9 then Operand(15, 0, Plain)
    else if n == 10 then Operand(5, 6, Plain)
    else if n == 11 then Operand(5, 21, Plain)
    else if n == 12 then Operand(5, 21, Plain)
    else if n == 13 then Operand(4, 12, Plain)
    else if n == 14 then Operand(24, 2, Address)
    else if n == 15 then Operand(1, 0, Silent)
    else if n == 16 then Operand(5, 6, Plain)
    else if n == 17 then Operand(5, 1, Plain)
    else if n == 18 then Operand(5, 11, Plain)
    else if n == 19 then Operand(1, 10, Silent)
    else if n == 20 then Operand(5, 16, Register)
    else if n == 21 then Operand(5, 11, Register)
    else if n == 22 then Operand(1, 0, Silent)
    else if n == 23 then Operand(5, 21, Register)
    else if n == 24 then Operand(5, 21, Register)
    else if n == 25 then Operand(5, 11, Plain)
    else if n == 26 then Operand(16, 0, Plain)
    else if n == 27 then Operand(4, 16, Plain)
    else if n == 28 then Operand(5, 21, Plain)
    else if n == 29 then Operand(16, 0, Plain)
    else if n == 30 then Operand(3, 23, Plain)
    else if n == 31 then Operand(3, 18, Plain)
    else if n == 32 then Operand(1, 21, Plain)
    else if n == 33 then Operand(10, 11, Special)
    else if n == 34 then Operand(10, 11, TimeBase)
    else Operand(0, 0, Plain)
  }

  function Operands(): seq<Operand> { seq(35, i requires 0 <= i < 35 => OperandOf(i + 1)) }

  // ----- the operands of an entry -----

  /** The operand fits above the low bits of the mask, and below the primary opcode. */
  predicate Fit(n: nat, width: nat) {
    var o := OperandOf(n);
    1 <= n <= 35 && o.shift + o.bits <= 26 && (o.hint == Address ==> 1 <= o.bits <= 24)
      && (o.hint == Silent || width <= o.shift)
  }

  predicate Pair(n: nat, n': nat) { n != n' && Disjoint(OperandOf(n), OperandOf(n')) }

  ghost predicate FieldsOk(f: seq<nat>, width: nat) {
    && |f| < 8 && (forall k {:trigger f[k]} :: 0 <= k < |f| ==> Fit(f[k], width))
    && forall j, k {:trigger f[j], f[k]} :: 0 <= j < k < |f| ==> Pair(f[j], f[k])
  }

  function None(): (f: seq<nat>)
    ensures FieldsOk(f, 11)
  { [] }

  lemma One(a: nat, width: nat)
    requires Fit(a, width)
    ensures FieldsOk([a], width)
  {}

  lemma Two(a: nat, b: nat, width: nat)
    requires Fit(a, width) && Fit(b, width) && Pair(a, b)
    ensures FieldsOk([a, b], width)
  {}

  lemma Three(a: nat, b: nat, c: nat, width: nat)
    requires Fit(a, width) && Fit(b, width) && Fit(c, width) && Pair(a, b) && Pair(a, c) && Pair(b, c)
    ensures FieldsOk([a, b, c], width)
  {}

  /** One operand before others. */
  lemma Front(n: nat, f: seq<nat>, width: nat)
    requires FieldsOk(f, width) && |f| < 7 && Fit(n, width)
    requires forall k {:trigger f[k]} :: 0 <= k < |f| ==> Pair(n, f[k])
    ensures FieldsOk([n] + f, width)
  {
    var r := [n] + f;
    assert forall k {:trigger r[k]} :: 1 <= k < |r| ==> r[k] == f[k - 1];
  }

  lemma Four(a: nat, b: nat, c: nat, d: nat, width: nat)
    requires Fit(a, width) && Pair(a, b) && Pair(a, c) && Pair(a, d)
    requires Fit(b, width) && Fit(c, width) && Fit(d, width) && Pair(b, c) && Pair(b, d) && Pair(c, d)
    ensures FieldsOk([a, b, c, d], width)
  {
    Three(b, c, d, width);
    Front(a, [b, c, d], width);
    assert [a, b, c, d] == [a] + [b, c, d];
  }

  lemma Five(a: nat, b: nat, c: nat, d: nat, e: nat, width: nat)
    requires Fit(a, width) && Pair(a, b) && Pair(a, c) && Pair(a, d) && Pair(a, e)
    requires Fit(b, width) && Pair(b, c) && Pair(b, d) && Pair(b, e)
    requires Fit(c, width) && Fit(d, width) && Fit(e, width) && Pair(c, d) && Pair(c, e) && Pair(d, e)
    ensures FieldsOk([a, b, c, d, e], width)
  {
    Four(b, c, d, e, width);
    Front(a, [b, c, d, e], width);
    assert [a, b, c, d, e] == [a] + [b, c, d, e];
  }

  lemma SixFields(a: nat, b: nat, c: nat, d: nat, e: nat, f: nat, width: nat)
    requires Fit(a, width) && Pair(a, b) && Pair(a, c) && Pair(a, d) && Pair(a, e) && Pair(a, f)
    requires FieldsOk([b, c, d, e, f], width)
    ensures FieldsOk([a, b, c, d, e, f], width)
  {
    Front(a, [b, c, d, e, f], width);
    assert [a, b, c, d, e, f] == [a] + [b, c, d, e, f];
  }

  function Fields_TO_rA_SIMM(): (f: seq<nat>)
    ensures FieldsOk(f, 0)
  {
    Three(O_TO, O_rA, O_SIMM, 0);
    [O_TO, O_rA, O_SIMM]
  }

  function Fields_rD_rA_SIMM(): (f: seq<nat>)
    ensures FieldsOk(f, 0)
  {
    Three(O_rD, O_rA, O_SIMM, 0);
    [O_rD, O_rA, O_SIMM]
  }

  function Fields_crfD_L_rA_UIMM(): (f: seq<nat>)
    ensures FieldsOk(f, 0)
  {
    Four(O_crfD, O_L, O_rA, O_UIMM, 0);
    [O_crfD, O_L, O_rA, O_UIMM]
  }

  function Fields_crfD_L_rA_SIMM(): (f: seq<nat>)
    ensures FieldsOk(f, 0)
  {
    Four(O_crfD, O_L, O_rA, O_SIMM, 0);
    [O_crfD, O_L, O_rA, O_SIMM]
  }

  function Fields_BO_BI_BD_AA_LK(): (f: seq<nat>)
    ensures FieldsOk(f, 2)
  {
    Five(O_BO, O_BI, O_BD, O_AA, O_LK, 2);
    [O_BO, O_BI, O_BD, O_AA, O_LK]
  }

  function Fields_LI_AA_LK(): (f: seq<nat>)
    ensures FieldsOk(f, 2)
  {
    Three(O_LI, O_AA, O_LK, 2);
    [O_LI, O_AA, O_LK]
  }

  function Fields_crfD_crfS(): (f: seq<nat>)
    ensures FieldsOk(f, 11)
  {
    Two(O_crfD, O_crfS, 11);
    [O_crfD, O_crfS]
  }

  function Fields_BO_BI_LK(): (f: seq<nat>)
    ensures FieldsOk(f, 11)
  {
    Three(O_BO, O_BI, O_LK, 11);
    [O_BO, O_BI, O_LK]
  }

  function Fields_crbD_crbA_crbB(): (f: seq<nat>)
    ensures FieldsOk(f, 11)
  {
    Three(O_crbD, O_crbA, O_crbB, 11);
    [O_crbD, O_crbA, O_crbB]
  }

  function Fields_rA_rS_SH_MB_ME_Rc(): (f: seq<nat>)
    ensures FieldsOk(f, 1)
  {
    Five(O_rS, O_SH, O_MB, O_ME, O_Rc, 1);
    SixFields(O_rA, O_rS, O_SH, O_MB, O_ME, O_Rc, 1);
    [O_rA, O_rS, O_SH, O_MB, O_ME, O_Rc]
  }

  function Fields_rA_rS_rB_MB_ME_Rc(): (f: seq<nat>)
    ensures FieldsOk(f, 1)
  {
    Five(O_rS, O_rB, O_MB, O_ME, O_Rc, 1);
    SixFields(O_rA, O_rS, O_rB, O_MB, O_ME, O_Rc, 1);
    [O_rA, O_rS, O_rB, O_MB, O_ME, O_Rc]
  }

  function Fields_rA_rS_UIMM(): (f: seq<nat>)
    ensures FieldsOk(f, 0)
  {
    Three(O_rA, O_rS, O_UIMM, 0);
    [O_rA, O_rS, O_UIMM]
  }

  function Fields_crfD_L_rA_rB(): (f: seq<nat>)
    ensures FieldsOk(f, 11)
  {
    Four(O_crfD, O_L, O_rA, O_rB, 11);
    [O_crfD, O_L, O_rA, O_rB]
  }

  function Fields_TO_rA_rB(): (f: seq<nat>)
    ensures FieldsOk(f, 11)
  {
    Three(O_TO, O_rA, O_rB, 11);
    [O_TO, O_rA, O_rB]
  }

  function Fields_rD_rA_rB_OE_Rc(): (f: seq<nat>)
    ensures FieldsOk(f, 11)
  {
    Five(O_rD, O_rA, O_rB, O_OE, O_Rc, 11);
    [O_rD, O_rA, O_rB, O_OE, O_Rc]
  }

  function Fields_rD_rA_rB_Rc(): (f: seq<nat>)
    ensures FieldsOk(f, 11)
  {
    Four(O_rD, O_rA, O_rB, O_Rc, 11);
    [O_rD, O_rA, O_rB, O_Rc]
  }

  function Fields_rD(): (f: seq<nat>)
    ensures FieldsOk(f, 11)
  {
    One(O_rD, 11);
    [O_rD]
  }

  function Fields_rD_rA_rB(): (f: seq<nat>)
    ensures FieldsOk(f, 11)
  {
    Three(O_rD, O_rA, O_rB, 11);
    [O_rD, O_rA, O_rB]
  }

  function Fields_rA_rS_rB_Rc(): (f: seq<nat>)
    ensures FieldsOk(f, 11)
  {
    Four(O_rA, O_rS, O_rB, O_Rc, 11);
    [O_rA, O_rS, O_rB, O_Rc]
  }

  function Fields_rA_rS_Rc(): (f: seq<nat>)
    ensures FieldsOk(f, 11)
  {
    Three(O_rA, O_rS, O_Rc, 11);
    [O_rA, O_rS, O_Rc]
  }

  function Fields_rA_rB(): (f: seq<nat>)
    ensures FieldsOk(f, 11)
  {
    Two(O_rA, O_rB, 11);
    [O_rA, O_rB]
  }

  function Fields_rD_rA_OE_Rc(): (f: seq<nat>)
    ensures FieldsOk(f, 11)
  {
    Four(O_rD, O_rA, O_OE, O_Rc, 11);
    [O_rD, O_rA, O_OE, O_Rc]
  }

  function Fields_CRM_rS(): (f: seq<nat>)
    ensures FieldsOk(f, 11)
  {
    Two(O_CRM, O_rS, 11);
    [O_CRM, O_rS]
  }

  function Fields_rS(): (f: seq<nat>)
    ensures FieldsOk(f, 11)
  {
    One(O_rS, 11);
    [O_rS]
  }

  function Fields_rS_rA_rB(): (f: seq<nat>)
    ensures FieldsOk(f, 11)
  {
    Three(O_rS, O_rA, O_rB, 11);
    [O_rS, O_rA, O_rB]
  }

  function Fields_SR_rS(): (f: seq<nat>)
    ensures FieldsOk(f, 11)
  {
    Two(O_SR, O_rS, 11);
    [O_SR, O_rS]
  }

  function Fields_rS_rB(): (f: seq<nat>)
    ensures FieldsOk(f, 11)
  {
    Two(O_rS, O_rB, 11);
    [O_rS, O_rB]
  }

  function Fields_rB(): (f: seq<nat>)
    ensures FieldsOk(f, 11)
  {
    One(O_rB, 11);
    [O_rB]
  }

  function Fields_rD_spr(): (f: seq<nat>)
    ensures FieldsOk(f, 11)
  {
    Two(O_rD, O_spr, 11);
    [O_rD, O_spr]
  }

  function Fields_rD_tbr(): (f: seq<nat>)
    ensures FieldsOk(f, 11)
  {
    Two(O_rD, O_tbr, 11);
    [O_rD, O_tbr]
  }

  function Fields_spr_rS(): (f: seq<nat>)
    ensures FieldsOk(f, 11)
  {
    Two(O_spr, O_rS, 11);
    [O_spr, O_rS]
  }

  function Fields_crfD(): (f: seq<nat>)
    ensures FieldsOk(f, 11)
  {
    One(O_crfD, 11);
    [O_crfD]
  }

  function Fields_rD_SR(): (f: seq<nat>)
    ensures FieldsOk(f, 11)
  {
    Two(O_rD, O_SR, 11);
    [O_rD, O_SR]
  }

  function Fields_rD_rA_NB(): (f: seq<nat>)
    ensures FieldsOk(f, 11)
  {
    Three(O_rD, O_rA, O_NB, 11);
    [O_rD, O_rA, O_NB]
  }

  function Fields_rD_rB(): (f: seq<nat>)
    ensures FieldsOk(f, 11)
  {
    Two(O_rD, O_rB, 11);
    [O_rD, O_rB]
  }

  function Fields_rS_rA_NB(): (f: seq<nat>)
    ensures FieldsOk(f, 11)
  {
    Three(O_rS, O_rA, O_NB, 11);
    [O_rS, O_rA, O_NB]
  }

  function Fields_rA_rS_SH_Rc(): (f: seq<nat>)
    ensures FieldsOk(f, 11)
  {
    Four(O_rA, O_rS, O_SH, O_Rc, 11);
    [O_rA, O_rS, O_SH, O_Rc]
  }

  function Fields_rD_d_rA(): (f: seq<nat>)
    ensures FieldsOk(f, 0)
  {
    Three(O_rD, O_d, O_rA, 0);
    [O_rD, O_d, O_rA]
  }

  function Fields_rS_d_rA(): (f: seq<nat>)
    ensures FieldsOk(f, 0)
  {
    Three(O_rS, O_d, O_rA, 0);
    [O_rS, O_d, O_rA]
  }

  // ----- entries -----

  const PRIMARY := 0x400_0000

  /** The bits under the mask below the primary opcode, and how many low bits these are in. */
  function LowMask(primary: nat): nat {
    if primary == 16 || primary == 18 then 3
    else if primary == 17 then 2
    else if primary == 20 || primary == 21 || primary == 23 then 1
    else if primary == 19 || primary == 31 then 0x7ff
    else 0
  }

  function Width(primary: nat): nat {
    if primary == 16 || primary == 17 || primary == 18 then 2
    else if primary == 20 || primary == 21 || primary == 23 then 1
    else if primary == 19 || primary == 31 then 11
    else 0
  }

  /** The low bits are under the mask. */
  predicate LowOk(primary: nat, low: nat) {
    if LowMask(primary) == 2 then low == 2 else low <= LowMask(primary)
  }

  ghost predicate EntryOk(e: Opcode) {
    var primary, low := e.opcode / PRIMARY, e.opcode % PRIMARY;
    && primary < 64 && e.mask == 63 * PRIMARY + LowMask(primary) && LowOk(primary, low)
    && FieldsOk(e.fields, Width(primary))
  }

  function Entry(primary: nat, low: nat, lowMask: nat, fields: seq<nat>, name: string, relative: bool): Opcode {
    Opcode(primary * PRIMARY + low, 63 * PRIMARY + lowMask, fields, name, relative)
  }

  // The forms of instructions.
  function D(i: nat, fields: seq<nat>, name: string): Opcode { Entry(i, 0, 0, fields, name, false) }
  function B(i: nat, aa: nat, lk: nat, fields: seq<nat>, name: string, relative: bool): Opcode {
    Entry(i, aa * 2 + lk, 3, fields, name, relative)
  }
  function SC(i: nat, fields: seq<nat>, name: string): Opcode { Entry(i, 2, 2, fields, name, false) }
  function M(i: nat, rc: nat, fields: seq<nat>, name: string): Opcode { Entry(i, rc, 1, fields, name, false) }
  function X(i: nat, xo: nat, rc: nat, fields: seq<nat>, name: string): Opcode {
    Entry(i, xo * 2 + rc, 0x7ff, fields, name, false)
  }
  function XO(i: nat, xo: nat, oe: nat, rc: nat, fields: seq<nat>, name: string): Opcode {
    Entry(i, oe * 1024 + xo * 2 + rc, 0x7ff, fields, name, false)
  }

  predicate PartsOk(p: nat, low: nat, lowMask: nat) {
    p < 64 && lowMask == LowMask(p) && LowOk(p, low) && low < PRIMARY
  }

  lemma EntryIs(p: nat, low: nat, lowMask: nat, f: seq<nat>, name: string, relative: bool)
    requires PartsOk(p, low, lowMask) && FieldsOk(f, Width(p))
    ensures EntryOk(Entry(p, low, lowMask, f, name, relative))
  {}

  lemma EntriesOk()
    ensures forall p: nat, low: nat, lowMask: nat, f: seq<nat>, name: string, relative: bool
      {:trigger Entry(p, low, lowMask, f, name, relative)} ::
      PartsOk(p, low, lowMask) && FieldsOk(f, Width(p)) ==> EntryOk(Entry(p, low, lowMask, f, name, relative))
  {
    forall p: nat, low: nat, lowMask: nat, f: seq<nat>, name: string, relative: bool | PartsOk(p, low, lowMask)
      && FieldsOk(f, Width(p))
      ensures EntryOk(Entry(p, low, lowMask, f, name, relative))
    {
      EntryIs(p, low, lowMask, f, name, relative);
    }
  }

  // ----- the table -----

  /** Entries in the order of their opcodes, in a range. */
  ghost predicate Ascending(t: seq<Opcode>, n: nat, lo: nat, hi: nat) {
    |t| == n && Between(t, lo, hi) && Increasing(t)
  }

  ghost predicate Between(t: seq<Opcode>, lo: nat, hi: nat) {
    forall i {:trigger t[i]} :: 0 <= i < |t| ==> EntryOk(t[i]) && lo <= t[i].opcode < hi
  }

  predicate Increasing(t: seq<Opcode>) {
    forall i, j {:trigger t[i], t[j]} :: 0 <= i < j < |t| ==> t[i].opcode < t[j].opcode
  }

  lemma Appended(t: seq<Opcode>, n: nat, lo: nat, mid: nat, t': seq<Opcode>, n': nat, hi: nat)
    requires Ascending(t, n, lo, mid) && Ascending(t', n', mid, hi) && lo <= mid <= hi
    ensures Ascending(t + t', n + n', lo, hi)
  {}

  lemma PartOk(t: seq<Opcode>, lo: nat, hi: nat)
    requires |t| == 6 && EntryOk(t[0]) && EntryOk(t[1]) && EntryOk(t[2]) && EntryOk(t[3]) && EntryOk(t[4])
      && EntryOk(t[5])
    requires lo <= t[0].opcode < t[1].opcode < t[2].opcode < t[3].opcode < t[4].opcode < t[5].opcode < hi
    ensures Ascending(t, 6, lo, hi)
  {
    assert Between(t, lo, hi);
    assert Increasing(t);
  }

  lemma LastPartOk(t: seq<Opcode>, lo: nat, hi: nat)
    requires |t| == 2 && EntryOk(t[0]) && EntryOk(t[1])
    requires lo <= t[0].opcode < t[1].opcode < hi
    ensures Ascending(t, 2, lo, hi)
  {
    assert Between(t, lo, hi);
    assert Increasing(t);
  }

  function Part0(): (t: seq<Opcode>)
    ensures Ascending(t, 6, 0, 0x3000_0001)
  {
    EntriesOk();
    var t := [
      D(3, Fields_TO_rA_SIMM(), "twi"),
      D(7, Fields_rD_rA_SIMM(), "mulli"),
      D(8, Fields_rD_rA_SIMM(), "subfic"),
      D(10, Fields_crfD_L_rA_UIMM(), "cmpli"),
      D(11, Fields_crfD_L_rA_SIMM(), "cmpi"),
      D(12, Fields_rD_rA_SIMM(), "addic")
    ];
    PartOk(t, 0, 0x3000_0001);
    t
  }

  function Part1(): (t: seq<Opcode>)
    ensures Ascending(t, 6, 0x3000_0001, 0x4000_0003)
  {
    EntriesOk();
    var t := [
      D(13, Fields_rD_rA_SIMM(), "addic."),
      D(14, Fields_rD_rA_SIMM(), "addi"),
      D(15, Fields_rD_rA_SIMM(), "addis"),
      B(16, 0, 0, Fields_BO_BI_BD_AA_LK(), "bc", true),
      B(16, 0, 1, Fields_BO_BI_BD_AA_LK(), "bcl", true),
      B(16, 1, 0, Fields_BO_BI_BD_AA_LK(), "bca", false)
    ];
    PartOk(t, 0x3000_0001, 0x4000_0003);
    t
  }

  function Part2(): (t: seq<Opcode>)
    ensures Ascending(t, 6, 0x4000_0003, 0x4800_0004)
  {
    EntriesOk();
    var t := [
      B(16, 1, 1, Fields_BO_BI_BD_AA_LK(), "bcla", false),
      SC(17, None(), "sc"),
      B(18, 0, 0, Fields_LI_AA_LK(), "b", true),
      B(18, 0, 1, Fields_LI_AA_LK(), "bl", true),
      B(18, 1, 0, Fields_LI_AA_LK(), "ba", false),
      B(18, 1, 1, Fields_LI_AA_LK(), "bla", false)
    ];
    PartOk(t, 0x4000_0003, 0x4800_0004);
    t
  }

  function Part3(): (t: seq<Opcode>)
    ensures Ascending(t, 6, 0x4800_0004, 0x4c00_0103)
  {
    EntriesOk();
    var t := [
      X(19, 0, 0, Fields_crfD_crfS(), "mcrf"),
      X(19, 16, 0, Fields_BO_BI_LK(), "bclr"),
      X(19, 16, 1, Fields_BO_BI_LK(), "bclrl"),
      X(19, 33, 0, Fields_crbD_crbA_crbB(), "crnor"),
      X(19, 50, 0, None(), "rfi"),
      X(19, 129, 0, Fields_crbD_crbA_crbB(), "crandc")
    ];
    PartOk(t, 0x4800_0004, 0x4c00_0103);
    t
  }

  function Part4(): (t: seq<Opcode>)
    ensures Ascending(t, 6, 0x4c00_0103, 0x4c00_0343)
  {
    EntriesOk();
    var t := [
      X(19, 150, 0, None(), "isync"),
      X(19, 193, 0, Fields_crbD_crbA_crbB(), "crxor"),
      X(19, 225, 0, Fields_crbD_crbA_crbB(), "crnand"),
      X(19, 257, 0, Fields_crbD_crbA_crbB(), "crand"),
      X(19, 289, 0, Fields_crbD_crbA_crbB(), "creqv"),
      X(19, 417, 0, Fields_crbD_crbA_crbB(), "crorc")
    ];
    PartOk(t, 0x4c00_0103, 0x4c00_0343);
    t
  }

  function Part5(): (t: seq<Opcode>)
    ensures Ascending(t, 6, 0x4c00_0343, 0x5400_0001)
  {
    EntriesOk();
    var t := [
      X(19, 449, 0, Fields_crbD_crbA_crbB(), "cror"),
      X(19, 528, 0, Fields_BO_BI_LK(), "bcctr"),
      X(19, 528, 1, Fields_BO_BI_LK(), "bcctrl"),
      M(20, 0, Fields_rA_rS_SH_MB_ME_Rc(), "rlwimi"),
      M(20, 1, Fields_rA_rS_SH_MB_ME_Rc(), "rlwimi."),
      M(21, 0, Fields_rA_rS_SH_MB_ME_Rc(), "rlwinm")
    ];
    PartOk(t, 0x4c00_0343, 0x5400_0001);
    t
  }

  function Part6(): (t: seq<Opcode>)
    ensures Ascending(t, 6, 0x5400_0001, 0x6800_0001)
  {
    EntriesOk();
    var t := [
      M(21, 1, Fields_rA_rS_SH_MB_ME_Rc(), "rlwinm."),
      M(23, 0, Fields_rA_rS_rB_MB_ME_Rc(), "rlwnm"),
      M(23, 1, Fields_rA_rS_rB_MB_ME_Rc(), "rlwnm."),
      D(24, Fields_rA_rS_UIMM(), "ori"),
      D(25, Fields_rA_rS_UIMM(), "oris"),
      D(26, Fields_rA_rS_UIMM(), "xori")
    ];
    PartOk(t, 0x5400_0001, 0x6800_0001);
    t
  }

  function Part7(): (t: seq<Opcode>)
    ensures Ascending(t, 6, 0x6800_0001, 0x7c00_0011)
  {
    EntriesOk();
    var t := [
      D(27, Fields_rA_rS_UIMM(), "xoris"),
      D(28, Fields_rA_rS_UIMM(), "andi."),
      D(29, Fields_rA_rS_UIMM(), "andis."),
      X(31, 0, 0, Fields_crfD_L_rA_rB(), "cmp"),
      X(31, 4, 0, Fields_TO_rA_rB(), "tw"),
      XO(31, 8, 0, 0, Fields_rD_rA_rB_OE_Rc(), "subfc")
    ];
    PartOk(t, 0x6800_0001, 0x7c00_0011);
    t
  }

  function Part8(): (t: seq<Opcode>)
    ensures Ascending(t, 6, 0x7c00_0011, 0x7c00_0027)
  {
    EntriesOk();
    var t := [
      XO(31, 8, 0, 1, Fields_rD_rA_rB_OE_Rc(), "subfc."),
      XO(31, 10, 0, 0, Fields_rD_rA_rB_OE_Rc(), "addc"),
      XO(31, 10, 0, 1, Fields_rD_rA_rB_OE_Rc(), "addc."),
      XO(31, 11, 0, 0, Fields_rD_rA_rB_Rc(), "mulhwu"),
      XO(31, 11, 0, 1, Fields_rD_rA_rB_Rc(), "mulhwu."),
      X(31, 19, 0, Fields_rD(), "mfcr")
    ];
    PartOk(t, 0x7c00_0011, 0x7c00_0027);
    t
  }

  function Part9(): (t: seq<Opcode>)
    ensures Ascending(t, 6, 0x7c00_0027, 0x7c00_0036)
  {
    EntriesOk();
    var t := [
      X(31, 20, 0, Fields_rD_rA_rB(), "lwarx"),
      X(31, 23, 0, Fields_rD_rA_rB(), "lwzx"),
      X(31, 24, 0, Fields_rA_rS_rB_Rc(), "slw"),
      X(31, 24, 1, Fields_rA_rS_rB_Rc(), "slw."),
      X(31, 26, 0, Fields_rA_rS_Rc(), "cntlzw"),
      X(31, 26, 1, Fields_rA_rS_Rc(), "cntlzw.")
    ];
    PartOk(t, 0x7c00_0027, 0x7c00_0036);
    t
  }

  function Part10(): (t: seq<Opcode>)
    ensures Ascending(t, 6, 0x7c00_0036, 0x7c00_006d)
  {
    EntriesOk();
    var t := [
      X(31, 28, 0, Fields_rA_rS_rB_Rc(), "and"),
      X(31, 28, 1, Fields_rA_rS_rB_Rc(), "and."),
      X(31, 32, 0, Fields_crfD_L_rA_rB(), "cmpl"),
      XO(31, 40, 0, 0, Fields_rD_rA_rB_OE_Rc(), "subf"),
      XO(31, 40, 0, 1, Fields_rD_rA_rB_OE_Rc(), "subf."),
      X(31, 54, 0, Fields_rA_rB(), "dcbst")
    ];
    PartOk(t, 0x7c00_0036, 0x7c00_006d);
    t
  }

  function Part11(): (t: seq<Opcode>)
    ensures Ascending(t, 6, 0x7c00_006d, 0x7c00_00a7)
  {
    EntriesOk();
    var t := [
      X(31, 55, 0, Fields_rD_rA_rB(), "lwzux"),
      X(31, 60, 0, Fields_rA_rS_rB_Rc(), "andc"),
      X(31, 60, 1, Fields_rA_rS_rB_Rc(), "andc."),
      XO(31, 75, 0, 0, Fields_rD_rA_rB_Rc(), "mulhw"),
      XO(31, 75, 0, 1, Fields_rD_rA_rB_Rc(), "mulhw."),
      X(31, 83, 0, Fields_rD(), "mfmsr")
    ];
    PartOk(t, 0x7c00_006d, 0x7c00_00a7);
    t
  }

  function Part12(): (t: seq<Opcode>)
    ensures Ascending(t, 6, 0x7c00_00a7, 0x7c00_00f9)
  {
    EntriesOk();
    var t := [
      X(31, 86, 0, Fields_rA_rB(), "dcbf"),
      X(31, 87, 0, Fields_rD_rA_rB(), "lbzx"),
      XO(31, 104, 0, 0, Fields_rD_rA_OE_Rc(), "neg"),
      XO(31, 104, 0, 1, Fields_rD_rA_OE_Rc(), "neg."),
      X(31, 119, 0, Fields_rD_rA_rB(), "lbzux"),
      X(31, 124, 0, Fields_rA_rS_rB_Rc(), "nor")
    ];
    PartOk(t, 0x7c00_00a7, 0x7c00_00f9);
    t
  }

  function Part13(): (t: seq<Opcode>)
    ensures Ascending(t, 6, 0x7c00_00f9, 0x7c00_0121)
  {
    EntriesOk();
    var t := [
      X(31, 124, 1, Fields_rA_rS_rB_Rc(), "nor."),
      XO(31, 136, 0, 0, Fields_rD_rA_rB_OE_Rc(), "subfe"),
      XO(31, 136, 0, 1, Fields_rD_rA_rB_OE_Rc(), "subfe."),
      XO(31, 138, 0, 0, Fields_rD_rA_rB_OE_Rc(), "adde"),
      XO(31, 138, 0, 1, Fields_rD_rA_rB_OE_Rc(), "adde."),
      X(31, 144, 0, Fields_CRM_rS(), "mtcrf")
    ];
    PartOk(t, 0x7c00_00f9, 0x7c00_0121);
    t
  }

  function Part14(): (t: seq<Opcode>)
    ensures Ascending(t, 6, 0x7c00_0121, 0x7c00_0192)
  {
    EntriesOk();
    var t := [
      X(31, 146, 0, Fields_rS(), "mtmsr"),
      X(31, 150, 1, Fields_rS_rA_rB(), "stwcx."),
      X(31, 151, 0, Fields_rS_rA_rB(), "stwx"),
      X(31, 183, 0, Fields_rS_rA_rB(), "stwux"),
      XO(31, 200, 0, 0, Fields_rD_rA_OE_Rc(), "subfze"),
      XO(31, 200, 0, 1, Fields_rD_rA_OE_Rc(), "subfze.")
    ];
    PartOk(t, 0x7c00_0121, 0x7c00_0192);
    t
  }

  function Part15(): (t: seq<Opcode>)
    ensures Ascending(t, 6, 0x7c00_0192, 0x7c00_01d2)
  {
    EntriesOk();
    var t := [
      XO(31, 202, 0, 0, Fields_rD_rA_OE_Rc(), "addze"),
      XO(31, 202, 0, 1, Fields_rD_rA_OE_Rc(), "addze."),
      X(31, 210, 0, Fields_SR_rS(), "mtsr"),
      X(31, 215, 0, Fields_rS_rA_rB(), "stbx"),
      XO(31, 232, 0, 0, Fields_rD_rA_OE_Rc(), "subfme"),
      XO(31, 232, 0, 1, Fields_rD_rA_OE_Rc(), "subfme.")
    ];
    PartOk(t, 0x7c00_0192, 0x7c00_01d2);
    t
  }

  function Part16(): (t: seq<Opcode>)
    ensures Ascending(t, 6, 0x7c00_01d2, 0x7c00_01ed)
  {
    EntriesOk();
    var t := [
      XO(31, 234, 0, 0, Fields_rD_rA_OE_Rc(), "addme"),
      XO(31, 234, 0, 1, Fields_rD_rA_OE_Rc(), "addme."),
      XO(31, 235, 0, 0, Fields_rD_rA_rB_OE_Rc(), "mullw"),
      XO(31, 235, 0, 1, Fields_rD_rA_rB_OE_Rc(), "mullw."),
      X(31, 242, 0, Fields_rS_rB(), "mtsrin"),
      X(31, 246, 0, Fields_rA_rB(), "dcbtst")
    ];
    PartOk(t, 0x7c00_01d2, 0x7c00_01ed);
    t
  }

  function Part17(): (t: seq<Opcode>)
    ensures Ascending(t, 6, 0x7c00_01ed, 0x7c00_0239)
  {
    EntriesOk();
    var t := [
      X(31, 247, 0, Fields_rS_rA_rB(), "stbux"),
      XO(31, 266, 0, 0, Fields_rD_rA_rB_OE_Rc(), "add"),
      XO(31, 266, 0, 1, Fields_rD_rA_rB_OE_Rc(), "add."),
      X(31, 278, 0, Fields_rA_rB(), "dcbt"),
      X(31, 279, 0, Fields_rD_rA_rB(), "lhzx"),
      X(31, 284, 0, Fields_rA_rS_rB_Rc(), "eqv")
    ];
    PartOk(t, 0x7c00_01ed, 0x7c00_0239);
    t
  }

  function Part18(): (t: seq<Opcode>)
    ensures Ascending(t, 6, 0x7c00_0239, 0x7c00_027a)
  {
    EntriesOk();
    var t := [
      X(31, 284, 1, Fields_rA_rS_rB_Rc(), "eqv."),
      X(31, 306, 0, Fields_rB(), "tlbie"),
      X(31, 310, 0, Fields_rD_rA_rB(), "eciwx"),
      X(31, 311, 0, Fields_rD_rA_rB(), "lhzux"),
      X(31, 316, 0, Fields_rA_rS_rB_Rc(), "xor"),
      X(31, 316, 1, Fields_rA_rS_rB_Rc(), "xor.")
    ];
    PartOk(t, 0x7c00_0239, 0x7c00_027a);
    t
  }

  function Part19(): (t: seq<Opcode>)
    ensures Ascending(t, 6, 0x7c00_027a, 0x7c00_032f)
  {
    EntriesOk();
    var t := [
      X(31, 339, 0, Fields_rD_spr(), "mfspr"),
      X(31, 343, 0, Fields_rD_rA_rB(), "lhax"),
      X(31, 370, 0, None(), "tlbia"),
      X(31, 371, 0, Fields_rD_tbr(), "mftb"),
      X(31, 375, 0, Fields_rD_rA_rB(), "lhaux"),
      X(31, 407, 0, Fields_rS_rA_rB(), "sthx")
    ];
    PartOk(t, 0x7c00_027a, 0x7c00_032f);
    t
  }

  function Part20(): (t: seq<Opcode>)
    ensures Ascending(t, 6, 0x7c00_032f, 0x7c00_037a)
  {
    EntriesOk();
    var t := [
      X(31, 412, 0, Fields_rA_rS_rB_Rc(), "orc"),
      X(31, 412, 1, Fields_rA_rS_rB_Rc(), "orc."),
      X(31, 438, 0, Fields_rS_rA_rB(), "ecowx"),
      X(31, 439, 0, Fields_rS_rA_rB(), "sthux"),
      X(31, 444, 0, Fields_rA_rS_rB_Rc(), "or"),
      X(31, 444, 1, Fields_rA_rS_rB_Rc(), "or.")
    ];
    PartOk(t, 0x7c00_032f, 0x7c00_037a);
    t
  }

  function Part21(): (t: seq<Opcode>)
    ensures Ascending(t, 6, 0x7c00_037a, 0x7c00_03ba)
  {
    EntriesOk();
    var t := [
      XO(31, 459, 0, 0, Fields_rD_rA_rB_OE_Rc(), "divwu"),
      XO(31, 459, 0, 1, Fields_rD_rA_rB_OE_Rc(), "divwu."),
      X(31, 467, 0, Fields_spr_rS(), "mtspr"),
      X(31, 470, 0, Fields_rA_rB(), "dcbi"),
      X(31, 476, 0, Fields_rA_rS_rB_Rc(), "nand"),
      X(31, 476, 1, Fields_rA_rS_rB_Rc(), "nand.")
    ];
    PartOk(t, 0x7c00_037a, 0x7c00_03ba);
    t
  }

  function Part22(): (t: seq<Opcode>)
    ensures Ascending(t, 6, 0x7c00_03ba, 0x7c00_0415)
  {
    EntriesOk();
    var t := [
      XO(31, 491, 0, 0, Fields_rD_rA_rB_OE_Rc(), "divw"),
      XO(31, 491, 0, 1, Fields_rD_rA_rB_OE_Rc(), "divw."),
      X(31, 512, 0, Fields_crfD(), "mcrxr"),
      XO(31, 8, 1, 0, Fields_rD_rA_rB_OE_Rc(), "subfco"),
      XO(31, 8, 1, 1, Fields_rD_rA_rB_OE_Rc(), "subfco."),
      XO(31, 10, 1, 0, Fields_rD_rA_rB_OE_Rc(), "addco")
    ];
    PartOk(t, 0x7c00_03ba, 0x7c00_0415);
    t
  }

  function Part23(): (t: seq<Opcode>)
    ensures Ascending(t, 6, 0x7c00_0415, 0x7c00_0451)
  {
    EntriesOk();
    var t := [
      XO(31, 10, 1, 1, Fields_rD_rA_rB_OE_Rc(), "addco."),
      X(31, 533, 0, Fields_rD_rA_rB(), "lswx"),
      X(31, 534, 0, Fields_rD_rA_rB(), "lwbrx"),
      X(31, 536, 0, Fields_rA_rS_rB_Rc(), "srw"),
      X(31, 536, 1, Fields_rA_rS_rB_Rc(), "srw."),
      XO(31, 40, 1, 0, Fields_rD_rA_rB_OE_Rc(), "subfo")
    ];
    PartOk(t, 0x7c00_0415, 0x7c00_0451);
    t
  }

  function Part24(): (t: seq<Opcode>)
    ensures Ascending(t, 6, 0x7c00_0451, 0x7c00_04d1)
  {
    EntriesOk();
    var t := [
      XO(31, 40, 1, 1, Fields_rD_rA_rB_OE_Rc(), "subfo."),
      X(31, 566, 0, None(), "tlbsync"),
      X(31, 595, 0, Fields_rD_SR(), "mfsr"),
      X(31, 597, 0, Fields_rD_rA_NB(), "lswi"),
      X(31, 598, 0, None(), "sync"),
      XO(31, 104, 1, 0, Fields_rD_rA_OE_Rc(), "nego")
    ];
    PartOk(t, 0x7c00_0451, 0x7c00_04d1);
    t
  }

  function Part25(): (t: seq<Opcode>)
    ensures Ascending(t, 6, 0x7c00_04d1, 0x7c00_0527)
  {
    EntriesOk();
    var t := [
      XO(31, 104, 1, 1, Fields_rD_rA_OE_Rc(), "nego."),
      XO(31, 136, 1, 0, Fields_rD_rA_rB_OE_Rc(), "subfeo"),
      XO(31, 136, 1, 1, Fields_rD_rA_rB_OE_Rc(), "subfeo."),
      XO(31, 138, 1, 0, Fields_rD_rA_rB_OE_Rc(), "addeo"),
      XO(31, 138, 1, 1, Fields_rD_rA_rB_OE_Rc(), "addeo."),
      X(31, 659, 0, Fields_rD_rB(), "mfsrin")
    ];
    PartOk(t, 0x7c00_04d1, 0x7c00_0527);
    t
  }

  function Part26(): (t: seq<Opcode>)
    ensures Ascending(t, 6, 0x7c00_0527, 0x7c00_0596)
  {
    EntriesOk();
    var t := [
      X(31, 661, 0, Fields_rS_rA_rB(), "stswx"),
      X(31, 662, 0, Fields_rS_rA_rB(), "stwbrx"),
      XO(31, 200, 1, 0, Fields_rD_rA_OE_Rc(), "subfzeo"),
      XO(31, 200, 1, 1, Fields_rD_rA_OE_Rc(), "subfzeo."),
      XO(31, 202, 1, 0, Fields_rD_rA_OE_Rc(), "addzeo"),
      XO(31, 202, 1, 1, Fields_rD_rA_OE_Rc(), "addzeo.")
    ];
    PartOk(t, 0x7c00_0527, 0x7c00_0596);
    t
  }

  function Part27(): (t: seq<Opcode>)
    ensures Ascending(t, 6, 0x7c00_0596, 0x7c00_05d7)
  {
    EntriesOk();
    var t := [
      X(31, 725, 0, Fields_rS_rA_NB(), "stswi"),
      XO(31, 232, 1, 0, Fields_rD_rA_OE_Rc(), "subfmeo"),
      XO(31, 232, 1, 1, Fields_rD_rA_OE_Rc(), "subfmeo."),
      XO(31, 234, 1, 0, Fields_rD_rA_OE_Rc(), "addmeo"),
      XO(31, 234, 1, 1, Fields_rD_rA_OE_Rc(), "addmeo."),
      XO(31, 235, 1, 0, Fields_rD_rA_rB_OE_Rc(), "mullwo")
    ];
    PartOk(t, 0x7c00_0596, 0x7c00_05d7);
    t
  }

  function Part28(): (t: seq<Opcode>)
    ensures Ascending(t, 6, 0x7c00_05d7, 0x7c00_0632)
  {
    EntriesOk();
    var t := [
      XO(31, 235, 1, 1, Fields_rD_rA_rB_OE_Rc(), "mullwo."),
      XO(31, 266, 1, 0, Fields_rD_rA_rB_OE_Rc(), "addo"),
      XO(31, 266, 1, 1, Fields_rD_rA_rB_OE_Rc(), "addo."),
      X(31, 790, 0, Fields_rD_rA_rB(), "lhbrx"),
      X(31, 792, 0, Fields_rA_rS_rB_Rc(), "sraw"),
      X(31, 792, 1, Fields_rA_rS_rB_Rc(), "sraw.")
    ];
    PartOk(t, 0x7c00_05d7, 0x7c00_0632);
    t
  }

  function Part29(): (t: seq<Opcode>)
    ensures Ascending(t, 6, 0x7c00_0632, 0x7c00_0736)
  {
    EntriesOk();
    var t := [
      X(31, 824, 0, Fields_rA_rS_SH_Rc(), "srawi"),
      X(31, 824, 1, Fields_rA_rS_SH_Rc(), "srawi."),
      X(31, 854, 0, None(), "eieio"),
      X(31, 918, 0, Fields_rS_rA_rB(), "sthbrx"),
      X(31, 922, 0, Fields_rA_rS_Rc(), "extsh"),
      X(31, 922, 1, Fields_rA_rS_Rc(), "extsh.")
    ];
    PartOk(t, 0x7c00_0632, 0x7c00_0736);
    t
  }

  function Part30(): (t: seq<Opcode>)
    ensures Ascending(t, 6, 0x7c00_0736, 0x7c00_07ad)
  {
    EntriesOk();
    var t := [
      X(31, 954, 0, Fields_rA_rS_Rc(), "extsb"),
      X(31, 954, 1, Fields_rA_rS_Rc(), "extsb."),
      XO(31, 459, 1, 0, Fields_rD_rA_rB_OE_Rc(), "divwuo"),
      XO(31, 459, 1, 1, Fields_rD_rA_rB_OE_Rc(), "divwuo."),
      X(31, 978, 0, Fields_rB(), "tlbld"),
      X(31, 982, 0, Fields_rA_rB(), "icbi")
    ];
    PartOk(t, 0x7c00_0736, 0x7c00_07ad);
    t
  }

  function Part31(): (t: seq<Opcode>)
    ensures Ascending(t, 6, 0x7c00_07ad, 0x8400_0001)
  {
    EntriesOk();
    var t := [
      XO(31, 491, 1, 0, Fields_rD_rA_rB_OE_Rc(), "divwo"),
      XO(31, 491, 1, 1, Fields_rD_rA_rB_OE_Rc(), "divwo."),
      X(31, 1010, 0, Fields_rB(), "tlbli"),
      X(31, 1014, 0, Fields_rA_rB(), "dcbz"),
      D(32, Fields_rD_d_rA(), "lwz"),
      D(33, Fields_rD_d_rA(), "lwzu")
    ];
    PartOk(t, 0x7c00_07ad, 0x8400_0001);
    t
  }

  function Part32(): (t: seq<Opcode>)
    ensures Ascending(t, 6, 0x8400_0001, 0x9c00_0001)
  {
    EntriesOk();
    var t := [
      D(34, Fields_rD_d_rA(), "lbz"),
      D(35, Fields_rD_d_rA(), "lbzu"),
      D(36, Fields_rS_d_rA(), "stw"),
      D(37, Fields_rS_d_rA(), "stwu"),
      D(38, Fields_rS_d_rA(), "stb"),
      D(39, Fields_rS_d_rA(), "stbu")
    ];
    PartOk(t, 0x8400_0001, 0x9c00_0001);
    t
  }

  function Part33(): (t: seq<Opcode>)
    ensures Ascending(t, 6, 0x9c00_0001, 0xb400_0001)
  {
    EntriesOk();
    var t := [
      D(40, Fields_rD_d_rA(), "lhz"),
      D(41, Fields_rD_d_rA(), "lhzu"),
      D(42, Fields_rD_d_rA(), "lha"),
      D(43, Fields_rD_d_rA(), "lhau"),
      D(44, Fields_rS_d_rA(), "sth"),
      D(45, Fields_rS_d_rA(), "sthu")
    ];
    PartOk(t, 0x9c00_0001, 0xb400_0001);
    t
  }

  function Part34(): (t: seq<Opcode>)
    ensures Ascending(t, 2, 0xb400_0001, 0xbc00_0001)
  {
    EntriesOk();
    var t := [
      D(46, Fields_rD_d_rA(), "lmw"),
      D(47, Fields_rS_d_rA(), "stmw")
    ];
    LastPartOk(t, 0xb400_0001, 0xbc00_0001);
    t
  }

  function Group0(): (t: seq<Opcode>)
    ensures Ascending(t, 24, 0, 0x4c00_0103)
  {
    Appended(Part0(), 6, 0, 0x3000_0001, Part1(), 6, 0x4000_0003);
    Appended(Part0() + Part1(), 12, 0, 0x4000_0003, Part2(), 6, 0x4800_0004);
    Appended(Part0() + Part1() + Part2(), 18, 0, 0x4800_0004, Part3(), 6, 0x4c00_0103);
    Part0() + Part1() + Part2() + Part3()
  }

  function Group1(): (t: seq<Opcode>)
    ensures Ascending(t, 24, 0x4c00_0103, 0x7c00_0011)
  {
    Appended(Part4(), 6, 0x4c00_0103, 0x4c00_0343, Part5(), 6, 0x5400_0001);
    Appended(Part4() + Part5(), 12, 0x4c00_0103, 0x5400_0001, Part6(), 6, 0x6800_0001);
    Appended(Part4() + Part5() + Part6(), 18, 0x4c00_0103, 0x6800_0001, Part7(), 6, 0x7c00_0011);
    Part4() + Part5() + Part6() + Part7()
  }

  function Group2(): (t: seq<Opcode>)
    ensures Ascending(t, 24, 0x7c00_0011, 0x7c00_00a7)
  {
    Appended(Part8(), 6, 0x7c00_0011, 0x7c00_0027, Part9(), 6, 0x7c00_0036);
    Appended(Part8() + Part9(), 12, 0x7c00_0011, 0x7c00_0036, Part10(), 6, 0x7c00_006d);
    Appended(Part8() + Part9() + Part10(), 18, 0x7c00_0011, 0x7c00_006d, Part11(), 6, 0x7c00_00a7);
    Part8() + Part9() + Part10() + Part11()
  }

  function Group3(): (t: seq<Opcode>)
    ensures Ascending(t, 24, 0x7c00_00a7, 0x7c00_01d2)
  {
    Appended(Part12(), 6, 0x7c00_00a7, 0x7c00_00f9, Part13(), 6, 0x7c00_0121);
    Appended(Part12() + Part13(), 12, 0x7c00_00a7, 0x7c00_0121, Part14(), 6, 0x7c00_0192);
    Appended(Part12() + Part13() + Part14(), 18, 0x7c00_00a7, 0x7c00_0192, Part15(), 6, 0x7c00_01d2);
    Part12() + Part13() + Part14() + Part15()
  }

  function Group4(): (t: seq<Opcode>)
    ensures Ascending(t, 24, 0x7c00_01d2, 0x7c00_032f)
  {
    Appended(Part16(), 6, 0x7c00_01d2, 0x7c00_01ed, Part17(), 6, 0x7c00_0239);
    Appended(Part16() + Part17(), 12, 0x7c00_01d2, 0x7c00_0239, Part18(), 6, 0x7c00_027a);
    Appended(Part16() + Part17() + Part18(), 18, 0x7c00_01d2, 0x7c00_027a, Part19(), 6, 0x7c00_032f);
    Part16() + Part17() + Part18() + Part19()
  }

  function Group5(): (t: seq<Opcode>)
    ensures Ascending(t, 24, 0x7c00_032f, 0x7c00_0451)
  {
    Appended(Part20(), 6, 0x7c00_032f, 0x7c00_037a, Part21(), 6, 0x7c00_03ba);
    Appended(Part20() + Part21(), 12, 0x7c00_032f, 0x7c00_03ba, Part22(), 6, 0x7c00_0415);
    Appended(Part20() + Part21() + Part22(), 18, 0x7c00_032f, 0x7c00_0415, Part23(), 6, 0x7c00_0451);
    Part20() + Part21() + Part22() + Part23()
  }

  function Group6(): (t: seq<Opcode>)
    ensures Ascending(t, 24, 0x7c00_0451, 0x7c00_05d7)
  {
    Appended(Part24(), 6, 0x7c00_0451, 0x7c00_04d1, Part25(), 6, 0x7c00_0527);
    Appended(Part24() + Part25(), 12, 0x7c00_0451, 0x7c00_0527, Part26(), 6, 0x7c00_0596);
    Appended(Part24() + Part25() + Part26(), 18, 0x7c00_0451, 0x7c00_0596, Part27(), 6, 0x7c00_05d7);
    Part24() + Part25() + Part26() + Part27()
  }

  function Group7(): (t: seq<Opcode>)
    ensures Ascending(t, 24, 0x7c00_05d7, 0x8400_0001)
  {
    Appended(Part28(), 6, 0x7c00_05d7, 0x7c00_0632, Part29(), 6, 0x7c00_0736);
    Appended(Part28() + Part29(), 12, 0x7c00_05d7, 0x7c00_0736, Part30(), 6, 0x7c00_07ad);
    Appended(Part28() + Part29() + Part30(), 18, 0x7c00_05d7, 0x7c00_07ad, Part31(), 6, 0x8400_0001);
    Part28() + Part29() + Part30() + Part31()
  }

  function Group8(): (t: seq<Opcode>)
    ensures Ascending(t, 14, 0x8400_0001, 0xbc00_0001)
  {
    Appended(Part32(), 6, 0x8400_0001, 0x9c00_0001, Part33(), 6, 0xb400_0001);
    Appended(Part32() + Part33(), 12, 0x8400_0001, 0xb400_0001, Part34(), 2, 0xbc00_0001);
    Part32() + Part33() + Part34()
  }

  function Group9(): (t: seq<Opcode>)
    ensures Ascending(t, 96, 0, 0x7c00_01d2)
  {
    Appended(Group0(), 24, 0, 0x4c00_0103, Group1(), 24, 0x7c00_0011);
    Appended(Group0() + Group1(), 48, 0, 0x7c00_0011, Group2(), 24, 0x7c00_00a7);
    Appended(Group0() + Group1() + Group2(), 72, 0, 0x7c00_00a7, Group3(), 24, 0x7c00_01d2);
    Group0() + Group1() + Group2() + Group3()
  }

  function Group10(): (t: seq<Opcode>)
    ensures Ascending(t, 96, 0x7c00_01d2, 0x8400_0001)
  {
    Appended(Group4(), 24, 0x7c00_01d2, 0x7c00_032f, Group5(), 24, 0x7c00_0451);
    Appended(Group4() + Group5(), 48, 0x7c00_01d2, 0x7c00_0451, Group6(), 24, 0x7c00_05d7);
    Appended(Group4() + Group5() + Group6(), 72, 0x7c00_01d2, 0x7c00_05d7, Group7(), 24, 0x8400_0001);
    Group4() + Group5() + Group6() + Group7()
  }

  function Group11(): (t: seq<Opcode>)
    ensures Ascending(t, 14, 0x8400_0001, 0xbc00_0001)
  {
    Group8()
  }

  function Opcodes(): (t: seq<Opcode>)
    ensures Ascending(t, 206, 0, 0xbc00_0001)
  {
    Appended(Group9(), 96, 0, 0x7c00_01d2, Group10(), 96, 0x8400_0001);
    Appended(Group9() + Group10(), 192, 0, 0x8400_0001, Group11(), 14, 0xbc00_0001);
    Group9() + Group10() + Group11()
  }

  // ----- what this means -----

  /** The mask has nothing between its low bits and the primary opcode. */
  lemma MaskEmpty(primary: nat, shift: nat, bits: nat)
    requires primary < 64 && Width(primary) <= shift && shift + bits <= 26
    ensures Extract(63 * PRIMARY + LowMask(primary), shift, bits) == 0
  {
    var mask, width := 63 * PRIMARY + LowMask(primary), Width(primary);
    forall i: nat
      ensures BitOf(Extract(mask, shift, bits), i) <==> BitOf(0, i)
    {
      BitOfExtract(mask, shift, bits, i);
      NoHighBits(0, 0, i);
      if i < bits { MaskBit(primary, i + shift, 26); }
    }
    BitsDecide(Extract(mask, shift, bits), 0);
  }

  lemma Primary26(n: nat)
    requires n == 26
    ensures Pow2(n) == PRIMARY
  {
    Eight2(n - 8);
    Eight2(n - 16);
    Eight2(n - 24);
    assert Pow2(n - 24) == 4 * Pow2(n - 26);
  }

  lemma Eight2(n: nat)
    ensures Pow2(n + 8) == 256 * Pow2(n)
  {
    assert Pow2(n + 8) == 4 * Pow2(n + 6) && Pow2(n + 6) == 4 * Pow2(n + 4);
    assert Pow2(n + 4) == 4 * Pow2(n + 2) && Pow2(n + 2) == 4 * Pow2(n);
  }

  lemma LowMaskFits(primary: nat, one: nat)
    requires one == 1
    ensures LowMask(primary) < Pow2(Width(primary))
  {
    assert Pow2(one - 1) == 1 && Pow2(one) == 2 && Pow2(one + 1) == 4;
    Eight2(one + 2);
    assert Pow2(one + 2) == 8;
  }

  lemma LowMaskIs(primary: nat, one: nat)
    requires one == 1 && LowMask(primary) != 2
    ensures LowMask(primary) == Pow2(Width(primary)) - 1
  {
    assert Pow2(one - 1) == 1 && Pow2(one) == 2 && Pow2(one + 1) == 4;
    Eight2(one + 2);
    assert Pow2(one + 2) == 8;
  }

  lemma MaskLow(primary: nat, mask: nat, n: nat)
    requires n == 26 && mask == 63 * PRIMARY + LowMask(primary)
    ensures Lowest(mask, n) == LowMask(primary)
  {
    Primary26(n);
    LowestAre(mask, n);
    Remains(LowMask(primary));
  }

  lemma Remains(low: nat)
    requires low < PRIMARY
    ensures (63 * PRIMARY + low) % PRIMARY == low
  {}

  lemma MaskBit(primary: nat, i: nat, n: nat)
    requires Width(primary) <= i < n && n == 26
    ensures !BitOf(63 * PRIMARY + LowMask(primary), i)
  {
    var mask := 63 * PRIMARY + LowMask(primary);
    MaskLow(primary, mask, n);
    BitOfLow(mask, n, i);
    LowMaskFits(primary, 1);
    NoHighBits(LowMask(primary), Width(primary), i);
  }

  lemma LowMasked(primary: nat, low: nat)
    requires LowOk(primary, low)
    ensures And(low, LowMask(primary)) == low
  {
    var m := LowMask(primary);
    if m == 2 {
      AndHalf(2, 2);
      AndHalf(1, 1);
      AndHalf(0, 0);
    } else {
      LowMaskIs(primary, 1);
      MaskKeepsAll(low, Width(primary));
    }
  }

  /** The opcode is under its mask. */
  lemma OpcodeMasked(e: Opcode, n: nat)
    requires EntryOk(e) && n == 26
    ensures And(e.opcode, e.mask) == e.opcode
  {
    var primary, low := e.opcode / PRIMARY, e.opcode % PRIMARY;
    Shifted(primary, n);
    Shifted(63, n);
    SmallPart(low, n);
    SmallPart(LowMask(primary), n);
    Masked(primary, low, n, e.opcode - low, 63 * PRIMARY);
  }

  lemma Masked(primary: nat, low: nat, n: nat, high: nat, mask: nat)
    requires primary < 64 && LowOk(primary, low) && low < Pow2(n) && LowMask(primary) < Pow2(n)
    requires high == Up(primary, n) && mask == Up(63, n)
    ensures And(high + low, mask + LowMask(primary)) == high + low
  {
    LowMasked(primary, low);
    Sixty3(primary, 6);
    AndParts(primary, low, 63, LowMask(primary), n);
  }

  lemma SmallPart(x: nat, n: nat)
    requires x <= 0x7ff && n == 26
    ensures x < Pow2(n)
  {
    Primary26(n);
  }

  lemma Shifted(x: nat, n: nat)
    requires n == 26
    ensures Up(x, n) == x * PRIMARY
  {
    Primary26(n);
    UpIs(x, n);
  }

  lemma Sixty3(primary: nat, n: nat)
    requires primary < 64 && n == 6
    ensures And(primary, 63) == primary
  {
    assert Pow2(n) == 4 * Pow2(n - 2) && Pow2(n - 2) == 4 * Pow2(n - 4) && Pow2(n - 4) == 4 * Pow2(n - 6);
    MaskKeepsAll(primary, n);
  }

  lemma FieldsWellFormed(e: Opcode)
    requires EntryOk(e)
    ensures Numbered(Operands(), e)
    ensures forall k {:trigger e.fields[k]} :: 0 <= k < |e.fields| ==>
      OperandAt(Operands(), e, k) == OperandOf(e.fields[k])
  {
    forall k {:trigger e.fields[k]} | 0 <= k < |e.fields|
      ensures 1 <= e.fields[k] <= 35 && Fitting(OperandOf(e.fields[k]))
    {
      assert Fit(e.fields[k], Width(e.opcode / PRIMARY));
    }
  }

  lemma FieldsApart(e: Opcode, j: nat, k: nat)
    requires EntryOk(e) && Numbered(Operands(), e) && j < k < |e.fields|
    ensures e.fields[j] != e.fields[k] && Disjoint(OperandAt(Operands(), e, j), OperandAt(Operands(), e, k))
  {
    FieldsWellFormed(e);
    assert OperandAt(Operands(), e, j) == OperandOf(e.fields[j])
      && OperandAt(Operands(), e, k) == OperandOf(e.fields[k]);
  }

  lemma FieldEmpty(e: Opcode, k: nat)
    requires EntryOk(e) && Numbered(Operands(), e) && k < |e.fields|
    ensures var o := OperandAt(Operands(), e, k); o.hint == Silent || Extract(e.mask, o.shift, o.bits) == 0
  {
    var o := OperandAt(Operands(), e, k);
    FieldsWellFormed(e);
    assert o == OperandOf(e.fields[k]) && Fit(e.fields[k], Width(e.opcode / PRIMARY));
    if o.hint != Silent { MaskEmpty(e.opcode / PRIMARY, o.shift, o.bits); }
  }

  lemma Fits32(e: Opcode, n: nat)
    requires EntryOk(e) && n == 32
    ensures e.opcode < Pow2(n)
  {
    Primary26(n - 6);
    assert Pow2(n) == 4 * Pow2(n - 2) && Pow2(n - 2) == 4 * Pow2(n - 4) && Pow2(n - 4) == 4 * Pow2(n - 6);
  }

  /** Every entry is well formed... */
  lemma EntryWellFormed(e: Opcode)
    requires EntryOk(e)
    ensures WellFormed(Operands(), e)
  {
    FieldsWellFormed(e);
    OpcodeMasked(e, 26);
    Fits32(e, 32);
    forall k: nat | k < |e.fields|
      ensures OperandAt(Operands(), e, k).hint == Silent
        || Extract(e.mask, OperandAt(Operands(), e, k).shift, OperandAt(Operands(), e, k).bits) == 0
    {
      FieldEmpty(e, k);
    }
    forall j: nat, k: nat | j < k < |e.fields|
      ensures e.fields[j] != e.fields[k] && Disjoint(OperandAt(Operands(), e, j), OperandAt(Operands(), e, k))
    {
      FieldsApart(e, j, k);
    }
  }

  lemma {:induction false} DownIs(x: nat, n: nat)
    ensures Down(x, n) == x / Pow2(n)
    decreases n
  {
    if n > 0 {
      DownIs(x / 2, n - 1);
      HalveFirst(x, Pow2(n - 1));
    }
  }

  /** ... and those with smaller opcodes come before those with larger ones: the primary opcode determines the mask. */
  lemma EntriesBefore(e: Opcode, e': Opcode, n: nat)
    requires EntryOk(e) && EntryOk(e') && e.opcode < e'.opcode && n == 26
    ensures Before(e, e')
  {
    if e.opcode / PRIMARY == e'.opcode / PRIMARY {
      assert Down(e.mask, 0) == Down(e'.mask, 0) && Down(e.opcode, 0) < Down(e'.opcode, 0);
    } else {
      Primary26(n);
      DownIs(e.opcode, n);
      DownIs(e'.opcode, n);
      DownIs(e.mask, n);
      DownIs(e'.mask, n);
      assert Down(e.mask, n) == Down(e'.mask, n) && Down(e.opcode, n) < Down(e'.opcode, n);
    }
  }

  lemma AreOk(t: seq<Opcode>, n: nat, hi: nat)
    requires Ascending(t, n, 0, hi)
    ensures Ordered(t) && forall e {:trigger WellFormed(Operands(), e)} :: e in t ==> WellFormed(Operands(), e)
  {
    forall e | e in t ensures WellFormed(Operands(), e) { EntryWellFormed(e); }
    forall j, k {:trigger t[j], t[k]} | 0 <= j < k < |t| ensures Before(t[j], t[k]) { EntriesBefore(t[j], t[k], 26); }
  }

  /** The table is ordered and well formed: what the assembler and the disassembler need. */
  lemma TableOk()
    ensures |Opcodes()| == 206 && Ordered(Opcodes()) && forall e {:trigger WellFormed(Operands(), e)} ::
      e in Opcodes() ==> WellFormed(Operands(), e)
  {
    AreOk(Opcodes(), 206, 0xbc00_0001);
  }

}
