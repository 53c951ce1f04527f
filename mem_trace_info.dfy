/** The memory-trace fixture enumerator of the MSP430 TableGen backend: for
    every instruction record it decodes the As/Ad addressing-mode fields,
    enumerates one assembly fixture per combination of registers and
    addressing modes, and emits one numbered row per fixture. */
module MemTraceInfo {
  import opened Text

  // ---------------------------------------------------------------------
  // getValueFromBitsInit

  function Pow2(n: nat): (r: nat)
    ensures r >= 1
  {
    if n == 0 then 1 else 2 * Pow2(n - 1)
  }

  lemma {:induction false} Pow2Monotone(m: nat, n: nat)
    requires m <= n
    ensures Pow2(m) <= Pow2(n)
    decreases n - m
  {
    if m < n {
      Pow2Monotone(m, n - 1);
    }
  }

  /** The value of a bit field, bit 0 first: the sum of bit i times 2^i. */
  function BitsValue(bits: seq<bool>): nat
    decreases |bits|
  {
    if bits == [] then 0
    else BitsValue(bits[..|bits| - 1]) + (if bits[|bits| - 1] then Pow2(|bits| - 1) else 0)
  }

  /** A field of n bits has a value below 2^n. */
  lemma {:induction false} BitsValueBound(bits: seq<bool>)
    ensures BitsValue(bits) < Pow2(|bits|)
    decreases |bits|
  {
    if bits != [] {
      BitsValueBound(bits[..|bits| - 1]);
    }
  }

  /** The n-bit field of a value below 2^n, bit 0 first. */
  function BitsOf(v: nat, n: nat): (bits: seq<bool>)
    ensures |bits| == n
  {
    if n == 0 then []
    else
      var top := v >= Pow2(n - 1);
      BitsOf(if top then v - Pow2(n - 1) else v, n - 1) + [top]
  }

  /** Reading a field back from its value gives the field: the value
      determines the bits. */
  lemma {:induction false} BitsOfValue(bits: seq<bool>)
    ensures BitsOf(BitsValue(bits), |bits|) == bits
    decreases |bits|
  {
    if bits != [] {
      var n := |bits|;
      var init := bits[..n - 1];
      BitsValueBound(init);
      BitsOfValue(init);
      assert init + [bits[n - 1]] == bits;
    }
  }

  /** Two fields of the same width with the same value are equal. */
  lemma BitsValueInjective(a: seq<bool>, b: seq<bool>)
    requires |a| == |b| && BitsValue(a) == BitsValue(b)
    ensures a == b
  {
    BitsOfValue(a);
    BitsOfValue(b);
  }

  /** getValueFromBitsInit: accumulates bit i at position i. Bit i is still
      clear when it is set, so the or-assignment adds 2^i. */
  method GetValueFromBits(bits: seq<bool>) returns (value: nat)
    requires |bits| <= 64
    ensures value == BitsValue(bits)
    ensures value < Pow2(64)
  {
    value := 0;
    var i := 0;
    while i != |bits|
      invariant 0 <= i <= |bits|
      invariant value == BitsValue(bits[..i])
    {
      assert bits[..i + 1][..i] == bits[..i];
      value := value + (if bits[i] then Pow2(i) else 0);
      i := i + 1;
    }
    assert bits[..i] == bits;
    BitsValueBound(bits);
    Pow2Monotone(|bits|, 64);
  }

  // ---------------------------------------------------------------------
  // generate_source_operand_instructions

  /** The i-th register source operand: "<opcode> r<i>, ". */
  function RegisterOperand(opcode: string, i: nat): string
  {
    opcode + " r" + DecimalString(i) + ", "
  }

  /** The k-th memory source operand: indexed through r4..r15 after loading
      the register with 3999, then symbolic and absolute address 4000. */
  function MemoryOperand(opcode: string, k: nat): string
  {
    if k < 12 then
      "mov r" + DecimalString(k + 4) + ", #3999; " + opcode + " 1(r" + DecimalString(k + 4) + "), "
    else if k == 12 then opcode + " 4000, "
    else opcode + " &4000, "
  }

  /** generate_source_operand_instructions: 16 register operands for mode
      'r', 14 memory operands for mode 'm', none for any other mode. */
  method SourceOperands(mode: char, opcode: string) returns (ops: seq<string>)
    ensures mode == 'r' ==> |ops| == 16 && forall i :: 0 <= i < 16 ==> ops[i] == RegisterOperand(opcode, i)
    ensures mode == 'm' ==> |ops| == 14 && forall k :: 0 <= k < 14 ==> ops[k] == MemoryOperand(opcode, k)
    ensures mode != 'r' && mode != 'm' ==> ops == []
  {
    ops := [];
    if mode == 'r' {
      ghost var all := seq(16, i requires 0 <= i < 16 => RegisterOperand(opcode, i));
      var i := 0;
      while i < 16
        invariant 0 <= i <= 16
        invariant ops == all[..i]
      {
        PrefixExtend(all, i);
        ops := ops + [opcode + " r" + DecimalString(i) + ", "];
        i := i + 1;
      }
      assert all[..16] == all;
    } else if mode == 'm' {
      ghost var all := seq(14, k requires 0 <= k < 14 => MemoryOperand(opcode, k));
      var j := 4;
      while j < 16
        invariant 4 <= j <= 16
        invariant ops == all[..j - 4]
      {
        PrefixExtend(all, j - 4);
        var instr := "mov r" + DecimalString(j) + ", #3999; ";
        instr := instr + opcode + " 1(r" + DecimalString(j) + "), ";
        ops := ops + [instr];
        j := j + 1;
      }
      PrefixExtend(all, 12);
      ops := ops + [opcode + " 4000, "];
      PrefixExtend(all, 13);
      ops := ops + [opcode + " &4000, "];
      assert all[..14] == all;
    }
  }

  // ---------------------------------------------------------------------
  // ComputeMemoryTrace

  /** An instruction record: its name, whether it is an IForm instruction,
      its As and Ad fields and its flattened assembly string. */
  datatype InstrRecord = InstrRecord(name: string, isIForm: bool, asBits: seq<bool>, adBits: seq<bool>, asmString: string)

  /** The opcode: the assembly string up to its first tab. */
  function OpcodeOf(asm: string): string
  {
    if asm == [] || asm[0] == '\t' then [] else [asm[0]] + OpcodeOf(asm[1..])
  }

  /** The opcode is the longest tab-free prefix of the assembly string. */
  lemma {:induction false} OpcodeOfPrefix(asm: string)
    ensures var op := OpcodeOf(asm);
      |op| <= |asm| && op == asm[..|op|] && '\t' !in op && (|op| == |asm| || asm[|op|] == '\t')
  {
    if asm != [] && asm[0] != '\t' {
      var t := asm[1..];
      OpcodeOfPrefix(t);
      var o := OpcodeOf(t);
      assert OpcodeOf(asm) == [asm[0]] + o;
      assert asm[..|o| + 1] == [asm[0]] + t[..|o|];
    }
  }

  /** The opcode-extraction loop of ComputeMemoryTrace. */
  method ExtractOpcode(asm: string) returns (opcode: string)
    ensures opcode == OpcodeOf(asm)
  {
    opcode := "";
    var i := 0;
    while i < |asm| && asm[i] != '\t'
      invariant 0 <= i <= |asm|
      invariant opcode == asm[..i]
      invariant OpcodeOf(asm) == opcode + OpcodeOf(asm[i..])
    {
      OpcodeOfFrom(asm, i);
      PrefixExtend(asm, i);
      opcode := opcode + [asm[i]];
      i := i + 1;
    }
    OpcodeOfFrom(asm, i);
  }

  /** From position i, the opcode is empty at the end or at a tab, and
      otherwise starts with the character at i. */
  lemma OpcodeOfFrom(asm: string, i: nat)
    requires i <= |asm|
    ensures i == |asm| || asm[i] == '\t' ==> OpcodeOf(asm[i..]) == []
    ensures i < |asm| && asm[i] != '\t' ==> OpcodeOf(asm[i..]) == [asm[i]] + OpcodeOf(asm[i + 1..])
  {
    if i < |asm| {
      assert asm[i..][1..] == asm[i + 1..];
    }
  }

  /** INS#rr: every register source with every destination register. */
  function FixturesRR(op: string): seq<string>
  {
    seq(256, k requires 0 <= k < 256 => RegisterOperand(op, k / 16) + "r" + DecimalString(k % 16))
  }

  /** INS#mr, indexed: every register source into 1(r4)..1(r15), each
      register loaded with 2999 first. */
  function IndexedMR(op: string): seq<string>
  {
    seq(192, k requires 0 <= k < 192 =>
      "mov r" + DecimalString(k % 12 + 4) + ", #2999; " + RegisterOperand(op, k / 12) + "1(r" + DecimalString(k % 12 + 4) + ")")
  }

  /** INS#mr: the indexed fixtures, then r4..r15 stored to symbolic and to
      absolute address 3000. */
  function FixturesMR(op: string): seq<string>
  {
    IndexedMR(op)
    + seq(12, k requires 0 <= k < 12 => RegisterOperand(op, k + 4) + "3000")
    + seq(12, k requires 0 <= k < 12 => RegisterOperand(op, k + 4) + "&3000")
  }

  /** INS#rm: every memory source with every destination register. */
  function FixturesRM(op: string): seq<string>
  {
    seq(224, k requires 0 <= k < 224 => MemoryOperand(op, k / 16) + "r" + DecimalString(k % 16))
  }

  /** The fixtures of an instruction record, by its As and Ad values. */
  function MemoryTrace(rec: InstrRecord): seq<string>
  {
    if !rec.isIForm then ["nothing yet"]
    else
      var op := OpcodeOf(rec.asmString);
      var asValue := BitsValue(rec.asBits);
      var adValue := BitsValue(rec.adBits);
      if asValue == 0 then (if adValue == 0 then FixturesRR(op) else if adValue == 1 then FixturesMR(op) else [])
      else if asValue == 1 then (if adValue == 0 then FixturesRM(op) else [])
      else if asValue == 2 then (if adValue == 0 then ["Indirect"] else [])
      else if asValue == 3 then [""]
      else []
  }

  /** The number of fixtures per addressing-mode combination. */
  lemma MemoryTraceCounts(rec: InstrRecord)
    ensures !rec.isIForm ==> MemoryTrace(rec) == ["nothing yet"]
    ensures rec.isIForm && BitsValue(rec.asBits) == 0 && BitsValue(rec.adBits) == 0 ==> |MemoryTrace(rec)| == 16 * 16
    ensures rec.isIForm && BitsValue(rec.asBits) == 0 && BitsValue(rec.adBits) == 1 ==> |MemoryTrace(rec)| == 16 * 12 + 12 + 12
    ensures rec.isIForm && BitsValue(rec.asBits) == 1 && BitsValue(rec.adBits) == 0 ==> |MemoryTrace(rec)| == 14 * 16
    ensures rec.isIForm && BitsValue(rec.asBits) == 2 && BitsValue(rec.adBits) == 0 ==> MemoryTrace(rec) == ["Indirect"]
    ensures rec.isIForm && BitsValue(rec.asBits) == 3 ==> MemoryTrace(rec) == [""]
    ensures rec.isIForm && !(BitsValue(rec.asBits) == 0 && BitsValue(rec.adBits) <= 1)
            && !(1 <= BitsValue(rec.asBits) <= 2 && BitsValue(rec.adBits) == 0)
            && BitsValue(rec.asBits) != 3
            ==> MemoryTrace(rec) == []
  {
  }

  /** ComputeMemoryTrace: the nested generator loops produce the fixtures of
      the record. */
  method ComputeMemoryTrace(rec: InstrRecord) returns (gen: seq<string>)
    requires rec.isIForm ==> |rec.asBits| <= 64 && |rec.adBits| <= 64
    ensures gen == MemoryTrace(rec)
  {
    gen := [];
    var opcode := "";
    if rec.asmString != [] {
      opcode := ExtractOpcode(rec.asmString);
    }
    if !rec.isIForm {
      gen := gen + ["nothing yet"];
      return;
    }
    var sourceReg := SourceOperands('r', opcode);
    var sourceMem := SourceOperands('m', opcode);
    var asValue := GetValueFromBits(rec.asBits);
    var adValue := GetValueFromBits(rec.adBits);
    if asValue == 0 {
      if adValue == 0 {
        gen := GenerateRR(sourceReg, opcode);
      } else if adValue == 1 {
        gen := GenerateMR(sourceReg, opcode);
      }
    } else if asValue == 1 {
      if adValue == 0 {
        gen := GenerateRM(sourceMem, opcode);
      }
    } else if asValue == 2 {
      if adValue == 0 {
        gen := gen + ["Indirect"];
      }
    } else if asValue == 3 {
      gen := gen + [""];
    }
  }

  /** Every source operand of `srcs` followed by each destination register
      r0..r15 in turn. */
  function WithDestRegs(srcs: seq<string>): (r: seq<string>)
    ensures |r| == 16 * |srcs|
  {
    seq(16 * |srcs|, k requires 0 <= k < 16 * |srcs| => srcs[k / 16] + "r" + DecimalString(k % 16))
  }

  lemma WithDestRegsAt(srcs: seq<string>, i: nat, j: nat)
    requires i < |srcs| && j < 16
    ensures WithDestRegs(srcs)[16 * i + j] == srcs[i] + "r" + DecimalString(j)
  {
    assert (16 * i + j) / 16 == i && (16 * i + j) % 16 == j;
  }

  /** With the register source operands, these are the INS#rr fixtures. */
  lemma WithDestRegsRR(srcs: seq<string>, op: string)
    requires |srcs| == 16 && forall k :: 0 <= k < 16 ==> srcs[k] == RegisterOperand(op, k)
    ensures WithDestRegs(srcs) == FixturesRR(op)
  {
    forall k | 0 <= k < 256
      ensures WithDestRegs(srcs)[k] == FixturesRR(op)[k]
    {
      assert srcs[k / 16] == RegisterOperand(op, k / 16);
    }
  }

  /** With the memory source operands, these are the INS#rm fixtures. */
  lemma WithDestRegsRM(srcs: seq<string>, op: string)
    requires |srcs| == 14 && forall k :: 0 <= k < 14 ==> srcs[k] == MemoryOperand(op, k)
    ensures WithDestRegs(srcs) == FixturesRM(op)
  {
    forall k | 0 <= k < 224
      ensures WithDestRegs(srcs)[k] == FixturesRM(op)[k]
    {
      assert srcs[k / 16] == MemoryOperand(op, k / 16);
    }
  }

  /** The nested loops shared by INS#rr and INS#rm: for every source
      operand in turn, one fixture per destination register r0..r15. */
  method PairWithDestRegs(srcs: seq<string>) returns (gen: seq<string>)
    ensures gen == WithDestRegs(srcs)
  {
    ghost var all := WithDestRegs(srcs);
    gen := [];
    var i := 0;
    while i < |srcs|
      invariant 0 <= i <= |srcs|
      invariant gen == all[..16 * i]
    {
      var j := 0;
      while j < 16
        invariant 0 <= j <= 16
        invariant gen == all[..16 * i + j]
      {
        WithDestRegsAt(srcs, i, j);
        PrefixExtend(all, 16 * i + j);
        gen := gen + [srcs[i] + "r" + DecimalString(j)];
        j := j + 1;
      }
      i := i + 1;
    }
    assert all[..|all|] == all;
  }

  /** The INS#rr loops. */
  method GenerateRR(sourceReg: seq<string>, opcode: string) returns (gen: seq<string>)
    requires |sourceReg| == 16 && forall i :: 0 <= i < 16 ==> sourceReg[i] == RegisterOperand(opcode, i)
    ensures gen == FixturesRR(opcode)
  {
    gen := PairWithDestRegs(sourceReg);
    WithDestRegsRR(sourceReg, opcode);
  }

  lemma FixturesMRAt(op: string, i: nat, j: nat)
    requires i < 16 && 4 <= j < 16
    ensures FixturesMR(op)[12 * i + j - 4]
         == "mov r" + DecimalString(j) + ", #2999; " + RegisterOperand(op, i) + "1(r" + DecimalString(j) + ")"
    ensures FixturesMR(op)[192 + j - 4] == RegisterOperand(op, j) + "3000"
    ensures FixturesMR(op)[204 + j - 4] == RegisterOperand(op, j) + "&3000"
  {
    IndexedMRAt(op, i, j);
  }

  /** Indexed fixture number 12i + j - 4 stores source register i through
      destination register j. */
  lemma IndexedMRAt(op: string, i: nat, j: nat)
    requires i < 16 && 4 <= j < 16
    ensures IndexedMR(op)[12 * i + j - 4]
         == "mov r" + DecimalString(j) + ", #2999; " + RegisterOperand(op, i) + "1(r" + DecimalString(j) + ")"
  {
    DivMod12(i, j - 4);
  }

  lemma DivMod12(i: nat, r: nat)
    requires r < 12
    ensures (12 * i + r) / 12 == i && (12 * i + r) % 12 == r
  {
  }

  /** The INS#mr loops: indexed, then symbolic, then absolute. */
  method GenerateMR(sourceReg: seq<string>, opcode: string) returns (gen: seq<string>)
    requires |sourceReg| == 16 && forall i :: 0 <= i < 16 ==> sourceReg[i] == RegisterOperand(opcode, i)
    ensures gen == FixturesMR(opcode)
  {
    ghost var all := FixturesMR(opcode);
    gen := [];
    var i := 0;
    while i < 16
      invariant 0 <= i <= 16
      invariant gen == all[..12 * i]
    {
      var j := 4;
      while j < 16
        invariant 4 <= j <= 16
        invariant gen == all[..12 * i + j - 4]
      {
        FixturesMRAt(opcode, i, j);
        PrefixExtend(all, 12 * i + j - 4);
        var instr := "mov r" + DecimalString(j) + ", #2999; ";
        instr := instr + sourceReg[i] + "1(r" + DecimalString(j) + ")";
        gen := gen + [instr];
        j := j + 1;
      }
      i := i + 1;
    }
    i := 4;
    while i < 16
      invariant 4 <= i <= 16
      invariant gen == all[..192 + i - 4]
    {
      FixturesMRAt(opcode, 0, i);
      PrefixExtend(all, 192 + i - 4);
      gen := gen + [sourceReg[i] + "3000"];
      i := i + 1;
    }
    i := 4;
    while i < 16
      invariant 4 <= i <= 16
      invariant gen == all[..204 + i - 4]
    {
      FixturesMRAt(opcode, 0, i);
      PrefixExtend(all, 204 + i - 4);
      gen := gen + [sourceReg[i] + "&3000"];
      i := i + 1;
    }
    assert all[..|all|] == all;
  }

  /** The INS#rm loops. */
  method GenerateRM(sourceMem: seq<string>, opcode: string) returns (gen: seq<string>)
    requires |sourceMem| == 14 && forall k :: 0 <= k < 14 ==> sourceMem[k] == MemoryOperand(opcode, k)
    ensures gen == FixturesRM(opcode)
  {
    gen := PairWithDestRegs(sourceMem);
    WithDestRegsRM(sourceMem, opcode);
  }

  // ---------------------------------------------------------------------
  // Row emission in run

  /** A row of the Generated_Instructions table: the instruction index, a
      fixture and the instruction name. */
  datatype Row = Row(num: nat, fixture: string, name: string)

  /** The text of a row. */
  function RowText(row: Row, namespace: string): string
  {
    "/* " + DecimalString(row.num) + "*/ " + "{" + row.fixture + "}, " + "// " + namespace + "::" + row.name + "\n"
  }

  /** One row per fixture, all with the same number and name. */
  function NumberedRows(num: nat, gen: seq<string>, name: string): seq<Row>
  {
    seq(|gen|, i requires 0 <= i < |gen| => Row(num, gen[i], name))
  }

  /** The rows of instruction number num. */
  function InstrRows(num: nat, rec: InstrRecord): seq<Row>
  {
    NumberedRows(num, MemoryTrace(rec), rec.name)
  }

  /** The rows of all instructions, numbered in enumeration order. */
  function AllRows(recs: seq<InstrRecord>): seq<Row>
    decreases |recs|
  {
    if recs == [] then [] else AllRows(recs[..|recs| - 1]) + InstrRows(|recs| - 1, recs[|recs| - 1])
  }

  predicate BitsFit(recs: seq<InstrRecord>)
  {
    forall n :: 0 <= n < |recs| ==> (recs[n].isIForm ==> |recs[n].asBits| <= 64 && |recs[n].adBits| <= 64)
  }

  /** The emission loop of run: Num counts instructions, and every fixture
      of instruction Num becomes one row. */
  method EmitRows(recs: seq<InstrRecord>) returns (rows: seq<Row>)
    requires BitsFit(recs)
    ensures rows == AllRows(recs)
  {
    rows := [];
    var num: nat := 0;
    while num < |recs|
      invariant num <= |recs|
      invariant rows == AllRows(recs[..num])
    {
      var rec := recs[num];
      var generated := ComputeMemoryTrace(rec);
      AllRowsSnoc(recs, num);
      rows := EmitInstrRows(rows, num, generated, rec.name);
      num := num + 1;
    }
    assert recs[..num] == recs;
  }

  /** The inner loop of the emission: one row per fixture of instruction
      num, appended in fixture order. */
  method EmitInstrRows(rows0: seq<Row>, num: nat, generated: seq<string>, name: string) returns (rows: seq<Row>)
    ensures rows == rows0 + NumberedRows(num, generated, name)
  {
    ghost var all := NumberedRows(num, generated, name);
    rows := rows0;
    var i := 0;
    while i < |generated|
      invariant 0 <= i <= |generated|
      invariant rows == rows0 + all[..i]
    {
      PrefixExtend(all, i);
      rows := rows + [Row(num, generated[i], name)];
      i := i + 1;
    }
    assert all[..i] == all;
  }

  lemma AllRowsSnoc(recs: seq<InstrRecord>, num: nat)
    requires num < |recs|
    ensures AllRows(recs[..num + 1]) == AllRows(recs[..num]) + InstrRows(num, recs[num])
  {
    assert recs[..num + 1][..num] == recs[..num];
  }

  /** The rows numbered n, in order. */
  function RowsNumbered(rows: seq<Row>, n: nat): seq<Row>
    decreases |rows|
  {
    if rows == [] then []
    else RowsNumbered(rows[..|rows| - 1], n) + (if rows[|rows| - 1].num == n then [rows[|rows| - 1]] else [])
  }

  lemma {:induction false} RowsNumberedAppend(a: seq<Row>, b: seq<Row>, n: nat)
    ensures RowsNumbered(a + b, n) == RowsNumbered(a, n) + RowsNumbered(b, n)
    decreases |b|
  {
    if b == [] {
      assert a + b == a;
    } else {
      var b' := b[..|b| - 1];
      assert (a + b)[..|a + b| - 1] == a + b';
      assert (a + b)[|a + b| - 1] == b[|b| - 1];
      RowsNumberedAppend(a, b', n);
    }
  }

  lemma {:induction false} RowsNumberedUniform(rows: seq<Row>, m: nat, n: nat)
    requires forall k :: 0 <= k < |rows| ==> rows[k].num == m
    ensures RowsNumbered(rows, n) == if m == n then rows else []
    decreases |rows|
  {
    if rows != [] {
      RowsNumberedUniform(rows[..|rows| - 1], m, n);
    }
  }

  /** Every row carries the number of an instruction, and the numbers never
      decrease along the table. */
  lemma {:induction false} AllRowsOrdered(recs: seq<InstrRecord>)
    ensures forall k :: 0 <= k < |AllRows(recs)| ==> AllRows(recs)[k].num < |recs|
    ensures forall k, l :: 0 <= k <= l < |AllRows(recs)| ==> AllRows(recs)[k].num <= AllRows(recs)[l].num
    decreases |recs|
  {
    if recs != [] {
      AllRowsOrdered(recs[..|recs| - 1]);
    }
  }

  /** The rows numbered n are exactly the fixtures of instruction n, in order,
      each with the name of instruction n. */
  lemma {:induction false} AllRowsOfInstr(recs: seq<InstrRecord>, n: nat)
    requires n < |recs|
    ensures RowsNumbered(AllRows(recs), n) == InstrRows(n, recs[n])
    decreases |recs|
  {
    var m := |recs| - 1;
    var init := recs[..m];
    RowsNumberedAppend(AllRows(init), InstrRows(m, recs[m]), n);
    RowsNumberedUniform(InstrRows(m, recs[m]), m, n);
    if n < m {
      AllRowsOfInstr(init, n);
    } else {
      AllRowsOrdered(init);
      RowsNumberedNone(AllRows(init), n);
    }
  }

  lemma {:induction false} RowsNumberedNone(rows: seq<Row>, n: nat)
    requires forall k :: 0 <= k < |rows| ==> rows[k].num < n
    ensures RowsNumbered(rows, n) == []
    decreases |rows|
  {
    if rows != [] {
      RowsNumberedNone(rows[..|rows| - 1], n);
    }
  }
}
