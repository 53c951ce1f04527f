/** The trace-class decoder of the MSP430 target (getInstrMemTraceClass):
    the class string of an instruction is looked up in the generated table of
    the memory-region pair it accesses and mapped to a small integer code,
    0 standing for an unknown class. */
module MSP430TraceClass {
  import opened Maybe
  import opened MSP430InstrInfo
  import opened TraceClassification

  /** A row of a generated Instruction_classes_* table; column 1, the one the
      decoder reads, holds the trace-class string. */
  datatype ClassRow = ClassRow(fixtures: string, traceClass: string)

  /** The six generated tables, one per (source, destination) region pair:
      data/data, program/data, peripheral/data, data/peripheral,
      program/peripheral and peripheral/peripheral. Their contents are
      generated at build time and are inputs here. */
  datatype ClassTables = ClassTables(
    dataData: Opcode -> ClassRow,
    progrData: Opcode -> ClassRow,
    perData: Opcode -> ClassRow,
    dataPer: Opcode -> ClassRow,
    progrPer: Opcode -> ClassRow,
    perPer: Opcode -> ClassRow)

  /** The region keys the decoder accepts. */
  predicate IsRegionKey(regions: string)
  {
    regions == "dd" || regions == "pd" || regions == "ped" || regions == "dpe" || regions == "ppe" || regions == "pepe"
  }

  /** The class string of an instruction for a region key, "no class" when
      the key names no table. */
  function RegionClass(t: ClassTables, op: Opcode, regions: string): string
  {
    if regions == "dd" then t.dataData(op).traceClass
    else if regions == "pd" then t.progrData(op).traceClass
    else if regions == "ped" then t.perData(op).traceClass
    else if regions == "dpe" then t.dataPer(op).traceClass
    else if regions == "ppe" then t.progrPer(op).traceClass
    else if regions == "pepe" then t.perPer(op).traceClass
    else "no class"
  }

  /** One arm of the decoder's if/else chain: the class it compares with,
      as count and bit groups, and the code it returns. */
  datatype ListedClass = ListedClass(fields: ClassFields, code: nat)

  /** The number of arms of the chain. */
  const ArmCount: nat := 41

  /** Arm i of the chain, in source order. Arm 0 compares with
      `ClassText(ClassFields(1, "0", "0", "1"))`, the string "1 | 0 | 0 | 1". */
  function Arm(i: nat): ListedClass
    requires i < ArmCount
  {
    match i
    case 0 => ListedClass(ClassFields(1, "0", "0", "1"), 10)
    case 1 => ListedClass(ClassFields(2, "00", "00", "11"), 20)
    case 2 => ListedClass(ClassFields(2, "00", "10", "01"), 21)
    case 3 => ListedClass(ClassFields(3, "000", "010", "101"), 30)
    case 4 => ListedClass(ClassFields(3, "000", "101", "001"), 31)
    case 5 => ListedClass(ClassFields(3, "000", "001", "001"), 32)
    case 6 => ListedClass(ClassFields(3, "000", "100", "000"), 33)
    case 7 => ListedClass(ClassFields(3, "000", "000", "001"), 34)
    case 8 => ListedClass(ClassFields(3, "000", "000", "111"), 35)
    case 9 => ListedClass(ClassFields(4, "0000", "0101", "1001"), 40)
    case 10 => ListedClass(ClassFields(4, "0000", "0001", "1001"), 41)
    case 11 => ListedClass(ClassFields(5, "00000", "00101", "11001"), 50)
    case 12 => ListedClass(ClassFields(5, "00000", "10101", "10001"), 51)
    case 13 => ListedClass(ClassFields(5, "00000", "00001", "11001"), 52)
    case 14 => ListedClass(ClassFields(5, "00000", "10001", "10001"), 53)
    case 15 => ListedClass(ClassFields(5, "00000", "10000", "00000"), 54)
    case 16 => ListedClass(ClassFields(6, "000000", "010101", "110001"), 60)
    case 17 => ListedClass(ClassFields(6, "000000", "010001", "110001"), 61)
    case 18 => ListedClass(ClassFields(6, "000000", "000101", "111001"), 660)
    case 19 => ListedClass(ClassFields(6, "000000", "000001", "111001"), 661)
    case 20 => ListedClass(ClassFields(2, "10", "00", "01"), 2221)
    case 21 => ListedClass(ClassFields(3, "010", "000", "101"), 3330)
    case 22 => ListedClass(ClassFields(3, "101", "000", "001"), 3331)
    case 23 => ListedClass(ClassFields(4, "0001", "0000", "1001"), 4440)
    case 24 => ListedClass(ClassFields(4, "0101", "0000", "1001"), 4441)
    case 25 => ListedClass(ClassFields(5, "10000", "00001", "10001"), 5550)
    case 26 => ListedClass(ClassFields(5, "10000", "00101", "10001"), 5551)
    case 27 => ListedClass(ClassFields(5, "00001", "10000", "10001"), 5552)
    case 28 => ListedClass(ClassFields(5, "00101", "10000", "10001"), 5553)
    case 29 => ListedClass(ClassFields(5, "00001", "00000", "11001"), 5554)
    case 30 => ListedClass(ClassFields(5, "00101", "00000", "11001"), 5555)
    case 31 => ListedClass(ClassFields(5, "10001", "00000", "10001"), 5556)
    case 32 => ListedClass(ClassFields(5, "10101", "00000", "10001"), 5557)
    case 33 => ListedClass(ClassFields(6, "010000", "000001", "110001"), 6660)
    case 34 => ListedClass(ClassFields(6, "010000", "000101", "110001"), 6661)
    case 35 => ListedClass(ClassFields(6, "000001", "010000", "110001"), 6662)
    case 36 => ListedClass(ClassFields(6, "000101", "010000", "110001"), 6663)
    case 37 => ListedClass(ClassFields(6, "000001", "000000", "111001"), 6664)
    case 38 => ListedClass(ClassFields(6, "000101", "000000", "111001"), 6665)
    case 39 => ListedClass(ClassFields(6, "010001", "000000", "110001"), 6666)
    case 40 => ListedClass(ClassFields(6, "010101", "000000", "110001"), 6667)
  }

  /** The arms as a sequence. */
  function Listed(): (arms: seq<ListedClass>)
    ensures |arms| == ArmCount
    ensures forall i :: 0 <= i < ArmCount ==> arms[i] == Arm(i)
  {
    seq(ArmCount, i requires 0 <= i < ArmCount => Arm(i))
  }

  /** A chain from arm i on: the code of the first arm whose class text is
      the string, 0 when none is. */
  function ChainFrom(arms: seq<ListedClass>, c: string, i: nat): nat
    requires i <= |arms|
    decreases |arms| - i
  {
    if i == |arms| then 0
    else if c == ClassText(arms[i].fields) then arms[i].code
    else ChainFrom(arms, c, i + 1)
  }

  /** The decoder's mapping from class strings to codes. */
  function ClassCode(c: string): nat
  {
    ChainFrom(Listed(), c, 0)
  }

  /** getInstrMemTraceClass: the code of the class that the table of the
      region pair lists for the opcode. An unknown region key leaves
      "no class", which decodes to 0; a nonzero code is the code of the arm
      whose class is the table entry, and that class is well formed. */
  function InstrMemTraceClass(t: ClassTables, op: Opcode, regions: string): (code: nat)
    ensures !IsRegionKey(regions) ==> code == 0
    ensures code != 0 <==> exists i :: 0 <= i < ArmCount && RegionClass(t, op, regions) == ClassText(Arm(i).fields)
    ensures forall i :: 0 <= i < ArmCount && RegionClass(t, op, regions) == ClassText(Arm(i).fields)
                        ==> code == Arm(i).code && WellFormed(Arm(i).fields)
  {
    var c := RegionClass(t, op, regions);
    ClassCodeNonzero(c);
    ShortStringsDecodeToZero(c);
    ClassCodeOfListed(c);
    ClassCode(c)
  }

  // ---------------------------------------------------------------------
  // Facts about the arms

  /** The leading decimal digit of a code. */
  function LeadingDigit(code: nat): (r: nat)
    ensures r < 10
  {
    if code < 10 then code else LeadingDigit(code / 10)
  }

  lemma ArmCodesStep(i: nat)
    requires i < ArmCount
    ensures 0 < Arm(i).code
    ensures 0 < i ==> Arm(i - 1).code < Arm(i).code
  {
  }

  /** No two arms compare with the same class. */
  lemma ArmFieldsDistinct(i: nat, j: nat)
    requires i < j < ArmCount
    ensures Arm(i).fields != Arm(j).fields
  {
  }

  lemma ArmGroupLengths(i: nat)
    requires i < ArmCount
    ensures var f := Arm(i).fields;
      |f.peripheral| == f.cycles && |f.data| == f.cycles && |f.program| == f.cycles
  {
  }

  predicate GroupsAreBits(f: ClassFields)
  {
    IsBitString(f.peripheral) && IsBitString(f.data) && IsBitString(f.program)
  }

  lemma ArmBits0(i: nat)
    requires i < 11
    ensures GroupsAreBits(Arm(i).fields)
  {
  }

  lemma ArmBits1(i: nat)
    requires 11 <= i < 21
    ensures GroupsAreBits(Arm(i).fields)
  {
  }

  lemma ArmBits2(i: nat)
    requires 21 <= i < 31
    ensures GroupsAreBits(Arm(i).fields)
  {
  }

  lemma ArmBits3(i: nat)
    requires 31 <= i < ArmCount
    ensures GroupsAreBits(Arm(i).fields)
  {
  }

  /** Every arm's class is a count n followed by three groups of n bits. */
  lemma ArmWellFormed(i: nat)
    requires i < ArmCount
    ensures WellFormed(Arm(i).fields)
  {
    ArmGroupLengths(i);
    if i < 11 {
      ArmBits0(i);
    } else if i < 21 {
      ArmBits1(i);
    } else if i < 31 {
      ArmBits2(i);
    } else {
      ArmBits3(i);
    }
  }

  /** The leading digit of every code is the cycle count of its class. */
  lemma ArmLeadingDigit(i: nat)
    requires i < ArmCount
    ensures LeadingDigit(Arm(i).code) == Arm(i).fields.cycles
  {
    if i < 20 {
      ArmLeadingDigitShort(i);
    } else {
      ArmLeadingDigitLong(i);
    }
  }

  lemma ArmLeadingDigitShort(i: nat)
    requires i < 20
    ensures LeadingDigit(Arm(i).code) == Arm(i).fields.cycles
  {
  }

  lemma ArmLeadingDigitLong(i: nat)
    requires 20 <= i < ArmCount
    ensures LeadingDigit(Arm(i).code) == Arm(i).fields.cycles
  {
  }

  /** The codes of the arms are positive and increase along the chain. */
  predicate CodesAscend(arms: seq<ListedClass>)
  {
    (forall i :: 0 <= i < |arms| ==> 0 < arms[i].code)
    && (forall i :: 0 < i < |arms| ==> arms[i - 1].code < arms[i].code)
  }

  lemma ListedCodesAscend()
    ensures CodesAscend(Listed())
  {
    forall i | 0 <= i < |Listed()|
      ensures 0 < Listed()[i].code
      ensures 0 < i ==> Listed()[i - 1].code < Listed()[i].code
    {
      ArmCodesStep(i);
    }
  }

  lemma {:induction false} CodesAscendOrdered(arms: seq<ListedClass>, i: nat, j: nat)
    requires CodesAscend(arms)
    requires i < j < |arms|
    ensures arms[i].code < arms[j].code
    decreases j - i
  {
    if i + 1 < j {
      CodesAscendOrdered(arms, i, j - 1);
    }
  }

  // ---------------------------------------------------------------------
  // What a chain computes

  /** A chain with positive codes yields a nonzero code exactly when the
      string is the class of one of its arms, and then the code of such an
      arm. */
  lemma {:induction false} ChainFromSpec(arms: seq<ListedClass>, c: string, i: nat)
    requires i <= |arms|
    requires CodesAscend(arms)
    ensures ChainFrom(arms, c, i) != 0 <==> exists j :: i <= j < |arms| && c == ClassText(arms[j].fields)
    ensures ChainFrom(arms, c, i) != 0 ==>
              exists j :: i <= j < |arms| && c == ClassText(arms[j].fields) && ChainFrom(arms, c, i) == arms[j].code
    decreases |arms| - i
  {
    if i < |arms| {
      ChainFromSpec(arms, c, i + 1);
    }
  }

  /** A chain stops at the first arm whose class is the string. */
  lemma {:induction false} ChainFromFirst(arms: seq<ListedClass>, c: string, i: nat, j: nat)
    requires i <= j < |arms|
    requires c == ClassText(arms[j].fields)
    requires forall k :: i <= k < j ==> c != ClassText(arms[k].fields)
    ensures ChainFrom(arms, c, i) == arms[j].code
    decreases j - i
  {
    if i < j {
      ChainFromFirst(arms, c, i + 1, j);
    }
  }

  /** A string decodes to a nonzero code exactly when it is a listed class. */
  lemma ClassCodeNonzero(c: string)
    ensures ClassCode(c) != 0 <==> exists i :: 0 <= i < ArmCount && c == ClassText(Arm(i).fields)
  {
    ListedCodesAscend();
    ChainFromSpec(Listed(), c, 0);
    if ClassCode(c) != 0 {
      var i :| 0 <= i < |Listed()| && c == ClassText(Listed()[i].fields);
      assert Listed()[i] == Arm(i);
    } else {
      forall i | 0 <= i < ArmCount
        ensures c != ClassText(Arm(i).fields)
      {
        assert Listed()[i] == Arm(i);
      }
    }
  }

  /** Every listed class decodes to the code of its own arm. */
  lemma ArmDecodes(j: nat)
    requires j < ArmCount
    ensures ClassCode(ClassText(Arm(j).fields)) == Arm(j).code
  {
    var f := Arm(j).fields;
    ArmWellFormed(j);
    forall k | 0 <= k < j
      ensures ClassText(f) != ClassText(Listed()[k].fields)
    {
      assert Listed()[k] == Arm(k);
      ArmFieldsDistinct(k, j);
      ArmWellFormed(k);
      if ClassText(f) == ClassText(Arm(k).fields) {
        ClassTextInjective(f, Arm(k).fields);
      }
    }
    assert Listed()[j] == Arm(j);
    ChainFromFirst(Listed(), ClassText(f), 0, j);
  }

  /** Arm j, written out, decodes as listed. */
  lemma ArmDecodesTo(j: nat, f: ClassFields, code: nat)
    requires j < ArmCount && Arm(j) == ListedClass(f, code)
    ensures ClassCode(ClassText(f)) == code
  {
    ArmDecodes(j);
  }

  /** A listed class decodes to the code of its arm. */
  lemma ClassCodeOfListed(c: string)
    ensures forall i :: 0 <= i < ArmCount && c == ClassText(Arm(i).fields) ==> ClassCode(c) == Arm(i).code && WellFormed(Arm(i).fields)
  {
    forall i | 0 <= i < ArmCount && c == ClassText(Arm(i).fields)
      ensures ClassCode(c) == Arm(i).code && WellFormed(Arm(i).fields)
    {
      ArmDecodes(i);
      ArmWellFormed(i);
    }
  }

  /** Decoding is injective on the strings it recognises. */
  lemma ClassCodeInjective(s: string, t: string)
    requires ClassCode(s) == ClassCode(t) != 0
    ensures s == t
  {
    ListedCodesAscend();
    ChainFromSpec(Listed(), s, 0);
    ChainFromSpec(Listed(), t, 0);
    var i :| 0 <= i < |Listed()| && s == ClassText(Listed()[i].fields) && ClassCode(s) == Listed()[i].code;
    var j :| 0 <= j < |Listed()| && t == ClassText(Listed()[j].fields) && ClassCode(t) == Listed()[j].code;
    if i < j {
      CodesAscendOrdered(Listed(), i, j);
    } else if j < i {
      CodesAscendOrdered(Listed(), j, i);
    }
  }

  /** A string shorter than every class text, such as "no class", decodes to
      0; the shortest class text, "1 | 0 | 0 | 1", has 13 characters. */
  lemma ShortStringsDecodeToZero(c: string)
    ensures |c| < 13 ==> ClassCode(c) == 0
  {
    if |c| < 13 {
      forall i | 0 <= i < ArmCount
        ensures c != ClassText(Arm(i).fields)
      {
        ArmTextLength(i);
      }
      ClassCodeNonzero(c);
    }
  }

  /** Every arm counts at least one cycle ... */
  lemma ArmCyclesPositive(i: nat)
    requires i < ArmCount
    ensures Arm(i).fields.cycles >= 1
  {
  }

  /** ... so its class text has at least 13 characters: a digit, three
      separators " | " and three groups of at least one bit. */
  lemma ArmTextLength(i: nat)
    requires i < ArmCount
    ensures |ClassText(Arm(i).fields)| >= 13
  {
    ArmCyclesPositive(i);
    ArmGroupLengths(i);
  }

  /** "1 | 0 | 0 | 1", the first arm, decodes to 10. */
  lemma OneCycleExample()
    ensures ClassCode("1 | 0 | 0 | 1") == 10
  {
    ArmDecodes(0);
    assert ClassText(Arm(0).fields) == "1 | 0 | 0 | 1";
  }

  /** The class text of count 4 with groups 0000, 0001 and 1001, which is
      the string "4 | 0000 | 0001 | 1001", decodes to 41 ... */
  lemma FourCycleDataExample()
    ensures ClassCode(ClassText(ClassFields(4, "0000", "0001", "1001"))) == 41
  {
    ArmDecodesTo(10, ClassFields(4, "0000", "0001", "1001"), 41);
  }

  /** ... and the class text of count 4 with groups 0001, 0000 and 1001,
      which is the string "4 | 0001 | 0000 | 1001" (the same accesses with
      the peripheral and data groups swapped), to 4440. */
  lemma FourCyclePeripheralExample()
    ensures ClassCode(ClassText(ClassFields(4, "0001", "0000", "1001"))) == 4440
  {
    ArmDecodesTo(23, ClassFields(4, "0001", "0000", "1001"), 4440);
  }
}
