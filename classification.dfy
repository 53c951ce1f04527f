/** The trace-class string builder of the trace generation scripts
    (`classify_instruction`), the shape of a trace-class string and its
    parser.

    A trace class reads `"<n> | <peripheral> | <data> | <program>"`: the
    number of cycles, then one marker per trace sample for peripheral,
    data and program memory accesses. */
module TraceClassification {
  import opened Maybe
  import opened Text

  /** The four parts of a trace-class string. */
  datatype ClassFields = ClassFields(cycles: nat, peripheral: string, data: string, program: string)

  /** The text of a trace class. */
  function ClassText(f: ClassFields): string
  {
    DecimalString(f.cycles) + " | " + f.peripheral + " | " + f.data + " | " + f.program
  }

  predicate IsBit(c: char)
  {
    c == '0' || c == '1'
  }

  predicate IsBitString(g: string)
  {
    forall k :: 0 <= k < |g| ==> IsBit(g[k])
  }

  /** A count n followed by three groups of n bits. */
  predicate WellFormed(f: ClassFields)
  {
    |f.peripheral| == f.cycles && |f.data| == f.cycles && |f.program| == f.cycles
    && IsBitString(f.peripheral) && IsBitString(f.data) && IsBitString(f.program)
  }

  /** classify_instruction: the cycle count is half the number of clock
      samples (Python's `int(len(mclk)/2)`), and the three groups are the
      peripheral, data and program samples joined in that order. The last
      instruction and the instruction samples are not used. */
  function ClassifyInstruction(lastInstr: string, mclk: seq<string>, instrFull: seq<string>,
                               peripheralMem: seq<string>, dataMem: seq<string>, programMem: seq<string>): string
  {
    var instrLength := DecimalString(|mclk| / 2);
    var peripheral := Concat(peripheralMem);
    var data := Concat(dataMem);
    var prgr := Concat(programMem);
    instrLength + " | " + peripheral + " | " + data + " | " + prgr
  }

  // ---------------------------------------------------------------------
  // Reading a class string back

  /** Python's `s.split(' ')`: the pieces between single spaces. */
  function SplitOnSpace(s: string): (r: seq<string>)
    ensures |r| >= 1
    decreases |s|
  {
    if s == [] then [""]
    else
      var prev := SplitOnSpace(s[..|s| - 1]);
      var c := s[|s| - 1];
      if c == ' ' then prev + [""] else prev[..|prev| - 1] + [prev[|prev| - 1] + [c]]
  }

  /** A string without spaces is one piece. */
  lemma {:induction false} SplitOnSpaceWord(w: string)
    requires NoSpace(w)
    ensures SplitOnSpace(w) == [w]
    decreases |w|
  {
    if w != [] {
      var w' := w[..|w| - 1];
      SplitOnSpaceWord(w');
      assert w' + [w[|w| - 1]] == w;
    }
  }

  /** A space separates the pieces before it from the pieces after it. */
  lemma {:induction false} SplitOnSpaceAppend(a: string, b: string)
    ensures SplitOnSpace(a + " " + b) == SplitOnSpace(a) + SplitOnSpace(b)
    decreases |b|
  {
    var s := a + " " + b;
    if b == [] {
      assert s[..|s| - 1] == a;
    } else {
      var b' := b[..|b| - 1];
      var c := b[|b| - 1];
      var s' := a + " " + b';
      assert s == s' + [c] && b == b' + [c];
      SplitOnSpaceSnoc(s', c);
      SplitOnSpaceSnoc(b', c);
      SplitOnSpaceAppend(a, b');
      if c == ' ' {
        AppendAssoc(SplitOnSpace(a), SplitOnSpace(b'), [""]);
      } else {
        ExtendLast(SplitOnSpace(a), SplitOnSpace(b'), c);
      }
    }
  }

  /** One more character: a space opens a new piece, any other character
      extends the last piece. */
  lemma SplitOnSpaceSnoc(p: string, c: char)
    ensures var t := SplitOnSpace(p);
      SplitOnSpace(p + [c]) == if c == ' ' then t + [""] else t[..|t| - 1] + [t[|t| - 1] + [c]]
  {
    assert (p + [c])[..|p|] == p;
  }

  /** Extending the last piece of a list of pieces behind a prefix. */
  lemma ExtendLast(a: seq<string>, p: seq<string>, c: char)
    requires |p| >= 1
    ensures var q := a + p;
      q[..|q| - 1] + [q[|q| - 1] + [c]] == a + (p[..|p| - 1] + [p[|p| - 1] + [c]])
  {
    var q := a + p;
    assert q[..|q| - 1] == a + p[..|p| - 1];
    assert q[|q| - 1] == p[|p| - 1];
  }

  /** The parser of class strings: seven space-separated pieces, the bars in
      between, a decimal count first. */
  function ParseClass(s: string): Option<ClassFields>
  {
    var t := SplitOnSpace(s);
    if |t| == 7 && t[1] == "|" && t[3] == "|" && t[5] == "|"
       && |t[0]| >= 1 && (forall k :: 0 <= k < |t[0]| ==> IsDigit(t[0][k]))
    then Some(ClassFields(DigitsValue(t[0]), t[2], t[4], t[6]))
    else None
  }

  /** Appending a space and a space-free word adds that word as a piece. */
  lemma SplitOnSpaceExtend(a: string, w: string)
    requires NoSpace(w)
    ensures SplitOnSpace(a + " " + w) == SplitOnSpace(a) + [w]
  {
    SplitOnSpaceAppend(a, w);
    SplitOnSpaceWord(w);
  }

  /** A bar between spaces, then a space-free word: two more pieces. */
  lemma SplitOnSpaceBar(a: string, w: string)
    requires NoSpace(w)
    ensures SplitOnSpace(a + " | " + w) == SplitOnSpace(a) + ["|", w]
  {
    assert a + " | " + w == (a + " " + "|") + " " + w;
    assert NoSpace("|");
    SplitOnSpaceExtend(a, "|");
    SplitOnSpaceExtend(a + " " + "|", w);
  }

  /** The seven pieces of a class text. */
  lemma SplitClassText(f: ClassFields)
    requires NoSpace(f.peripheral) && NoSpace(f.data) && NoSpace(f.program)
    ensures SplitOnSpace(ClassText(f)) == [DecimalString(f.cycles), "|", f.peripheral, "|", f.data, "|", f.program]
  {
    var d := DecimalString(f.cycles);
    assert NoSpace(d);
    SplitOnSpaceWord(d);
    SplitOnSpaceBar(d, f.peripheral);
    SplitOnSpaceBar(d + " | " + f.peripheral, f.data);
    SplitOnSpaceBar(d + " | " + f.peripheral + " | " + f.data, f.program);
  }

  /** Reading back the text of a class gives its count and its three groups,
      in order, as long as the groups hold no space. */
  lemma ParseClassText(f: ClassFields)
    requires NoSpace(f.peripheral) && NoSpace(f.data) && NoSpace(f.program)
    ensures ParseClass(ClassText(f)) == Some(f)
  {
    SplitClassText(f);
    DigitsValueOfDecimal(f.cycles);
  }

  /** Two class texts with space-free groups are equal only when their parts
      are: a class string determines its count and its groups. */
  lemma ClassTextInjective(f: ClassFields, g: ClassFields)
    requires NoSpace(f.peripheral) && NoSpace(f.data) && NoSpace(f.program)
    requires NoSpace(g.peripheral) && NoSpace(g.data) && NoSpace(g.program)
    requires ClassText(f) == ClassText(g)
    ensures f == g
  {
    ParseClassText(f);
    ParseClassText(g);
  }

  // ---------------------------------------------------------------------
  // What classify_instruction promises

  lemma {:induction false} ConcatNoSpace(ws: seq<string>)
    requires forall k :: 0 <= k < |ws| ==> NoSpace(ws[k])
    ensures NoSpace(Concat(ws))
  {
    if ws != [] {
      ConcatNoSpace(ws[1..]);
    }
  }

  /** The string has the class shape: reading it back yields half the number
      of clock samples and the peripheral, data and program samples joined in
      that order, whenever no sample holds a space. */
  lemma ClassifyReadsBack(lastInstr: string, mclk: seq<string>, instrFull: seq<string>,
                          peripheralMem: seq<string>, dataMem: seq<string>, programMem: seq<string>)
    requires forall k :: 0 <= k < |peripheralMem| ==> NoSpace(peripheralMem[k])
    requires forall k :: 0 <= k < |dataMem| ==> NoSpace(dataMem[k])
    requires forall k :: 0 <= k < |programMem| ==> NoSpace(programMem[k])
    ensures ParseClass(ClassifyInstruction(lastInstr, mclk, instrFull, peripheralMem, dataMem, programMem))
      == Some(ClassFields(|mclk| / 2, Concat(peripheralMem), Concat(dataMem), Concat(programMem)))
  {
    ConcatNoSpace(peripheralMem);
    ConcatNoSpace(dataMem);
    ConcatNoSpace(programMem);
    var f := ClassFields(|mclk| / 2, Concat(peripheralMem), Concat(dataMem), Concat(programMem));
    assert ClassifyInstruction(lastInstr, mclk, instrFull, peripheralMem, dataMem, programMem) == ClassText(f);
    ParseClassText(f);
  }

  /** Samples that are single characters: the joined group has one character
      per sample, in sample order. */
  lemma {:induction false} ConcatOfChars(ws: seq<string>)
    requires forall k :: 0 <= k < |ws| ==> |ws[k]| == 1
    ensures |Concat(ws)| == |ws|
    ensures forall k :: 0 <= k < |ws| ==> Concat(ws)[k] == ws[k][0]
  {
    if ws != [] {
      ConcatOfChars(ws[1..]);
      assert Concat(ws) == ws[0] + Concat(ws[1..]);
    }
  }

  /** With one '0'/'1' marker per sample, each group is a bit string of the
      length of its sample list, in sample order. */
  lemma ClassifyGroupsAreSamples(lastInstr: string, mclk: seq<string>, instrFull: seq<string>,
                                 peripheralMem: seq<string>, dataMem: seq<string>, programMem: seq<string>)
    requires forall k :: 0 <= k < |peripheralMem| ==> peripheralMem[k] == "0" || peripheralMem[k] == "1"
    requires forall k :: 0 <= k < |dataMem| ==> dataMem[k] == "0" || dataMem[k] == "1"
    requires forall k :: 0 <= k < |programMem| ==> programMem[k] == "0" || programMem[k] == "1"
    ensures var f := ParseClass(ClassifyInstruction(lastInstr, mclk, instrFull, peripheralMem, dataMem, programMem));
      && f.Some?
      && f.value.cycles == |mclk| / 2
      && |f.value.peripheral| == |peripheralMem| && |f.value.data| == |dataMem| && |f.value.program| == |programMem|
      && IsBitString(f.value.peripheral) && IsBitString(f.value.data) && IsBitString(f.value.program)
      && (forall k :: 0 <= k < |peripheralMem| ==> f.value.peripheral[k] == peripheralMem[k][0])
      && (forall k :: 0 <= k < |dataMem| ==> f.value.data[k] == dataMem[k][0])
      && (forall k :: 0 <= k < |programMem| ==> f.value.program[k] == programMem[k][0])
  {
    ClassifyReadsBack(lastInstr, mclk, instrFull, peripheralMem, dataMem, programMem);
    ConcatOfChars(peripheralMem);
    ConcatOfChars(dataMem);
    ConcatOfChars(programMem);
  }

  /** The last instruction and the instruction samples do not matter. */
  lemma ClassifyIgnoresInstruction(last1: string, last2: string, mclk: seq<string>, full1: seq<string>, full2: seq<string>,
                                   peripheralMem: seq<string>, dataMem: seq<string>, programMem: seq<string>)
    ensures ClassifyInstruction(last1, mclk, full1, peripheralMem, dataMem, programMem)
         == ClassifyInstruction(last2, mclk, full2, peripheralMem, dataMem, programMem)
  {
  }
}
