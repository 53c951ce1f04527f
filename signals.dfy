/** The per-cycle signal extraction of generate_memtrace_classes.py: from
    the collected lines of the last instruction run, the clock, instruction,
    peripheral, data and program-memory samples handed to
    `classify_instruction`. */
module TraceSignals {
  import opened Maybe
  import opened Text
  import opened SpaceSplit
  import opened TraceLines
  import opened TraceClassification

  /** The five sample lists, one entry per trace line. */
  datatype Signals = Signals(mclk: seq<string>, instrFull: seq<string>, peripheral: seq<string>,
                             data: seq<string>, program: seq<string>)

  const NoSignals := Signals([], [], [], [], [])

  /** A line holding every field up to per_en; `split(line)[k]` raises on
      any other. */
  predicate HasSignals(line: string)
  {
    |Tokens(line)| > PerEnIndex
  }

  /** The program-memory sample: '1' when the execution unit or the fetch
      unit enables program memory. */
  function ProgramBit(t: seq<string>): string
    requires |t| > FePmemEnIndex
  {
    if t[EuPmemEnIndex] == "1" || t[FePmemEnIndex] == "1" then "1" else "0"
  }

  /** The samples of the lines of `w`, appended line by line; `None` when a
      line lacks a field. */
  function SignalsOf(w: seq<string>): Option<Signals>
    decreases |w|
  {
    if w == [] then Some(NoSignals)
    else
      match SignalsOf(w[..|w| - 1])
      case None => None
      case Some(s) =>
        var t := Tokens(w[|w| - 1]);
        if |t| <= PerEnIndex then None
        else Some(Signals(s.mclk + [t[ClkIndex]], s.instrFull + [t[InstIndex]], s.peripheral + [t[PerEnIndex]],
                          s.data + [t[EuDmemEnIndex]], s.program + [ProgramBit(t)]))
  }

  /** The lines `range(startLastInstr, len(instrLines))` visits; the range
      is empty when it starts past the end. */
  function Window(instrLines: seq<string>, startLastInstr: nat): seq<string>
  {
    if startLastInstr <= |instrLines| then instrLines[startLastInstr..] else []
  }

  /** The extraction loop: one sample per list and per line of the window. */
  method ExtractSignals(instrLines: seq<string>, startLastInstr: nat) returns (r: Option<Signals>)
    ensures r == SignalsOf(Window(instrLines, startLastInstr))
  {
    var mclk: seq<string> := [];
    var instrFull: seq<string> := [];
    var peripheralMem: seq<string> := [];
    var dataMem: seq<string> := [];
    var programMem: seq<string> := [];
    var first := if startLastInstr <= |instrLines| then startLastInstr else |instrLines|;
    for i := first to |instrLines|
      invariant SignalsOf(instrLines[first..i]) == Some(Signals(mclk, instrFull, peripheralMem, dataMem, programMem))
    {
      var data := Split(instrLines[i]);
      if |data| <= PerEnIndex {
        SignalsOfStops(instrLines, startLastInstr, first, i, Signals(mclk, instrFull, peripheralMem, dataMem, programMem), data);
        return None;
      }
      ghost var before := Signals(mclk, instrFull, peripheralMem, dataMem, programMem);
      mclk := mclk + [data[ClkIndex]];
      instrFull := instrFull + [data[InstIndex]];
      programMem := programMem + [if data[EuPmemEnIndex] == "1" || data[FePmemEnIndex] == "1" then "1" else "0"];
      dataMem := dataMem + [data[EuDmemEnIndex]];
      peripheralMem := peripheralMem + [data[PerEnIndex]];
      SignalsOfStep(instrLines, first, i, before, data, Signals(mclk, instrFull, peripheralMem, dataMem, programMem));
    }
    WindowFrom(instrLines, startLastInstr, first);
    r := Some(Signals(mclk, instrFull, peripheralMem, dataMem, programMem));
  }

  /** One more line with all its fields appends one sample to each list ... */
  lemma SignalsOfGood(lines: seq<string>, first: nat, i: nat, s: Signals)
    requires first <= i < |lines| && SignalsOf(lines[first..i]) == Some(s) && HasSignals(lines[i])
    ensures var t := Tokens(lines[i]);
      SignalsOf(lines[first..i + 1])
        == Some(Signals(s.mclk + [t[ClkIndex]], s.instrFull + [t[InstIndex]], s.peripheral + [t[PerEnIndex]],
                        s.data + [t[EuDmemEnIndex]], s.program + [ProgramBit(t)]))
  {
    var w := lines[first..i + 1];
    assert w[..|w| - 1] == lines[first..i] && w[|w| - 1] == lines[i];
  }

  /** The loop body on a line with all its fields: the extraction advances
      to the lists with that line's samples appended. */
  lemma SignalsOfStep(lines: seq<string>, first: nat, i: nat, s: Signals, data: seq<string>, s': Signals)
    requires first <= i < |lines| && SignalsOf(lines[first..i]) == Some(s)
    requires data == Tokens(lines[i]) && |data| > PerEnIndex
    requires s' == Signals(s.mclk + [data[ClkIndex]], s.instrFull + [data[InstIndex]], s.peripheral + [data[PerEnIndex]],
                           s.data + [data[EuDmemEnIndex]], s.program + [ProgramBit(data)])
    ensures SignalsOf(lines[first..i + 1]) == Some(s')
  {
    SignalsOfGood(lines, first, i, s);
  }

  /** ... and one without them fails the extraction. */
  lemma SignalsOfBad(lines: seq<string>, first: nat, i: nat, s: Signals)
    requires first <= i < |lines| && SignalsOf(lines[first..i]) == Some(s) && !HasSignals(lines[i])
    ensures SignalsOf(lines[first..i + 1]) == None
  {
    var w := lines[first..i + 1];
    assert w[..|w| - 1] == lines[first..i] && w[|w| - 1] == lines[i];
  }

  /** The window starts at `first`, the start of the range clipped to the
      end of the lines. */
  lemma WindowFrom(lines: seq<string>, startLastInstr: nat, first: nat)
    requires first == if startLastInstr <= |lines| then startLastInstr else |lines|
    ensures Window(lines, startLastInstr) == lines[first..|lines|]
  {
  }

  /** A line of the window without all its fields fails the whole
      extraction. */
  lemma SignalsOfStops(lines: seq<string>, startLastInstr: nat, first: nat, i: nat, s: Signals, data: seq<string>)
    requires first == if startLastInstr <= |lines| then startLastInstr else |lines|
    requires first <= i < |lines| && SignalsOf(lines[first..i]) == Some(s)
    requires data == Tokens(lines[i]) && |data| <= PerEnIndex
    ensures SignalsOf(Window(lines, startLastInstr)) == None
  {
    SignalsOfBad(lines, first, i, s);
    SignalsOfNoneStays(lines, first, i + 1);
  }

  /** Once failed, the extraction stays failed. */
  lemma {:induction false} SignalsOfNoneStays(lines: seq<string>, first: nat, n: nat)
    requires first <= n <= |lines| && SignalsOf(lines[first..n]) == None
    ensures SignalsOf(lines[first..]) == None
    decreases |lines| - n
  {
    if n < |lines| {
      var w := lines[first..n + 1];
      assert w[..|w| - 1] == lines[first..n];
      SignalsOfNoneStays(lines, first, n + 1);
    } else {
      assert lines[first..n] == lines[first..];
    }
  }

  // ---------------------------------------------------------------------
  // What the extraction promises

  /** The extraction fails exactly when some line of the window lacks a
      field. */
  lemma {:induction false} SignalsOfFails(w: seq<string>)
    ensures SignalsOf(w).None? <==> exists k :: 0 <= k < |w| && !HasSignals(w[k])
    decreases |w|
  {
    if w != [] {
      var p := w[..|w| - 1];
      SignalsOfFails(p);
      if exists k :: 0 <= k < |p| && !HasSignals(p[k]) {
        var k :| 0 <= k < |p| && !HasSignals(p[k]);
        assert w[k] == p[k];
      } else if SignalsOf(w).None? {
        assert !HasSignals(w[|w| - 1]);
      } else {
        forall k | 0 <= k < |w|
          ensures HasSignals(w[k])
        {
          if k < |p| {
            assert w[k] == p[k];
          }
        }
      }
    }
  }

  /** Five lists of the length of the window; the clock, instruction, data
      and peripheral samples are the fields of the line as they stand ... */
  lemma {:induction false} SignalsOfFields(w: seq<string>)
    requires forall k :: 0 <= k < |w| ==> |Tokens(w[k])| > PerEnIndex
    ensures SignalsOf(w).Some?
    ensures var s := SignalsOf(w).value;
      && |s.mclk| == |w| && |s.instrFull| == |w| && |s.peripheral| == |w| && |s.data| == |w|
      && forall k :: 0 <= k < |w| ==>
           && s.mclk[k] == Tokens(w[k])[ClkIndex]
           && s.instrFull[k] == Tokens(w[k])[InstIndex]
           && s.peripheral[k] == Tokens(w[k])[PerEnIndex]
           && s.data[k] == Tokens(w[k])[EuDmemEnIndex]
    decreases |w|
  {
    if w != [] {
      var p := w[..|w| - 1];
      assert forall k :: 0 <= k < |p| ==> p[k] == w[k];
      SignalsOfFields(p);
      var sp := SignalsOf(p).value;
      var t := Tokens(w[|w| - 1]);
      assert SignalsOf(w) == Some(Signals(sp.mclk + [t[ClkIndex]], sp.instrFull + [t[InstIndex]], sp.peripheral + [t[PerEnIndex]],
                                          sp.data + [t[EuDmemEnIndex]], sp.program + [ProgramBit(t)]));
    }
  }

  /** ... and the program sample of a line is '1' exactly when eu_pmem_en
      or fe_pmem_en is "1", '0' otherwise. */
  lemma {:induction false} SignalsOfProgram(w: seq<string>)
    requires forall k :: 0 <= k < |w| ==> |Tokens(w[k])| > PerEnIndex
    ensures SignalsOf(w).Some?
    ensures var s := SignalsOf(w).value;
      && |s.program| == |w|
      && forall k :: 0 <= k < |w| ==>
           && (s.program[k] == "1" <==> Tokens(w[k])[EuPmemEnIndex] == "1" || Tokens(w[k])[FePmemEnIndex] == "1")
           && (s.program[k] == "1" || s.program[k] == "0")
    decreases |w|
  {
    if w != [] {
      var p := w[..|w| - 1];
      assert forall k :: 0 <= k < |p| ==> p[k] == w[k];
      SignalsOfProgram(p);
    }
  }

  /** Tokens hold no space, so neither does any sample. */
  lemma SamplesNoSpace(w: seq<string>)
    requires forall k :: 0 <= k < |w| ==> |Tokens(w[k])| > PerEnIndex
    ensures SignalsOf(w).Some?
    ensures var s := SignalsOf(w).value;
      && (forall k :: 0 <= k < |s.peripheral| ==> NoSpace(s.peripheral[k]))
      && (forall k :: 0 <= k < |s.data| ==> NoSpace(s.data[k]))
      && (forall k :: 0 <= k < |s.program| ==> NoSpace(s.program[k]) && |s.program[k]| == 1)
  {
    SignalsOfFields(w);
    SignalsOfProgram(w);
    var s := SignalsOf(w).value;
    forall k | 0 <= k < |w|
      ensures NoSpace(s.peripheral[k]) && NoSpace(s.data[k])
    {
      TokensShape(w[k]);
    }
    assert NoSpace("1") && NoSpace("0");
  }

  /** The class the script forms from the samples reads back as half the
      number of lines for the count, the data and peripheral samples joined
      in line order, and a program group of one bit per line that is '1'
      exactly on the lines where eu_pmem_en or fe_pmem_en is "1". */
  lemma ExtractedClass(last: string, w: seq<string>)
    requires forall k :: 0 <= k < |w| ==> |Tokens(w[k])| > PerEnIndex
    ensures SignalsOf(w).Some?
    ensures var s := SignalsOf(w).value;
      var f := ParseClass(ClassifyInstruction(last, s.mclk, s.instrFull, s.peripheral, s.data, s.program));
      && f.Some?
      && f.value.cycles == |w| / 2
      && f.value.peripheral == Concat(s.peripheral) && f.value.data == Concat(s.data)
      && |f.value.program| == |w| && IsBitString(f.value.program)
      && forall k :: 0 <= k < |w| ==>
           (f.value.program[k] == '1' <==> Tokens(w[k])[EuPmemEnIndex] == "1" || Tokens(w[k])[FePmemEnIndex] == "1")
  {
    SamplesNoSpace(w);
    SignalsOfFields(w);
    SignalsOfProgram(w);
    var s := SignalsOf(w).value;
    ClassifyReadsBack(last, s.mclk, s.instrFull, s.peripheral, s.data, s.program);
    ConcatOfChars(s.program);
    var g := Concat(s.program);
    forall k | 0 <= k < |w|
      ensures IsBit(g[k])
      ensures g[k] == '1' <==> s.program[k] == "1"
    {
      assert g[k] == s.program[k][0];
    }
  }
}
