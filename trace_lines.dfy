/** The post-processing of simulator trace lines in
    generate_memtrace_classes.py: merging glitch lines (`remove_glitches`),
    collecting the lines of the instructions under analysis
    (`find_instruction_lines_vcd`) and extracting the per-cycle signals that
    feed `classify_instruction`.

    A trace line holds, separated by spaces: the time, the clock, the
    instruction, then the enable signals eu_pmem_en, fe_pmem_en,
    fe_pmem_en_dly, eu_dmem_en, eu_dmem_en_ok and per_en. */
module TraceLines {
  import opened Maybe
  import opened Text
  import opened SpaceSplit

  const TimeIndex: nat := 0
  const ClkIndex: nat := 1
  const InstIndex: nat := 2
  const EuPmemEnIndex: nat := 3
  const FePmemEnIndex: nat := 4
  const FePmemEnDlyIndex: nat := 5
  const EuDmemEnIndex: nat := 6
  const EuDmemEnOkIndex: nat := 7
  const PerEnIndex: nat := 8

  /** Time stamps of regular lines are multiples of the clock edge length. */
  const ClockEdgeLength: nat := 25

  /** `split(line)[k]`; an index past the end raises, which is `None`. */
  function TokenAt(line: string, k: nat): Option<string>
  {
    var t := Tokens(line);
    if k < |t| then Some(t[k]) else None
  }

  /** `int(split(line)[0])`. */
  function TimeOf(line: string): Option<int>
  {
    ParseInt(Tokens(line)[0])
  }

  /** A line whose time stamp is off the clock edge. */
  predicate IsGlitch(line: string)
  {
    TimeOf(line).Some? && TimeOf(line).value % ClockEdgeLength != 0
  }

  /** A line whose time stamp is on the clock edge. */
  predicate IsRegular(line: string)
  {
    TimeOf(line).Some? && TimeOf(line).value % ClockEdgeLength == 0
  }

  /** The line that replaces a glitch: time, clock and instruction of the
      previous line, then the six enable signals of the glitch line. */
  function MergedLine(previous: string, line: string): Option<string>
  {
    var pd := Tokens(previous);
    var cd := Tokens(line);
    if |pd| > InstIndex && |cd| > PerEnIndex then Some(MergeFields(pd, cd)) else None
  }

  /** The text of a merged line from the fields of the previous line and of
      the glitch line. */
  function MergeFields(pd: seq<string>, cd: seq<string>): string
    requires |pd| > InstIndex && |cd| > PerEnIndex
  {
    pd[TimeIndex] + Spaces(2) + pd[ClkIndex] + Spaces(35) + pd[InstIndex]
      + Spaced(cd[EuPmemEnIndex..PerEnIndex + 1])
  }

  /** Each word behind one space: `' ' + w0 + ' ' + w1 + ...`. */
  function Spaced(ws: seq<string>): string
  {
    if ws == [] then "" else Spaced(ws[..|ws| - 1]) + " " + ws[|ws| - 1]
  }

  // ---------------------------------------------------------------------
  // remove_glitches

  /** The variables of the glitch pass: the lines emitted so far, the
      previous line and whether that line was a merged glitch. */
  datatype GlitchState = GlitchState(emitted: seq<string>, previous: string, previousWasBad: bool)

  /** One line of the glitch pass. */
  function GlitchStep(st: GlitchState, line: string): Option<GlitchState>
  {
    match TimeOf(line)
    case None => None
    case Some(t) =>
      if t % ClockEdgeLength != 0 then
        match MergedLine(st.previous, line)
        case None => None
        case Some(m) => Some(GlitchState(st.emitted + [m], m, true))
      else
        Some(GlitchState(if st.previousWasBad then st.emitted else st.emitted + [st.previous], line, false))
  }

  /** The state after the given lines. */
  function GlitchScan(lines: seq<string>): Option<GlitchState>
    decreases |lines|
  {
    if lines == [] then Some(GlitchState([], "", false))
    else
      match GlitchScan(lines[..|lines| - 1])
      case None => None
      case Some(st) => GlitchStep(st, lines[|lines| - 1])
  }

  /** The result of `remove_glitches`: the emitted lines and the last
      previous line. */
  function Deglitched(lines: seq<string>): Option<seq<string>>
  {
    match GlitchScan(lines)
    case None => None
    case Some(st) => Some(st.emitted + [st.previous])
  }

  method RemoveGlitches(listOfLines: seq<string>) returns (r: Option<seq<string>>)
    ensures r == Deglitched(listOfLines)
  {
    var newListOfLines: seq<string> := [];
    var previousLine := "";
    var previousWasBadLine := false;
    for i := 0 to |listOfLines|
      invariant GlitchScan(listOfLines[..i]) == Some(GlitchState(newListOfLines, previousLine, previousWasBadLine))
    {
      var line := listOfLines[i];
      assert listOfLines[..i + 1][..i] == listOfLines[..i];
      var currentData := Split(line);
      var time := ParseInt(currentData[TimeIndex]);
      if time.None? {
        assert GlitchScan(listOfLines[..i + 1]) == None;
        GlitchScanNoneStays(listOfLines, i + 1);
        return None;
      }
      if time.value % ClockEdgeLength != 0 {
        var previousData := Split(previousLine);
        if |previousData| <= InstIndex || |currentData| <= PerEnIndex {
          assert GlitchScan(listOfLines[..i + 1]) == None;
          GlitchScanNoneStays(listOfLines, i + 1);
          return None;
        }
        previousLine := MergeFields(previousData, currentData);
        newListOfLines := newListOfLines + [previousLine];
        previousWasBadLine := true;
      } else {
        if !previousWasBadLine {
          newListOfLines := newListOfLines + [previousLine];
        }
        previousWasBadLine := false;
        previousLine := line;
      }
    }
    assert listOfLines[..|listOfLines|] == listOfLines;
    r := Some(newListOfLines + [previousLine]);
  }

  /** Once a line fails, the pass fails on every longer prefix. */
  lemma {:induction false} GlitchScanNoneStays(lines: seq<string>, n: nat)
    requires n <= |lines| && GlitchScan(lines[..n]) == None
    ensures GlitchScan(lines) == None
    decreases |lines| - n
  {
    if n < |lines| {
      assert lines[..n + 1][..n] == lines[..n];
      GlitchScanNoneStays(lines, n + 1);
    } else {
      assert lines[..n] == lines;
    }
  }

  /** After a nonempty run of regular lines the pass has emitted the initial
      empty previous line and all but the last line, and holds the last. */
  lemma {:induction false} GlitchScanRegular(lines: seq<string>)
    requires lines != [] && forall k :: 0 <= k < |lines| ==> IsRegular(lines[k])
    ensures GlitchScan(lines) == Some(GlitchState([""] + lines[..|lines| - 1], lines[|lines| - 1], false))
    decreases |lines|
  {
    var p := lines[..|lines| - 1];
    var last := lines[|lines| - 1];
    var st := GlitchState([], "", false);
    if p != [] {
      RegularPrefix(lines, p);
      GlitchScanRegular(p);
      st := GlitchState([""] + p[..|p| - 1], p[|p| - 1], false);
    }
    assert st.emitted + [st.previous] == [""] + p;
    GlitchScanSnoc(lines, st);
    GlitchStepRegular(st, last);
  }

  lemma RegularPrefix(lines: seq<string>, p: seq<string>)
    requires lines != [] && forall k :: 0 <= k < |lines| ==> IsRegular(lines[k])
    requires p == lines[..|lines| - 1]
    ensures forall k :: 0 <= k < |p| ==> IsRegular(p[k])
  {
    forall k | 0 <= k < |p|
      ensures IsRegular(p[k])
    {
      assert p[k] == lines[k];
    }
  }

  lemma GlitchScanSnoc(lines: seq<string>, st: GlitchState)
    requires lines != [] && GlitchScan(lines[..|lines| - 1]) == Some(st)
    ensures GlitchScan(lines) == GlitchStep(st, lines[|lines| - 1])
  {
  }

  /** A regular line emits the held line, unless that was a merged glitch
      already emitted, and is held in its place. */
  lemma GlitchStepRegular(st: GlitchState, line: string)
    requires IsRegular(line)
    ensures GlitchStep(st, line)
         == Some(GlitchState(if st.previousWasBad then st.emitted else st.emitted + [st.previous], line, false))
  {
  }

  /** Without glitches the pass returns its input behind one empty line. */
  lemma DeglitchedRegular(lines: seq<string>)
    requires forall k :: 0 <= k < |lines| ==> IsRegular(lines[k])
    ensures Deglitched(lines) == Some([""] + lines)
  {
    if lines != [] {
      GlitchScanRegular(lines);
      assert [""] + lines[..|lines| - 1] + [lines[|lines| - 1]] == [""] + lines;
    } else {
      assert [] + [""] == [""] + lines;
    }
  }

  /** The first line must be regular: a glitch there has no previous line
      to merge with, and the pass fails. */
  lemma DeglitchedFirstGlitch(lines: seq<string>)
    requires lines != [] && IsGlitch(lines[0])
    ensures Deglitched(lines) == None
  {
    assert lines[..1][..0] == [];
    assert MergedLine("", lines[0]) == None by {
      WordsEmptyAllSpaces("");
    }
    GlitchScanNoneStays(lines, 1);
  }

  /** A line whose time stamp is not an integer fails the pass. */
  lemma DeglitchedBadTime(lines: seq<string>, i: nat)
    requires i < |lines| && TimeOf(lines[i]).None?
    ensures Deglitched(lines) == None
  {
    assert lines[..i + 1][..i] == lines[..i];
    GlitchScanNoneStays(lines, i + 1);
  }

  /** After a regular first line the first emitted line is the empty
      initial previous line; later lines only append. */
  lemma {:induction false} GlitchScanStartsEmpty(lines: seq<string>)
    requires lines != [] && IsRegular(lines[0]) && GlitchScan(lines).Some?
    ensures |GlitchScan(lines).value.emitted| >= 1 && GlitchScan(lines).value.emitted[0] == ""
    decreases |lines|
  {
    var p := lines[..|lines| - 1];
    if p == [] {
      assert lines[0] == lines[|lines| - 1];
    } else {
      assert p[0] == lines[0];
      GlitchScanStartsEmpty(p);
    }
  }

  /** When the first line is regular the output starts with the empty
      initial previous line. */
  lemma DeglitchedStartsEmpty(lines: seq<string>)
    requires lines != [] && IsRegular(lines[0]) && Deglitched(lines).Some?
    ensures Deglitched(lines).value[0] == ""
  {
    GlitchScanStartsEmpty(lines);
  }

  /** Whether the held line is a merged glitch is whether the last line was
      a glitch. */
  lemma GlitchScanBad(lines: seq<string>)
    requires GlitchScan(lines).Some?
    ensures GlitchScan(lines).value.previousWasBad <==> lines != [] && IsGlitch(lines[|lines| - 1])
  {
  }

  /** A regular line is emitted after the output so far; after a glitch it
      takes the place of the merged line that ended the output. */
  lemma DeglitchedAppendRegular(lines: seq<string>, line: string)
    requires IsRegular(line) && Deglitched(lines).Some?
    ensures var out := Deglitched(lines).value;
      Deglitched(lines + [line])
        == Some((if lines != [] && IsGlitch(lines[|lines| - 1]) then out[..|out| - 1] else out) + [line])
  {
    var q := lines + [line];
    assert q[..|q| - 1] == lines;
    var st := GlitchScan(lines).value;
    GlitchScanBad(lines);
    var out := Deglitched(lines).value;
    assert out[..|out| - 1] == st.emitted;
  }

  /** A glitch line is replaced by the merge of the last output line with
      it; the merged line is emitted and also held as the previous line, so
      it ends the output twice until a regular line follows. */
  lemma DeglitchedAppendGlitch(lines: seq<string>, line: string)
    requires IsGlitch(line) && Deglitched(lines).Some?
    ensures var out := Deglitched(lines).value;
      var m := MergedLine(out[|out| - 1], line);
      Deglitched(lines + [line]) == if m.None? then None else Some(out[..|out| - 1] + [m.value, m.value])
  {
    var q := lines + [line];
    assert q[..|q| - 1] == lines;
    var st := GlitchScan(lines).value;
    var out := Deglitched(lines).value;
    assert out[..|out| - 1] == st.emitted && out[|out| - 1] == st.previous;
    assert GlitchScan(q) == GlitchStep(st, line);
    var mm := MergedLine(st.previous, line);
    if mm.Some? {
      assert GlitchStep(st, line) == Some(GlitchState(st.emitted + [mm.value], mm.value, true));
      assert st.emitted + [mm.value] + [mm.value] == out[..|out| - 1] + [mm.value, mm.value];
    }
  }

  /** Words behind single spaces are read back one by one. */
  lemma {:induction false} WordsSpaced(a: string, ws: seq<string>)
    requires forall k :: 0 <= k < |ws| ==> ws[k] != [] && NoSpace(ws[k])
    ensures Words(a + Spaced(ws)) == Words(a) + ws
    decreases |ws|
  {
    if ws == [] {
      assert a + Spaced(ws) == a;
    } else {
      var init := ws[..|ws| - 1];
      var w := ws[|ws| - 1];
      var b := a + Spaced(init);
      assert a + Spaced(ws) == b + Spaces(1) + w by {
        assert Spaced(ws) == Spaced(init) + " " + w;
        assert " " == Spaces(1);
      }
      assert Words(b + Spaces(1) + w) == Words(b) + [w] by {
        WordsAppendWord(b, 1, w);
      }
      assert Words(b) == Words(a) + init by {
        WordsSpaced(a, init);
      }
      assert Words(a) + init + [w] == Words(a) + ws;
    }
  }

  /** A line whose words are those of a leading field and more has that
      field, empty or not, as its first token. */
  lemma TokensLead(m: string, p0: string, rest: seq<string>)
    requires NoSpace(p0) && rest != [] && Words(m) == Words(p0) + rest
    requires m != [] && (p0 == "" ==> m[0] == ' ') && (p0 != "" ==> m[0] == p0[0])
    ensures Tokens(m) == [p0] + rest
  {
    if p0 == "" {
      assert Words(p0) == [];
    } else {
      WordsOfWord(p0);
    }
  }

  /** The words of a merged text: those of the time field, then clock,
      instruction and the signals. */
  lemma MergeWords(p0: string, p1: string, p2: string, signals: seq<string>)
    requires p1 != [] && NoSpace(p1) && p2 != [] && NoSpace(p2)
    requires forall k :: 0 <= k < |signals| ==> signals[k] != [] && NoSpace(signals[k])
    ensures Words(p0 + Spaces(2) + p1 + Spaces(35) + p2 + Spaced(signals)) == Words(p0) + [p1, p2] + signals
  {
    WordsFields(p0, 2, p1, 35, p2, signals);
  }

  /** Two space-free words, each behind at least one space, and then the
      spaced signals. */
  lemma WordsFields(p0: string, n1: nat, p1: string, n2: nat, p2: string, signals: seq<string>)
    requires n1 >= 1 && n2 >= 1
    requires p1 != [] && NoSpace(p1) && p2 != [] && NoSpace(p2)
    requires forall k :: 0 <= k < |signals| ==> signals[k] != [] && NoSpace(signals[k])
    ensures Words(p0 + Spaces(n1) + p1 + Spaces(n2) + p2 + Spaced(signals)) == Words(p0) + [p1, p2] + signals
  {
    var x1 := p0 + Spaces(n1) + p1;
    var x2 := x1 + Spaces(n2) + p2;
    assert Words(x2) == Words(p0) + [p1, p2] by {
      WordsAppendWord(p0, n1, p1);
      WordsAppendWord(x1, n2, p2);
    }
    WordsSpaced(x2, signals);
  }

  /** A merge starts with its time field, or with a space if that is empty. */
  lemma MergeFieldsFirst(pd: seq<string>, cd: seq<string>)
    requires |pd| > InstIndex && |cd| > PerEnIndex
    ensures var m := MergeFields(pd, cd);
      m != [] && m[0] == (if pd[0] == "" then ' ' else pd[0][0])
  {
    var m := MergeFields(pd, cd);
    assert m == pd[0] + (Spaces(2) + pd[1] + Spaces(35) + pd[2] + Spaced(cd[3..9]));
  }

  /** Fields as `split` returns them are read back from their merge. */
  lemma MergeFieldsTokens(pd: seq<string>, cd: seq<string>)
    requires |pd| > InstIndex && |cd| > PerEnIndex
    requires NoSpace(pd[0]) && pd[1] != [] && NoSpace(pd[1]) && pd[2] != [] && NoSpace(pd[2])
    requires forall k :: 3 <= k < 9 ==> cd[k] != [] && NoSpace(cd[k])
    ensures Tokens(MergeFields(pd, cd)) == pd[..3] + cd[3..9]
  {
    var rest := [pd[1], pd[2]] + cd[3..9];
    MergeWords(pd[0], pd[1], pd[2], cd[3..9]);
    AppendAssoc(Words(pd[0]), [pd[1], pd[2]], cd[3..9]);
    MergeFieldsFirst(pd, cd);
    TokensLead(MergeFields(pd, cd), pd[0], rest);
    assert pd[..3] == [pd[0]] + [pd[1], pd[2]];
    AppendAssoc([pd[0]], [pd[1], pd[2]], cd[3..9]);
  }

  /** The merged line reads as the time, clock and instruction of the
      previous line followed by the six enable signals of the glitch line. */
  lemma MergedLineTokens(previous: string, line: string)
    requires MergedLine(previous, line).Some?
    ensures Tokens(MergedLine(previous, line).value) == Tokens(previous)[..3] + Tokens(line)[3..9]
  {
    TokensShape(previous);
    TokensShape(line);
    MergeFieldsTokens(Tokens(previous), Tokens(line));
  }






  // ---------------------------------------------------------------------
  // find_instruction_lines_vcd

  /** The nonempty lines, in order. */
  function NonEmpty(lines: seq<string>): seq<string>
    decreases |lines|
  {
    if lines == [] then []
    else NonEmpty(lines[..|lines| - 1]) + (if lines[|lines| - 1] != "" then [lines[|lines| - 1]] else [])
  }

  /** A nonempty line without an instruction field: `split(line)[2]`
      raises on it. */
  predicate TooShort(line: string)
  {
    line != "" && |Tokens(line)| <= InstIndex
  }

  /** The instruction field of a line, empty for a line without one. */
  function InstrOf(line: string): string
  {
    var t := Tokens(line);
    if |t| > InstIndex then t[InstIndex] else ""
  }

  /** The instruction fields of the lines, in order. */
  function Instrs(lines: seq<string>): (r: seq<string>)
    ensures |r| == |lines|
    decreases |lines|
  {
    if lines == [] then [] else Instrs(lines[..|lines| - 1]) + [InstrOf(lines[|lines| - 1])]
  }

  lemma {:induction false} InstrsAt(lines: seq<string>, k: nat)
    requires k < |lines|
    ensures Instrs(lines)[k] == InstrOf(lines[k])
    decreases |lines|
  {
    if k < |lines| - 1 {
      InstrsAt(lines[..|lines| - 1], k);
    }
  }

  /** No nonempty line lacks its instruction field. */
  predicate HaveInstrs(lines: seq<string>)
    decreases |lines|
  {
    lines == [] || (HaveInstrs(lines[..|lines| - 1]) && !TooShort(lines[|lines| - 1]))
  }

  lemma {:induction false} HaveInstrsAll(lines: seq<string>)
    ensures HaveInstrs(lines) <==> forall k :: 0 <= k < |lines| ==> !TooShort(lines[k])
    decreases |lines|
  {
    if lines != [] {
      var p := lines[..|lines| - 1];
      HaveInstrsAll(p);
      if HaveInstrs(p) {
        assert forall k :: 0 <= k < |p| ==> lines[k] == p[k];
      } else {
        var k :| 0 <= k < |p| && TooShort(p[k]);
        assert lines[k] == p[k];
      }
    }
  }

  /** End (exclusive) of the run of equal instructions that starts at `j`. */
  function RunEnd(instrs: seq<string>, j: nat): (e: nat)
    requires j < |instrs|
    ensures j < e <= |instrs|
    decreases |instrs| - j
  {
    if j + 1 < |instrs| && instrs[j + 1] == instrs[j] then RunEnd(instrs, j + 1) else j + 1
  }

  /** A run is maximal: every instruction in it equals its first, and the
      next one differs. */
  lemma {:induction false} RunEndSpec(instrs: seq<string>, j: nat)
    requires j < |instrs|
    ensures forall k :: j <= k < RunEnd(instrs, j) ==> instrs[k] == instrs[j]
    ensures RunEnd(instrs, j) < |instrs| ==> instrs[RunEnd(instrs, j)] != instrs[j]
    decreases |instrs| - j
  {
    if j + 1 < |instrs| && instrs[j + 1] == instrs[j] {
      RunEndSpec(instrs, j + 1);
    }
  }

  /** End (exclusive) of `n` consecutive runs starting at `j`, or of all
      runs when there are fewer. */
  function RunsEnd(instrs: seq<string>, j: nat, n: nat): (e: nat)
    requires j <= |instrs|
    ensures j <= e <= |instrs|
    decreases n
  {
    if n == 0 || j == |instrs| then j else RunsEnd(instrs, RunEnd(instrs, j), n - 1)
  }

  /** Start of the last of those runs. */
  function LastRunStart(instrs: seq<string>, j: nat, n: nat): (s: nat)
    requires j <= |instrs|
    ensures j <= s
    decreases n
  {
    if n <= 1 || j == |instrs| || RunEnd(instrs, j) == |instrs| then j
    else LastRunStart(instrs, RunEnd(instrs, j), n - 1)
  }

  /** What the collector returns for the nonempty lines `ne`: from the line
      numbered `start` among them, the lines of `count` consecutive
      instruction runs ... */
  function CollectedLines(ne: seq<string>, start: nat, count: nat): seq<string>
  {
    RunLines(ne, Instrs(ne), start, count)
  }

  /** ... and the offset in that list of the last run. */
  function CollectedLast(ne: seq<string>, start: nat, count: nat): nat
  {
    RunLast(Instrs(ne), start, count)
  }

  /** The lines of `count` runs of `instrs` from `start`. */
  function RunLines(ne: seq<string>, instrs: seq<string>, start: nat, count: nat): seq<string>
    requires |instrs| == |ne|
  {
    if start < |ne| && count >= 1 then ne[start..RunsEnd(instrs, start, count)] else []
  }

  /** Where the last of `count` runs of `instrs` from `start` starts,
      counted from `start`. */
  function RunLast(instrs: seq<string>, start: nat, count: nat): nat
  {
    if start < |instrs| && count >= 1 then LastRunStart(instrs, start, count) - start else 0
  }

  /** The collector's variables: the collected lines, the instruction of
      the current run, the number of runs met so far and the offset of the
      last run's first line. */
  datatype CollectState = CollectState(lines: seq<string>, current: string, found: nat, startLast: nat)

  /** One nonempty line, the `p`-th, whose instruction field is `instr`. */
  function CollectStep(st: CollectState, p: int, line: string, instr: string, start: nat, count: nat): CollectState
  {
    var st1 := if p == start then st.(found := 1, current := instr) else st;
    if 1 <= st1.found <= count then
      if instr == st1.current then st1.(lines := st1.lines + [line])
      else if st1.found + 1 <= count then CollectState(st1.lines + [line], instr, st1.found + 1, |st1.lines|)
      else st1.(found := st1.found + 1, current := instr)
    else st1
  }

  /** The loop body of find_instruction_lines_vcd for the `p`-th nonempty
      line, whose instruction field is `currentInstruction`. */
  method CollectLine(instrLines: seq<string>, instrToAnalyse: string, noInstrFound: nat, startLastInstr: nat,
                     p: int, line: string, currentInstruction: string, startInstruction: nat, noInstrToAnalyse: nat)
    returns (lines: seq<string>, current: string, found: nat, startLast: nat)
    ensures CollectState(lines, current, found, startLast)
      == CollectStep(CollectState(instrLines, instrToAnalyse, noInstrFound, startLastInstr),
                     p, line, currentInstruction, startInstruction, noInstrToAnalyse)
  {
    lines, current, found, startLast := instrLines, instrToAnalyse, noInstrFound, startLastInstr;
    if p == startInstruction {
      found := 1;
      current := currentInstruction;
    }
    if 1 <= found <= noInstrToAnalyse {
      if currentInstruction == current {
        lines := lines + [line];
      } else {
        found := found + 1;
        current := currentInstruction;
        if found <= noInstrToAnalyse {
          lines := lines + [line];
          startLast := |lines| - 1;
        }
      }
    }
  }

  /** The collector's variables after the nonempty lines `ne`. */
  function CollectScan(ne: seq<string>, start: nat, count: nat): CollectState
    decreases |ne|
  {
    if ne == [] then CollectState([], "", 0, 0)
    else
      var p := |ne| - 1;
      CollectStep(CollectScan(ne[..p], start, count), p, ne[p], InstrOf(ne[p]), start, count)
  }

  /** What the collector's variables say after the first `p` nonempty
      lines `ne[..p]`, whose instruction fields are `instrs`: before the
      first wanted line nothing is collected; while collecting, the lines
      from the first wanted one are collected, the current run starts
      `startLast` lines in, and what remains to collect ends where the whole
      collection does; once past the last run, the collection is complete. */
  predicate ScanInv(ne: seq<string>, instrs: seq<string>, start: nat, count: nat, p: nat, st: CollectState)
    requires p <= |ne| == |instrs|
  {
    && (st.found == 0 ==> st.lines == [] && st.startLast == 0 && p <= start)
    && (st.found != 0 ==> start < p)
    && (1 <= st.found <= count ==>
          var rs := start + st.startLast;
          && rs < p
          && st.lines == ne[start..p]
          && st.current == instrs[rs]
          && (forall k :: rs <= k < p ==> instrs[k] == instrs[rs])
          && RunsEnd(instrs, rs, count - st.found + 1) == RunsEnd(instrs, start, count)
          && LastRunStart(instrs, rs, count - st.found + 1) == LastRunStart(instrs, start, count))
    && (st.found > count ==>
          st.lines == ne[start..RunsEnd(instrs, start, count)]
          && st.startLast == LastRunStart(instrs, start, count) - start)
  }

  /** The first wanted line opens the first run. */
  lemma StartInv(ne: seq<string>, instrs: seq<string>, start: nat, count: nat, st: CollectState)
    requires start < |ne| == |instrs| && ScanInv(ne, instrs, start, count, start, st)
    ensures ScanInv(ne, instrs, start, count, start + 1, CollectStep(st, start, ne[start], instrs[start], start, count))
  {
    assert ne[start..start + 1] == [ne[start]];
  }

  /** A line of the current run is collected. */
  lemma SameRunInv(ne: seq<string>, instrs: seq<string>, start: nat, count: nat, q: nat, st: CollectState)
    requires q < |ne| == |instrs| && ScanInv(ne, instrs, start, count, q, st)
    requires q != start && 1 <= st.found <= count && instrs[q] == st.current
    ensures ScanInv(ne, instrs, start, count, q + 1, st.(lines := st.lines + [ne[q]]))
  {
    var rs := start + st.startLast;
    SliceSnoc(ne, start, q);
    assert forall k :: rs <= k < q + 1 ==> instrs[k] == instrs[rs];
  }

  /** A line of a new run opens it, while runs remain to collect. */
  lemma NextRunInv(ne: seq<string>, instrs: seq<string>, start: nat, count: nat, q: nat, st: CollectState)
    requires q < |ne| == |instrs| && ScanInv(ne, instrs, start, count, q, st)
    requires q != start && 1 <= st.found < count && instrs[q] != st.current
    ensures ScanInv(ne, instrs, start, count, q + 1, CollectState(st.lines + [ne[q]], instrs[q], st.found + 1, |st.lines|))
  {
    var rs := start + st.startLast;
    assert |st.lines| == q - start;
    SliceSnoc(ne, start, q);
    CollectRunChange(instrs, start, rs, q, count, st.found);
    assert count - (st.found + 1) + 1 == count - st.found;
  }

  /** A line of a new run, once the last run is collected, ends collecting. */
  lemma LastRunInv(ne: seq<string>, instrs: seq<string>, start: nat, count: nat, q: nat, st: CollectState)
    requires q < |ne| == |instrs| && ScanInv(ne, instrs, start, count, q, st)
    requires q != start && st.found == count >= 1 && instrs[q] != st.current
    ensures ScanInv(ne, instrs, start, count, q + 1, st.(found := st.found + 1, current := instrs[q]))
  {
    CollectRunChange(instrs, start, start + st.startLast, q, count, st.found);
  }

  /** One nonempty line keeps the collector's invariant. */
  lemma CollectStepInv(ne: seq<string>, instrs: seq<string>, start: nat, count: nat, q: nat, st: CollectState)
    requires q < |ne| == |instrs| && ScanInv(ne, instrs, start, count, q, st)
    ensures ScanInv(ne, instrs, start, count, q + 1, CollectStep(st, q, ne[q], instrs[q], start, count))
  {
    if q == start {
      StartInv(ne, instrs, start, count, st);
    } else if 1 <= st.found <= count {
      if instrs[q] == st.current {
        SameRunInv(ne, instrs, start, count, q, st);
      } else if st.found < count {
        NextRunInv(ne, instrs, start, count, q, st);
      } else {
        LastRunInv(ne, instrs, start, count, q, st);
      }
    }
  }

  /** The collector's variables after the first `p` nonempty lines keep
      the invariant. */
  lemma {:induction false} CollectScanPrefix(ne: seq<string>, start: nat, count: nat, p: nat)
    requires p <= |ne|
    ensures ScanInv(ne, Instrs(ne), start, count, p, CollectScan(ne[..p], start, count))
    decreases p
  {
    if p == 0 {
      assert ne[..0] == [];
    } else {
      var q := p - 1;
      CollectScanPrefix(ne, start, count, q);
      assert ne[..p][..q] == ne[..q];
      assert ne[..p][q] == ne[q];
      InstrsAt(ne, q);
      assert CollectScan(ne[..p], start, count)
        == CollectStep(CollectScan(ne[..q], start, count), q, ne[q], Instrs(ne)[q], start, count);
      CollectStepInv(ne, Instrs(ne), start, count, q, CollectScan(ne[..q], start, count));
    }
  }

  /** Over all the nonempty lines, the scan gives the reference result. */
  lemma CollectScanCollected(ne: seq<string>, start: nat, count: nat)
    ensures CollectScan(ne, start, count).lines == CollectedLines(ne, start, count)
    ensures CollectScan(ne, start, count).startLast == CollectedLast(ne, start, count)
  {
    CollectScanPrefix(ne, start, count, |ne|);
    assert ne[..|ne|] == ne;
    InvCollected(ne, Instrs(ne), start, count, CollectScan(ne, start, count));
  }

  /** The invariant after the last nonempty line is the reference result. */
  lemma InvCollected(ne: seq<string>, instrs: seq<string>, start: nat, count: nat, st: CollectState)
    requires |ne| == |instrs| && ScanInv(ne, instrs, start, count, |ne|, st)
    ensures st.lines == RunLines(ne, instrs, start, count)
    ensures st.startLast == RunLast(instrs, start, count)
  {
    if st.found == 0 {
      assert !(start < |ne|);
    } else if count == 0 {
      assert RunsEnd(instrs, start, 0) == start && LastRunStart(instrs, start, 0) == start;
    } else if st.found <= count {
      CollectToEnd(instrs, start + st.startLast, count - st.found + 1);
    }
  }

  /** The collector's variables and its count of skipped empty lines after
      the raw lines `lines`; None once a nonempty line lacks its instruction
      field. */
  datatype LineScan = LineScan(st: CollectState, skipped: nat)

  /** One raw line, the `n`-th: an empty line is skipped, a nonempty one
      without an instruction field fails, any other goes to the collector
      as nonempty line number `n - skipped`. */
  function ScanStep(r: Option<LineScan>, n: nat, line: string, start: nat, count: nat): Option<LineScan>
  {
    match r
    case None => None
    case Some(s) =>
      if line == "" then Some(s.(skipped := s.skipped + 1))
      else if |Tokens(line)| <= InstIndex then None
      else Some(LineScan(CollectStep(s.st, n - s.skipped, line, Tokens(line)[InstIndex], start, count), s.skipped))
  }

  function ScanLines(lines: seq<string>, start: nat, count: nat): (r: Option<LineScan>)
    ensures r.Some? ==> r.value.skipped <= |lines|
    decreases |lines|
  {
    if lines == [] then Some(LineScan(CollectState([], "", 0, 0), 0))
    else
      var n := |lines| - 1;
      ScanStep(ScanLines(lines[..n], start, count), n, lines[n], start, count)
  }

  lemma ScanLinesSnoc(lines: seq<string>, i: nat, start: nat, count: nat)
    requires i < |lines|
    ensures ScanLines(lines[..i + 1], start, count) == ScanStep(ScanLines(lines[..i], start, count), i, lines[i], start, count)
  {
    assert lines[..i + 1][..i] == lines[..i];
  }

  /** The scan after one more raw line: an empty line is counted as
      skipped ... */
  lemma ScanLinesEmpty(lines: seq<string>, i: nat, start: nat, count: nat, st: CollectState, skipped: nat)
    requires i < |lines| && ScanLines(lines[..i], start, count) == Some(LineScan(st, skipped))
    requires lines[i] == ""
    ensures ScanLines(lines[..i + 1], start, count) == Some(LineScan(st, skipped + 1))
  {
    ScanLinesSnoc(lines, i, start, count);
  }

  /** ... and a line with an instruction field is a collector step at its
      number among the nonempty lines. */
  lemma ScanLinesGood(lines: seq<string>, i: nat, start: nat, count: nat, st: CollectState, skipped: nat)
    requires i < |lines| && ScanLines(lines[..i], start, count) == Some(LineScan(st, skipped))
    requires lines[i] != "" && |Tokens(lines[i])| > InstIndex
    ensures ScanLines(lines[..i + 1], start, count)
         == Some(LineScan(CollectStep(st, i - skipped, lines[i], Tokens(lines[i])[InstIndex], start, count), skipped))
  {
    ScanLinesSnoc(lines, i, start, count);
    ScanStepGood(st, skipped, i, lines[i], start, count);
  }

  /** The loop body of find_instruction_lines_vcd on a line with an
      instruction field: the scan advances to the collector's new state. */
  lemma ScanLinesCollectLine(lines: seq<string>, i: nat, start: nat, count: nat, st: CollectState, skipped: nat,
                             data: seq<string>, st': CollectState)
    requires i < |lines| && ScanLines(lines[..i], start, count) == Some(LineScan(st, skipped))
    requires lines[i] != "" && data == Tokens(lines[i]) && |data| > InstIndex
    requires st' == CollectStep(st, i - skipped, lines[i], data[InstIndex], start, count)
    ensures ScanLines(lines[..i + 1], start, count) == Some(LineScan(st', skipped))
  {
    ScanLinesGood(lines, i, start, count, st, skipped);
  }

  lemma ScanStepGood(st: CollectState, skipped: nat, n: nat, line: string, start: nat, count: nat)
    requires line != "" && |Tokens(line)| > InstIndex
    ensures ScanStep(Some(LineScan(st, skipped)), n, line, start, count)
         == Some(LineScan(CollectStep(st, n - skipped, line, Tokens(line)[InstIndex], start, count), skipped))
  {
  }

  /** The raw-line scan fails exactly when some nonempty line lacks its
      instruction field. */
  lemma {:induction false} ScanLinesFails(lines: seq<string>, start: nat, count: nat)
    ensures ScanLines(lines, start, count).None? <==> !HaveInstrs(lines)
    decreases |lines|
  {
    if lines != [] {
      var n := |lines| - 1;
      var init := lines[..n];
      ScanLinesFails(init, start, count);
      assert ScanLines(lines, start, count) == ScanStep(ScanLines(init, start, count), n, lines[n], start, count);
    }
  }

  /** After the raw lines, the scan has skipped the empty lines and run the
      collector over the nonempty ones. */
  lemma {:induction false} ScanLinesNonEmpty(lines: seq<string>, start: nat, count: nat)
    ensures ScanLines(lines, start, count).Some? ==>
      && ScanLines(lines, start, count).value.skipped == |lines| - |NonEmpty(lines)|
      && ScanLines(lines, start, count).value.st == CollectScan(NonEmpty(lines), start, count)
    decreases |lines|
  {
    if lines != [] {
      var n := |lines| - 1;
      var line := lines[n];
      var init := lines[..n];
      ScanLinesNonEmpty(init, start, count);
      var r := ScanLines(init, start, count);
      assert ScanLines(lines, start, count) == ScanStep(r, n, line, start, count);
      assert NonEmpty(lines) == NonEmpty(init) + (if line != "" then [line] else []);
      if line == "" {
        assert NonEmpty(lines) == NonEmpty(init) + [];
        assert NonEmpty(lines) == NonEmpty(init);
      } else if r.Some? && |Tokens(line)| > InstIndex {
        CollectScanAppend(NonEmpty(init), line, start, count);
        assert |NonEmpty(init)| == n - r.value.skipped;
        assert InstrOf(line) == Tokens(line)[InstIndex];
      }
    }
  }

  lemma CollectScanAppend(ne: seq<string>, line: string, start: nat, count: nat)
    ensures CollectScan(ne + [line], start, count)
      == CollectStep(CollectScan(ne, start, count), |ne|, line, InstrOf(line), start, count)
  {
    assert (ne + [line])[..|ne|] == ne;
  }

  /** The raw-line scan fails exactly when a nonempty line lacks its
      instruction field, and otherwise ends with the reference result. */
  lemma ScanLinesCollected(lines: seq<string>, start: nat, count: nat)
    ensures ScanLines(lines, start, count).None? <==> exists i :: 0 <= i < |lines| && TooShort(lines[i])
    ensures ScanLines(lines, start, count).Some? ==>
      var st := ScanLines(lines, start, count).value.st;
      st.lines == CollectedLines(NonEmpty(lines), start, count)
      && st.startLast == CollectedLast(NonEmpty(lines), start, count)
  {
    ScanLinesFails(lines, start, count);
    ScanLinesNonEmpty(lines, start, count);
    HaveInstrsAll(lines);
    CollectScanCollected(NonEmpty(lines), start, count);
  }

  /** find_instruction_lines_vcd: among the nonempty lines, from the one
      numbered `startInstruction`, the lines of `noInstrToAnalyse`
      consecutive instruction runs, and where the last run starts; the
      script fails on a nonempty line without an instruction field. */
  method FindInstructionLines(newLines: seq<string>, startInstruction: nat, noInstrToAnalyse: nat)
    returns (r: Option<(seq<string>, nat)>)
    ensures r.None? <==> exists i :: 0 <= i < |newLines| && TooShort(newLines[i])
    ensures r.Some? ==> r.value.0 == CollectedLines(NonEmpty(newLines), startInstruction, noInstrToAnalyse)
    ensures r.Some? ==> r.value.1 == CollectedLast(NonEmpty(newLines), startInstruction, noInstrToAnalyse)
  {
    var instrLines: seq<string> := [];
    var instrToAnalyse := "";
    var linesSkipped: nat := 0;
    var noInstrFound: nat := 0;
    var startLastInstr: nat := 0;
    for i := 0 to |newLines|
      invariant ScanLines(newLines[..i], startInstruction, noInstrToAnalyse)
        == Some(LineScan(CollectState(instrLines, instrToAnalyse, noInstrFound, startLastInstr), linesSkipped))
    {
      if newLines[i] != "" {
        var data := Split(newLines[i]);
        if |data| <= InstIndex {
          assert TooShort(newLines[i]);
          return None;
        }
        ghost var before := CollectState(instrLines, instrToAnalyse, noInstrFound, startLastInstr);
        instrLines, instrToAnalyse, noInstrFound, startLastInstr :=
          CollectLine(instrLines, instrToAnalyse, noInstrFound, startLastInstr,
                      i - linesSkipped, newLines[i], data[InstIndex], startInstruction, noInstrToAnalyse);
        ScanLinesCollectLine(newLines, i, startInstruction, noInstrToAnalyse, before, linesSkipped, data,
                             CollectState(instrLines, instrToAnalyse, noInstrFound, startLastInstr));
      } else {
        ScanLinesEmpty(newLines, i, startInstruction, noInstrToAnalyse,
                       CollectState(instrLines, instrToAnalyse, noInstrFound, startLastInstr), linesSkipped);
        linesSkipped := linesSkipped + 1;
      }
    }
    assert newLines[..|newLines|] == newLines;
    ScanLinesCollected(newLines, startInstruction, noInstrToAnalyse);
    r := Some((instrLines, startLastInstr));
  }

  /** A new instruction at `p` ends the run that started at `runStart`: the
      runs still to collect are those from `p`, one fewer. */
  lemma CollectRunChange(instrs: seq<string>, start: nat, runStart: nat, p: nat, count: nat, found: nat)
    requires runStart < p < |instrs| && 1 <= found <= count
    requires forall k :: runStart <= k < p ==> instrs[k] == instrs[runStart]
    requires instrs[p] != instrs[runStart]
    ensures RunEnd(instrs, runStart) == p
    ensures RunsEnd(instrs, runStart, count - found + 1) == RunsEnd(instrs, p, count - found)
    ensures found < count ==> LastRunStart(instrs, runStart, count - found + 1) == LastRunStart(instrs, p, count - found)
    ensures found == count ==> LastRunStart(instrs, runStart, 1) == runStart && RunsEnd(instrs, p, 0) == p
  {
    var e := RunEnd(instrs, runStart);
    RunEndSpec(instrs, runStart);
  }

  /** A run still open at the end of the lines closes all runs there. */
  lemma CollectToEnd(instrs: seq<string>, runStart: nat, n: nat)
    requires runStart < |instrs| && n >= 1
    requires forall k :: runStart <= k < |instrs| ==> instrs[k] == instrs[runStart]
    ensures RunsEnd(instrs, runStart, n) == |instrs|
    ensures LastRunStart(instrs, runStart, n) == runStart
  {
    RunEndSpec(instrs, runStart);
  }

  /** The `n` runs from `j` end where the last of them ends, and that last
      run starts on a new instruction unless it is the first. */
  lemma {:induction false} LastRunsEnd(instrs: seq<string>, j: nat, n: nat)
    requires j < |instrs| && n >= 1
    ensures LastRunStart(instrs, j, n) < |instrs|
    ensures RunsEnd(instrs, j, n) == RunEnd(instrs, LastRunStart(instrs, j, n))
    ensures LastRunStart(instrs, j, n) > j ==>
      instrs[LastRunStart(instrs, j, n) - 1] != instrs[LastRunStart(instrs, j, n)]
    decreases n
  {
    var e := RunEnd(instrs, j);
    RunEndSpec(instrs, j);
    if n > 1 && e < |instrs| {
      LastRunsEnd(instrs, e, n - 1);
      assert instrs[e - 1] == instrs[j];
    }
  }

  /** The collected lines start at the nonempty line numbered `start`, keep
      the order of the trace, and end with one run of a single instruction
      that starts at the offset of the last run: every line from there on
      names the same instruction, and the line before it names another. */
  lemma CollectedLastRun(ne: seq<string>, start: nat, count: nat)
    requires start < |ne| && count >= 1
    ensures var l := CollectedLines(ne, start, count);
      var j := CollectedLast(ne, start, count);
      var w := Instrs(ne)[start..start + |l|];
      && l != [] && l == ne[start..start + |l|]
      && j < |l|
      && (forall k :: j <= k < |l| ==> w[k] == w[j])
      && (j > 0 ==> w[j - 1] != w[j])
  {
    RunLinesLastRun(ne, Instrs(ne), start, count);
  }

  /** The same, for any list of instruction fields `instrs` of the lines. */
  lemma RunLinesLastRun(ne: seq<string>, instrs: seq<string>, start: nat, count: nat)
    requires |instrs| == |ne| && start < |ne| && count >= 1
    ensures var l := RunLines(ne, instrs, start, count);
      var j := RunLast(instrs, start, count);
      var w := instrs[start..start + |l|];
      && l != [] && l == ne[start..start + |l|]
      && j < |l|
      && (forall k :: j <= k < |l| ==> w[k] == w[j])
      && (j > 0 ==> w[j - 1] != w[j])
  {
    var e := RunsEnd(instrs, start, count);
    LastRunShape(instrs, start, count);
    assert RunLines(ne, instrs, start, count) == ne[start..e];
  }

  /** The last of `n` runs from `j` holds one instruction, and one other
      than the instruction before it unless it is the first run. */
  lemma LastRunShape(instrs: seq<string>, j: nat, n: nat)
    requires j < |instrs| && n >= 1
    ensures var s := LastRunStart(instrs, j, n);
      var e := RunsEnd(instrs, j, n);
      && j <= s < e
      && (forall k :: s <= k < e ==> instrs[k] == instrs[s])
      && (s > j ==> instrs[s - 1] != instrs[s])
  {
    LastRunsEnd(instrs, j, n);
    RunEndSpec(instrs, LastRunStart(instrs, j, n));
  }

  /** The number of places where the instruction changes from one line to
      the next: one fewer than the number of runs of a nonempty list. */
  function Changes(instrs: seq<string>): nat
    decreases |instrs|
  {
    if |instrs| <= 1 then 0
    else Changes(instrs[..|instrs| - 1]) + (if instrs[|instrs| - 1] != instrs[|instrs| - 2] then 1 else 0)
  }

  /** A list of one instruction has no change. */
  lemma {:induction false} ChangesConst(a: seq<string>)
    requires forall k :: 0 <= k < |a| ==> a[k] == a[0]
    ensures Changes(a) == 0
    decreases |a|
  {
    if |a| > 1 {
      var p := a[..|a| - 1];
      assert forall k :: 0 <= k < |p| ==> p[k] == a[k];
      ChangesConst(p);
    }
  }

  /** The changes of two lists put together: those of each, plus one where
      they meet if the instruction changes there. */
  lemma {:induction false} ChangesAppend(a: seq<string>, b: seq<string>)
    requires a != [] && b != []
    ensures Changes(a + b) == Changes(a) + Changes(b) + (if a[|a| - 1] != b[0] then 1 else 0)
    decreases |b|
  {
    var ab := a + b;
    if |b| == 1 {
      assert ab[..|ab| - 1] == a;
    } else {
      var b' := b[..|b| - 1];
      assert ab[..|ab| - 1] == a + b';
      ChangesAppend(a, b');
    }
  }

  /** `n` runs from `j` hold at most `n - 1` changes, and exactly `n - 1`
      when they stop before the end, where the instruction changes. */
  lemma {:induction false} RunsChanges(all: seq<string>, j: nat, n: nat)
    requires j < |all| && n >= 1
    ensures var e := RunsEnd(all, j, n);
      && j < e
      && Changes(all[j..e]) <= n - 1
      && (e < |all| ==> Changes(all[j..e]) == n - 1 && all[e] != all[e - 1])
    decreases n
  {
    var e1 := RunEnd(all, j);
    var e := RunsEnd(all, j, n);
    RunEndSpec(all, j);
    RunChangesNone(all, j, e1);
    if n > 1 && e1 < |all| {
      assert e == RunsEnd(all, e1, n - 1);
      RunsChanges(all, e1, n - 1);
      ChangesAfterRun(all, j, e1, e);
    } else {
      assert e == e1;
      if e < |all| {
        assert all[e - 1] == all[j];
      }
    }
  }

  /** A run followed by a change of instruction adds one change. */
  lemma ChangesAfterRun(all: seq<string>, j: nat, e1: nat, e: nat)
    requires j < e1 < e <= |all| && Changes(all[j..e1]) == 0
    requires forall k :: j <= k < e1 ==> all[k] == all[j]
    requires all[e1] != all[j]
    ensures Changes(all[j..e]) == Changes(all[e1..e]) + 1
  {
    var run, rest := all[j..e1], all[e1..e];
    assert all[j..e] == run + rest;
    ChangesAppend(run, rest);
    assert run[|run| - 1] == all[j] && rest[0] == all[e1];
  }

  /** A run has no change. */
  lemma RunChangesNone(all: seq<string>, j: nat, e: nat)
    requires j < e <= |all|
    requires forall k :: j <= k < e ==> all[k] == all[j]
    ensures Changes(all[j..e]) == 0
  {
    var run := all[j..e];
    assert forall k :: 0 <= k < |run| ==> run[k] == all[j + k];
    ChangesConst(run);
  }

  /** The collected lines cover at most `count` runs, that is at most
      `count - 1` changes of instruction; they stop early only at the end of
      the lines, and otherwise stop just before a change of instruction. */
  lemma CollectedRuns(ne: seq<string>, start: nat, count: nat)
    requires start < |ne| && count >= 1
    ensures var all := Instrs(ne);
      var e := start + |CollectedLines(ne, start, count)|;
      && e <= |ne|
      && Changes(all[start..e]) <= count - 1
      && (e < |ne| ==> Changes(all[start..e]) == count - 1 && all[e] != all[e - 1])
  {
    RunLinesRuns(ne, Instrs(ne), start, count);
  }

  /** The same, for any list of instruction fields `instrs` of the lines. */
  lemma RunLinesRuns(ne: seq<string>, instrs: seq<string>, start: nat, count: nat)
    requires |instrs| == |ne| && start < |ne| && count >= 1
    ensures var e := start + |RunLines(ne, instrs, start, count)|;
      && e <= |ne|
      && Changes(instrs[start..e]) <= count - 1
      && (e < |ne| ==> Changes(instrs[start..e]) == count - 1 && instrs[e] != instrs[e - 1])
  {
    var e := RunsEnd(instrs, start, count);
    assert |RunLines(ne, instrs, start, count)| == e - start;
    RunsChanges(instrs, start, count);
  }
}
