/** The MSP430 target's instruction hooks: reversing a branch condition,
    removing, inserting and analysing the branches at the end of a machine
    basic block, the byte size and the latency of an instruction.

    A block is a `Block` object whose `instrs` field the branch hooks update
    in place; an instruction is a record of its opcode kind, the block its
    branch targets, its condition code and two descriptor flags. */
module MSP430InstrInfo {
  import opened Maybe

  type BlockId = nat

  /** MSP430CC::CondCodes. Only the first six have an opposite. */
  datatype CondCode = CondE | CondNE | CondHS | CondLO | CondGE | CondL | CondN | CondNone | CondInvalid

  /** The opcodes the hooks distinguish; every other opcode is `Other`. */
  datatype Opcode =
    | JMP | JCC | Br | Bm
    | CfiInstruction | EhLabel | ImplicitDef | Kill | DbgValue
    | InlineAsm | InlineAsmBr
    | EExit | EEnter | EReturn | Rete | Attest
    | Other(id: nat)

  /** An instruction of a block. `target` and `cc` are the block operand and
      the condition operand of JMP/JCC; other opcodes ignore them. */
  datatype Instr = Instr(op: Opcode, target: BlockId, cc: CondCode, isDebug: bool, isTerminator: bool)

  /** The branch opcodes of the target: the descriptor's isBranch flag. */
  predicate IsBranch(op: Opcode)
  {
    op.JMP? || op.JCC? || op.Br? || op.Bm?
  }

  function Jmp(t: BlockId): Instr
  {
    Instr(JMP, t, CondNone, false, true)
  }

  function Jcc(t: BlockId, cc: CondCode): Instr
  {
    Instr(JCC, t, cc, false, true)
  }

  // ---------------------------------------------------------------------
  // reverseBranchCondition

  predicate Reversible(cc: CondCode)
  {
    cc.CondE? || cc.CondNE? || cc.CondL? || cc.CondGE? || cc.CondHS? || cc.CondLO?
  }

  /** The opposite condition: E and NE, L and GE, HS and LO swap. */
  function ReverseCondCode(cc: CondCode): (r: CondCode)
    requires Reversible(cc)
    ensures Reversible(r) && r != cc
  {
    match cc
    case CondE => CondNE
    case CondNE => CondE
    case CondL => CondGE
    case CondGE => CondL
    case CondHS => CondLO
    case CondLO => CondHS
  }

  /** Reversing twice gives the condition back. */
  lemma ReverseCondCodeInvolution(cc: CondCode)
    requires Reversible(cc)
    ensures ReverseCondCode(ReverseCondCode(cc)) == cc
  {
  }

  /** reverseBranchCondition: the single condition operand is replaced by its
      opposite, and the hook reports success by returning false. The
      one-operand assertion and the unreachable default become the
      precondition. */
  function ReverseBranchCondition(cond: seq<CondCode>): (r: (bool, seq<CondCode>))
    requires |cond| == 1 && Reversible(cond[0])
    ensures !r.0 && |r.1| == 1 && Reversible(r.1[0]) && r.1 != cond
    ensures ReverseCondCode(r.1[0]) == cond[0]
  {
    (false, [ReverseCondCode(cond[0])])
  }

  // ---------------------------------------------------------------------
  // removeBranch

  /** The block after removeBranch: walking up from the end, debug
      instructions are kept, JMP/JCC/Br/Bm are erased, and the first other
      instruction ends the walk. */
  function StripBranches(s: seq<Instr>): seq<Instr>
    decreases |s|
  {
    if s == [] then []
    else
      var last := s[|s| - 1];
      if last.isDebug then StripBranches(s[..|s| - 1]) + [last]
      else if IsBranch(last.op) then StripBranches(s[..|s| - 1])
      else s
  }

  /** Start of the trailing region of debug and branch instructions. */
  function TailStart(s: seq<Instr>): (k: nat)
    ensures k <= |s|
    decreases |s|
  {
    if s == [] then 0
    else
      var last := s[|s| - 1];
      if last.isDebug || IsBranch(last.op) then TailStart(s[..|s| - 1]) else |s|
  }

  /** The debug instructions of a list, in order. */
  function DebugOnly(s: seq<Instr>): (r: seq<Instr>)
    ensures |r| <= |s|
    ensures forall k :: 0 <= k < |r| ==> r[k].isDebug
  {
    if s == [] then []
    else DebugOnly(s[..|s| - 1]) + (if s[|s| - 1].isDebug then [s[|s| - 1]] else [])
  }

  predicate AllDebug(d: seq<Instr>)
  {
    forall k :: 0 <= k < |d| ==> d[k].isDebug
  }

  /** A debug tail is kept as it is, whatever precedes it. */
  lemma {:induction false} StripBranchesDebugTail(p: seq<Instr>, d: seq<Instr>)
    requires AllDebug(d)
    ensures StripBranches(p + d) == StripBranches(p) + d
    decreases |d|
  {
    if d == [] {
      assert p + d == p;
    } else {
      var d' := d[..|d| - 1];
      var w := p + d;
      assert w[..|w| - 1] == p + d';
      assert w[|w| - 1] == d[|d| - 1] && w[|w| - 1].isDebug;
      assert StripBranches(w) == StripBranches(p + d') + [d[|d| - 1]];
      StripBranchesDebugTail(p, d');
      assert d' + [d[|d| - 1]] == d;
      assert StripBranches(p) + d' + [d[|d| - 1]] == StripBranches(p) + d;
    }
  }

  /** The walk of removeBranch reaches a non-debug instruction with only
      debug instructions after it: one that is not a branch leaves the block
      as it is. */
  lemma StripBranchesStopsAt(p: seq<Instr>, x: Instr, d: seq<Instr>)
    requires !x.isDebug && !IsBranch(x.op) && AllDebug(d)
    ensures StripBranches(p + [x] + d) == p + [x] + d
  {
    var q := p + [x];
    StripBranchesDebugTail(q, d);
    assert q[|q| - 1] == x;
  }

  /** ... and a branch is erased without changing what removeBranch leaves. */
  lemma StripBranchesErasesAt(p: seq<Instr>, x: Instr, d: seq<Instr>)
    requires !x.isDebug && IsBranch(x.op) && AllDebug(d)
    ensures StripBranches(p + d) == StripBranches(p + [x] + d)
  {
    var q := p + [x];
    StripBranchesDebugTail(q, d);
    StripBranchesDebugTail(p, d);
    assert q[|q| - 1] == x && q[..|q| - 1] == p;
  }

  /** A block of debug instructions only is left as it is. */
  lemma StripBranchesAllDebug(s: seq<Instr>)
    requires forall k :: 0 <= k < |s| ==> s[k].isDebug
    ensures StripBranches(s) == s
  {
    assert AllDebug(s);
    StripBranchesDebugTail([], s);
    assert [] + s == s;
  }

  /** removeBranch erases exactly the branches of the trailing region of
      debug and branch instructions: the instructions before that region stay
      as they are, the debug instructions in it stay in order, and the
      instruction just before it (if any) is neither a debug instruction nor
      a branch. */
  lemma {:induction false} StripBranchesShape(s: seq<Instr>)
    ensures var k := TailStart(s);
      && StripBranches(s) == s[..k] + DebugOnly(s[k..])
      && (forall j :: k <= j < |s| ==> s[j].isDebug || IsBranch(s[j].op))
      && (k > 0 ==> !s[k - 1].isDebug && !IsBranch(s[k - 1].op))
    decreases |s|
  {
    if s != [] {
      var s' := s[..|s| - 1];
      var last := s[|s| - 1];
      if last.isDebug || IsBranch(last.op) {
        StripBranchesShape(s');
        var k := TailStart(s);
        assert s'[..k] == s[..k];
        assert s[k..] == s'[k..] + [last];
        assert s[k..][..|s[k..]| - 1] == s'[k..];
      } else {
        assert s[..|s|] == s;
      }
    }
  }

  /** Once the trailing branches are gone, removeBranch erases nothing more. */
  lemma {:induction false} StripBranchesIdempotent(s: seq<Instr>)
    ensures StripBranches(StripBranches(s)) == StripBranches(s)
    decreases |s|
  {
    if s != [] {
      var s' := s[..|s| - 1];
      var last := s[|s| - 1];
      if last.isDebug {
        StripBranchesIdempotent(s');
        StripBranchesDebugTail(StripBranches(s'), [last]);
      } else if IsBranch(last.op) {
        StripBranchesIdempotent(s');
      }
    }
  }

  // ---------------------------------------------------------------------
  // insertBranch

  /** The instructions insertBranch appends: one JMP for an empty condition,
      otherwise a JCC to the true block followed by a JMP to the false block
      when there is one. */
  function BranchSeq(tbb: BlockId, fbb: Option<BlockId>, cond: seq<CondCode>): (r: seq<Instr>)
    requires |cond| <= 1
    requires cond == [] ==> fbb == None
    ensures 1 <= |r| <= 2
    ensures forall k :: 0 <= k < |r| ==> IsBranch(r[k].op) && !r[k].isDebug && r[k].isTerminator
  {
    if cond == [] then [Jmp(tbb)]
    else [Jcc(tbb, cond[0])] + (if fbb.Some? then [Jmp(fbb.value)] else [])
  }

  /** Branches appended by insertBranch are exactly what removeBranch erases
      again: removeBranch after insertBranch leaves what removeBranch alone
      would have left, having erased the inserted count in addition. */
  lemma {:induction false} RemoveAfterInsert(s: seq<Instr>, tbb: BlockId, fbb: Option<BlockId>, cond: seq<CondCode>)
    requires |cond| <= 1
    requires cond == [] ==> fbb == None
    ensures StripBranches(s + BranchSeq(tbb, fbb, cond)) == StripBranches(s)
  {
    var b := BranchSeq(tbb, fbb, cond);
    if |b| == 1 {
      assert (s + b)[..|s + b| - 1] == s;
    } else {
      assert (s + b)[..|s + b| - 1] == s + [b[0]];
      assert (s + [b[0]])[..|s|] == s;
    }
  }

  // ---------------------------------------------------------------------
  // analyzeBranch

  /** The in-out results TBB, FBB and Cond of analyzeBranch. */
  datatype BranchInfo = BranchInfo(tbb: Option<BlockId>, fbb: Option<BlockId>, cond: seq<CondCode>)

  const NoBranchInfo := BranchInfo(None, None, [])

  /** What the assertions in analyzeBranch rely on: Cond holds at most one
      operand, and a condition comes with a true block. */
  predicate InfoOk(info: BranchInfo)
  {
    |info.cond| <= 1 && (|info.cond| == 1 ==> info.tbb.Some?)
  }

  /** Result of analyzeBranch: true when the block cannot be analysed, the
      branch information and the (possibly edited) instructions. */
  datatype Analysis = Analysis(unanalysable: bool, info: BranchInfo, instrs: seq<Instr>)

  /** analyzeBranch from the iterator position `i` upwards: `s[..i]` is what
      is still to be examined and `info` what has been found so far. */
  function AnalyzeFrom(s: seq<Instr>, i: nat, info: BranchInfo, layoutSucc: Option<BlockId>, allowModify: bool): Analysis
    requires i <= |s|
    decreases |s|, i
  {
    if i == 0 then Analysis(false, info, s)
    else
      var j := i - 1;
      var x := s[j];
      if x.isDebug then AnalyzeFrom(s, j, info, layoutSucc, allowModify)
      else if !x.isTerminator then Analysis(false, info, s)
      else if !IsBranch(x.op) then Analysis(true, info, s)
      else if x.op.Br? || x.op.Bm? then Analysis(true, info, s)
      else if x.op.JMP? then
        if !allowModify then AnalyzeFrom(s, j, info.(tbb := Some(x.target)), layoutSucc, allowModify)
        else if layoutSucc == Some(x.target) then
          AnalyzeFrom(s[..j], j, BranchInfo(None, None, []), layoutSucc, allowModify)
        else
          AnalyzeFrom(s[..i], j, BranchInfo(Some(x.target), None, []), layoutSucc, allowModify)
      else if x.cc.CondInvalid? then Analysis(true, info, s)
      else if info.cond == [] then
        AnalyzeFrom(s, j, BranchInfo(Some(x.target), info.tbb, [x.cc]), layoutSucc, allowModify)
      else if info.tbb != Some(x.target) then Analysis(true, info, s)
      else if info.cond[0] == x.cc then AnalyzeFrom(s, j, info, layoutSucc, allowModify)
      else Analysis(true, info, s)
  }

  /** analyzeBranch on a whole block. */
  function AnalyzeSpec(s: seq<Instr>, layoutSucc: Option<BlockId>, allowModify: bool, info: BranchInfo): Analysis
  {
    AnalyzeFrom(s, |s|, info, layoutSucc, allowModify)
  }

  /** The walk keeps the assertions' assumptions true. */
  lemma {:induction false} AnalyzeKeepsInfoOk(s: seq<Instr>, i: nat, info: BranchInfo, layoutSucc: Option<BlockId>, allowModify: bool)
    requires i <= |s| && InfoOk(info)
    ensures InfoOk(AnalyzeFrom(s, i, info, layoutSucc, allowModify).info)
    decreases |s|, i
  {
    if i > 0 {
      var j := i - 1;
      var x := s[j];
      if x.isDebug {
        AnalyzeKeepsInfoOk(s, j, info, layoutSucc, allowModify);
      } else if !x.isTerminator || !IsBranch(x.op) || x.op.Br? || x.op.Bm? {
      } else if x.op.JMP? {
        if !allowModify {
          AnalyzeKeepsInfoOk(s, j, info.(tbb := Some(x.target)), layoutSucc, allowModify);
        } else if layoutSucc == Some(x.target) {
          AnalyzeKeepsInfoOk(s[..j], j, BranchInfo(None, None, []), layoutSucc, allowModify);
        } else {
          AnalyzeKeepsInfoOk(s[..i], j, BranchInfo(Some(x.target), None, []), layoutSucc, allowModify);
        }
      } else if x.cc.CondInvalid? {
      } else if info.cond == [] {
        AnalyzeKeepsInfoOk(s, j, BranchInfo(Some(x.target), info.tbb, [x.cc]), layoutSucc, allowModify);
      } else if info.tbb != Some(x.target) {
      } else if info.cond[0] == x.cc {
        AnalyzeKeepsInfoOk(s, j, info, layoutSucc, allowModify);
      }
    }
  }

  /** With AllowModify false the block is left as it is. */
  lemma {:induction false} AnalyzeWithoutModifyKeepsBlock(s: seq<Instr>, i: nat, info: BranchInfo, layoutSucc: Option<BlockId>)
    requires i <= |s|
    ensures AnalyzeFrom(s, i, info, layoutSucc, false).instrs == s
    decreases i
  {
    if i > 0 {
      var j := i - 1;
      var x := s[j];
      if x.isDebug {
        AnalyzeWithoutModifyKeepsBlock(s, j, info, layoutSucc);
      } else if !x.isTerminator || !IsBranch(x.op) || x.op.Br? || x.op.Bm? {
      } else if x.op.JMP? {
        AnalyzeWithoutModifyKeepsBlock(s, j, info.(tbb := Some(x.target)), layoutSucc);
      } else if x.cc.CondInvalid? {
      } else if info.cond == [] {
        AnalyzeWithoutModifyKeepsBlock(s, j, BranchInfo(Some(x.target), info.tbb, [x.cc]), layoutSucc);
      } else if info.tbb != Some(x.target) {
      } else if info.cond[0] == x.cc {
        AnalyzeWithoutModifyKeepsBlock(s, j, info, layoutSucc);
      }
    }
  }

  /** The walk passes over debug instructions without effect. */
  lemma {:induction false} AnalyzeSkipsDebug(s: seq<Instr>, i: nat, k: nat, info: BranchInfo, layoutSucc: Option<BlockId>, allowModify: bool)
    requires k <= i <= |s|
    requires forall j :: k <= j < i ==> s[j].isDebug
    ensures AnalyzeFrom(s, i, info, layoutSucc, allowModify) == AnalyzeFrom(s, k, info, layoutSucc, allowModify)
    decreases i
  {
    if i > k {
      AnalyzeSkipsDebug(s, i - 1, k, info, layoutSucc, allowModify);
    }
  }

  /** Instructions that end the walk: the last non-debug instruction is not a
      terminator. */
  predicate NoTrailingTerminator(s: seq<Instr>)
    decreases |s|
  {
    s == [] || (if s[|s| - 1].isDebug then NoTrailingTerminator(s[..|s| - 1]) else !s[|s| - 1].isTerminator)
  }

  /** Reaching the part of the block before its terminators ends the walk
      with success and nothing changed. */
  lemma {:induction false} AnalyzeStopsBeforeTerminators(s: seq<Instr>, i: nat, info: BranchInfo, layoutSucc: Option<BlockId>, allowModify: bool)
    requires i <= |s| && NoTrailingTerminator(s[..i])
    ensures AnalyzeFrom(s, i, info, layoutSucc, allowModify) == Analysis(false, info, s)
    decreases i
  {
    if i > 0 {
      assert s[..i][..i - 1] == s[..i - 1];
      if s[i - 1].isDebug {
        AnalyzeStopsBeforeTerminators(s, i - 1, info, layoutSucc, allowModify);
      }
    }
  }

  /** A JCC at position `i` over a block part that ends in no terminator is
      the last branch the walk sees: it records the JCC's target and
      condition and moves the true block found so far to the false block. */
  lemma AnalyzeJccLast(w: seq<Instr>, i: nat, t: BlockId, c: CondCode, info: BranchInfo,
                       layoutSucc: Option<BlockId>, allowModify: bool)
    requires i < |w| && w[i] == Jcc(t, c) && !c.CondInvalid? && info.cond == []
    requires NoTrailingTerminator(w[..i])
    ensures AnalyzeFrom(w, i + 1, info, layoutSucc, allowModify)
         == Analysis(false, BranchInfo(Some(t), info.tbb, [c]), w)
  {
    assert w[..i + 1][..i] == w[..i];
    AnalyzeStopsBeforeTerminators(w, i, BranchInfo(Some(t), info.tbb, [c]), layoutSucc, allowModify);
  }

  /** An inserted unconditional JMP: read back as the true block, or, with
      AllowModify true and the JMP falling through to the layout successor,
      erased. */
  lemma AnalyzeInsertedJmp(s: seq<Instr>, t: BlockId, layoutSucc: Option<BlockId>, allowModify: bool)
    requires NoTrailingTerminator(s)
    ensures AnalyzeSpec(s + [Jmp(t)], layoutSucc, allowModify, NoBranchInfo)
         == if allowModify && layoutSucc == Some(t) then Analysis(false, NoBranchInfo, s)
            else Analysis(false, BranchInfo(Some(t), None, []), s + [Jmp(t)])
  {
    var w := s + [Jmp(t)];
    assert w[..|s|] == s;
    assert w[..|w|] == w;
    if allowModify && layoutSucc == Some(t) {
      assert s[..|s|] == s;
      AnalyzeStopsBeforeTerminators(s, |s|, NoBranchInfo, layoutSucc, allowModify);
    } else {
      AnalyzeStopsBeforeTerminators(w, |s|, BranchInfo(Some(t), None, []), layoutSucc, allowModify);
    }
  }

  /** An inserted JCC without a false block: read back as its target and
      condition. */
  lemma AnalyzeInsertedJcc(s: seq<Instr>, t: BlockId, c: CondCode, layoutSucc: Option<BlockId>, allowModify: bool)
    requires NoTrailingTerminator(s) && !c.CondInvalid?
    ensures AnalyzeSpec(s + [Jcc(t, c)], layoutSucc, allowModify, NoBranchInfo)
         == Analysis(false, BranchInfo(Some(t), None, [c]), s + [Jcc(t, c)])
  {
    var w := s + [Jcc(t, c)];
    assert w[..|s|] == s;
    AnalyzeJccLast(w, |s|, t, c, NoBranchInfo, layoutSucc, allowModify);
  }

  /** An inserted JCC+JMP pair: read back as true block, false block and
      condition, except that with AllowModify true and the false block being
      the layout successor the JMP is erased and the false block cleared. */
  lemma AnalyzeInsertedPair(s: seq<Instr>, t: BlockId, f: BlockId, c: CondCode, layoutSucc: Option<BlockId>, allowModify: bool)
    requires NoTrailingTerminator(s) && !c.CondInvalid?
    ensures AnalyzeSpec(s + [Jcc(t, c), Jmp(f)], layoutSucc, allowModify, NoBranchInfo)
         == if allowModify && layoutSucc == Some(f) then
              Analysis(false, BranchInfo(Some(t), None, [c]), s + [Jcc(t, c)])
            else Analysis(false, BranchInfo(Some(t), Some(f), [c]), s + [Jcc(t, c), Jmp(f)])
  {
    var w := s + [Jcc(t, c), Jmp(f)];
    var v := s + [Jcc(t, c)];
    assert w[|s| + 1] == Jmp(f);
    if allowModify && layoutSucc == Some(f) {
      assert w[..|s| + 1] == v;
      AnalyzeInsertedJcc(s, t, c, layoutSucc, allowModify);
    } else {
      assert w[..|s|] == s && w[|s|] == Jcc(t, c);
      assert w[..|w|] == w;
      AnalyzeJccLast(w, |s|, t, c, BranchInfo(Some(f), None, []), layoutSucc, allowModify);
    }
  }

  /** analyzeBranch reads back what insertBranch wrote: on a block whose
      original code ends in no terminator, the inserted JMP, JCC or JCC+JMP
      is analysed to the very TBB, FBB and Cond it was built from, and with
      AllowModify false the block is not touched. */
  lemma AnalyzeAfterInsert(s: seq<Instr>, tbb: BlockId, fbb: Option<BlockId>, cond: seq<CondCode>, layoutSucc: Option<BlockId>)
    requires NoTrailingTerminator(s)
    requires |cond| <= 1 && (cond == [] ==> fbb == None)
    requires cond != [] ==> !cond[0].CondInvalid?
    ensures var b := BranchSeq(tbb, fbb, cond);
      AnalyzeSpec(s + b, layoutSucc, false, NoBranchInfo) == Analysis(false, BranchInfo(Some(tbb), fbb, cond), s + b)
  {
    if cond == [] {
      AnalyzeInsertedJmp(s, tbb, layoutSucc, false);
    } else if fbb == None {
      assert [cond[0]] == cond;
      assert BranchSeq(tbb, fbb, cond) == [Jcc(tbb, cond[0])];
      AnalyzeInsertedJcc(s, tbb, cond[0], layoutSucc, false);
    } else {
      assert [cond[0]] == cond;
      assert BranchSeq(tbb, fbb, cond) == [Jcc(tbb, cond[0]), Jmp(fbb.value)];
      AnalyzeInsertedPair(s, tbb, fbb.value, cond[0], layoutSucc, false);
    }
  }

  /** With AllowModify true, a two-way branch whose false block is the layout
      successor loses its JMP, which falls through, and FBB is cleared; any
      other inserted branch is analysed as with AllowModify false. An
      unconditional JMP to the layout successor is erased and TBB cleared. */
  lemma AnalyzeModifyAfterInsert(s: seq<Instr>, tbb: BlockId, fbb: Option<BlockId>, cond: seq<CondCode>, layoutSucc: Option<BlockId>)
    requires NoTrailingTerminator(s)
    requires |cond| <= 1 && (cond == [] ==> fbb == None)
    requires cond != [] ==> !cond[0].CondInvalid?
    ensures var b := BranchSeq(tbb, fbb, cond);
      var a := AnalyzeSpec(s + b, layoutSucc, true, NoBranchInfo);
      if cond == [] && layoutSucc == Some(tbb) then a == Analysis(false, NoBranchInfo, s)
      else if cond != [] && fbb.Some? && layoutSucc == fbb then
        a == Analysis(false, BranchInfo(Some(tbb), None, cond), s + [Jcc(tbb, cond[0])])
      else a == Analysis(false, BranchInfo(Some(tbb), fbb, cond), s + b)
  {
    if cond == [] {
      AnalyzeInsertedJmp(s, tbb, layoutSucc, true);
    } else if fbb == None {
      assert [cond[0]] == cond;
      assert BranchSeq(tbb, fbb, cond) == [Jcc(tbb, cond[0])];
      AnalyzeInsertedJcc(s, tbb, cond[0], layoutSucc, true);
    } else {
      assert [cond[0]] == cond;
      assert BranchSeq(tbb, fbb, cond) == [Jcc(tbb, cond[0]), Jmp(fbb.value)];
      AnalyzeInsertedPair(s, tbb, fbb.value, cond[0], layoutSucc, true);
    }
  }

  /** The block cannot be analysed when its last non-debug instruction is a
      terminator that is not a branch, an indirect branch Br/Bm, or a JCC
      whose condition is COND_INVALID. */
  lemma AnalyzeRejectsLastTerminator(p: seq<Instr>, x: Instr, d: seq<Instr>, info: BranchInfo, layoutSucc: Option<BlockId>, allowModify: bool)
    requires AllDebug(d)
    requires !x.isDebug && x.isTerminator
    requires !IsBranch(x.op) || x.op.Br? || x.op.Bm? || (x.op.JCC? && x.cc.CondInvalid?)
    ensures AnalyzeSpec(p + [x] + d, layoutSucc, allowModify, info).unanalysable
  {
    var s := p + [x] + d;
    AnalyzeSkipsDebug(s, |s|, |p| + 1, info, layoutSucc, allowModify);
  }

  /** Two conditional branches in a row are accepted only when they agree:
      a second JCC with another target or another condition makes the block
      unanalysable, a second one that repeats the first is passed over. */
  lemma AnalyzeTwoConditionals(p: seq<Instr>, t1: BlockId, c1: CondCode, t2: BlockId, c2: CondCode, d: seq<Instr>,
                               layoutSucc: Option<BlockId>, allowModify: bool)
    requires AllDebug(d)
    requires !c1.CondInvalid? && !c2.CondInvalid?
    ensures var s := p + [Jcc(t1, c1), Jcc(t2, c2)] + d;
      var a := AnalyzeSpec(s, layoutSucc, allowModify, NoBranchInfo);
      && ((t1 != t2 || c1 != c2) ==> a.unanalysable)
      && ((t1 == t2 && c1 == c2) ==> a == AnalyzeFrom(s, |p|, BranchInfo(Some(t1), None, [c1]), layoutSucc, allowModify))
  {
    var s := p + [Jcc(t1, c1), Jcc(t2, c2)] + d;
    AnalyzeSkipsDebug(s, |s|, |p| + 2, NoBranchInfo, layoutSucc, allowModify);
  }

  // ---------------------------------------------------------------------
  // The block and the three hooks that edit it

  class Block {
    var instrs: seq<Instr>
    /** The block laid out right after this one, if any (isLayoutSuccessor). */
    const layoutSucc: Option<BlockId>

    constructor (s: seq<Instr>, next: Option<BlockId>)
      ensures instrs == s && layoutSucc == next
    {
      instrs := s;
      layoutSucc := next;
    }

    /** removeBranch: erases the trailing branches and returns how many. */
    method RemoveBranch() returns (count: nat)
      modifies this
      ensures instrs == StripBranches(old(instrs))
      ensures count == |old(instrs)| - |instrs|
    {
      var i: nat := |instrs|;
      count := 0;
      while i != 0
        invariant i <= |instrs|
        invariant forall k :: i <= k < |instrs| ==> instrs[k].isDebug
        invariant StripBranches(instrs) == StripBranches(old(instrs))
        invariant count + |instrs| == |old(instrs)|
        decreases |instrs|, i
      {
        i := i - 1;
        var x := instrs[i];
        if x.isDebug {
          continue;
        }
        assert instrs == instrs[..i] + [x] + instrs[i + 1..];
        assert AllDebug(instrs[i + 1..]);
        if !IsBranch(x.op) {
          StripBranchesStopsAt(instrs[..i], x, instrs[i + 1..]);
          return;
        }
        // Erase the branch and restart from the end of the block.
        StripBranchesErasesAt(instrs[..i], x, instrs[i + 1..]);
        instrs := instrs[..i] + instrs[i + 1..];
        i := |instrs|;
        count := count + 1;
      }
      StripBranchesAllDebug(instrs);
    }

    /** insertBranch: appends the branches for TBB, FBB and Cond and returns
      how many it appended. TBB must be present and Cond has at most one
      operand, and an unconditional branch has no FBB. */
    method InsertBranch(tbb: BlockId, fbb: Option<BlockId>, cond: seq<CondCode>) returns (count: nat)
      requires |cond| <= 1
      requires cond == [] ==> fbb == None
      modifies this
      ensures instrs == old(instrs) + BranchSeq(tbb, fbb, cond)
      ensures count == |instrs| - |old(instrs)|
    {
      if cond == [] {
        instrs := instrs + [Jmp(tbb)];
        return 1;
      }
      count := 0;
      instrs := instrs + [Jcc(tbb, cond[0])];
      count := count + 1;
      if fbb.Some? {
        instrs := instrs + [Jmp(fbb.value)];
        count := count + 1;
      }
    }

    /** analyzeBranch: walks up from the end of the block over its
      terminators, filling in TBB, FBB and Cond; with `allowModify` it
      erases whatever follows an unconditional JMP and the JMP itself when it
      goes to the layout successor. Returns true when the block cannot be
      analysed. */
    method AnalyzeBranch(info0: BranchInfo, allowModify: bool) returns (unanalysable: bool, info: BranchInfo)
      requires InfoOk(info0)
      modifies this
      ensures var a := AnalyzeSpec(old(instrs), layoutSucc, allowModify, info0);
        unanalysable == a.unanalysable && info == a.info && instrs == a.instrs
    {
      ghost var goal := AnalyzeSpec(instrs, layoutSucc, allowModify, info0);
      var i: nat := |instrs|;
      info := info0;
      while i != 0
        invariant i <= |instrs|
        invariant InfoOk(info)
        invariant AnalyzeFrom(instrs, i, info, layoutSucc, allowModify) == goal
        decreases |instrs|, i
      {
        i := i - 1;
        var x := instrs[i];
        if x.isDebug {
          continue;
        }
        if !x.isTerminator {
          break;
        }
        if !IsBranch(x.op) {
          return true, info;
        }
        if x.op == Br || x.op == Bm {
          return true, info;
        }
        if x.op == JMP {
          if !allowModify {
            info := info.(tbb := Some(x.target));
            continue;
          }
          // Delete everything after the JMP.
          ghost var before := instrs;
          while i + 1 != |instrs|
            invariant i + 1 <= |instrs|
            invariant instrs[..i + 1] == before[..i + 1]
            decreases |instrs|
          {
            instrs := instrs[..i + 1] + instrs[i + 2..];
          }
          assert instrs == before[..i + 1];
          assert instrs[..i] == before[..i];
          info := info.(cond := [], fbb := None);
          if layoutSucc == Some(x.target) {
            info := info.(tbb := None);
            instrs := instrs[..i];
            continue;
          }
          info := info.(tbb := Some(x.target));
          continue;
        }
        assert x.op == JCC;
        if x.cc == CondInvalid {
          return true, info;
        }
        if info.cond == [] {
          info := BranchInfo(Some(x.target), info.tbb, [x.cc]);
          continue;
        }
        assert |info.cond| == 1 && info.tbb.Some?;
        if info.tbb != Some(x.target) {
          return true, info;
        }
        if info.cond[0] == x.cc {
          continue;
        }
        return true, info;
      }
      unanalysable := false;
    }
  }

  // ---------------------------------------------------------------------
  // getInstSizeInBytes and getInstrLatency

  /** Opcodes that emit no machine code. */
  predicate EmitsNoCode(op: Opcode)
  {
    op.CfiInstruction? || op.EhLabel? || op.ImplicitDef? || op.Kill? || op.DbgValue?
  }

  /** The Sancus secure-module instructions. */
  predicate IsSancus(op: Opcode)
  {
    op.EExit? || op.EEnter? || op.EReturn? || op.Rete? || op.Attest?
  }

  /** getInstSizeInBytes: the most bytes an instruction may take. The
      descriptor sizes and the inline-assembly length query are inputs. */
  function InstSizeInBytes(op: Opcode, descSize: Opcode -> nat, inlineAsmLength: nat): (r: nat)
    ensures EmitsNoCode(op) ==> r == 0
    ensures (op.InlineAsm? || op.InlineAsmBr?) ==> r == inlineAsmLength
    ensures IsSancus(op) ==> r == 12
    ensures !EmitsNoCode(op) && !op.InlineAsm? && !op.InlineAsmBr? && !IsSancus(op) ==> r == descSize(op)
  {
    match op
    case CfiInstruction => 0
    case EhLabel => 0
    case ImplicitDef => 0
    case Kill => 0
    case DbgValue => 0
    case InlineAsm => inlineAsmLength
    case InlineAsmBr => inlineAsmLength
    case EExit => 12
    case EEnter => 12
    case EReturn => 12
    case Rete => 12
    case Attest => 12
    case _ => descSize(op)
  }

  const UINT_LIMIT: nat := 0x1_0000_0000

  /** A row of the generated latency table: the base latency and the extra
      cycles of an instruction that writes the program counter. */
  datatype LatencyEntry = LatencyEntry(base: nat, pcCorrection: nat)

  /** getInstrLatency: the base latency, plus the PC correction when the
      instruction defines PC, in 32-bit unsigned arithmetic. */
  function InstrLatency(table: Opcode -> LatencyEntry, op: Opcode, definesPC: bool): (r: nat)
    requires table(op).base < UINT_LIMIT && table(op).pcCorrection < UINT_LIMIT
    ensures r < UINT_LIMIT
    ensures !definesPC ==> r == table(op).base
    ensures definesPC && table(op).base + table(op).pcCorrection < UINT_LIMIT ==>
      r == table(op).base + table(op).pcCorrection
    ensures definesPC && table(op).base + table(op).pcCorrection >= UINT_LIMIT ==>
      r == table(op).base + table(op).pcCorrection - UINT_LIMIT
  {
    var e := table(op);
    var l := e.base;
    if definesPC then (l + e.pcCorrection) % UINT_LIMIT else l
  }
}
