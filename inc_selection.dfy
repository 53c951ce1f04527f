/** The two scans of generate_memtrace_classes.py over the generated
    trace-class file: the table scan keeps the fixture rows of the table for
    the chosen pair of memory regions, and the range scan keeps the rows
    from a start number through an end number. */
module IncSelection {
  import opened Text
  import opened MemTraceInfo

  // ---------------------------------------------------------------------
  // Table headers and region keys

  /** The six trace-class tables, in the order the scan tests their headers. */
  function TableName(i: nat): string
    requires i < 6
  {
    match i
    case 0 => "progr_data"
    case 1 => "data_data"
    case 2 => "per_data"
    case 3 => "data_per"
    case 4 => "progr_per"
    case _ => "per_per"
  }

  function Header(i: nat): string
    requires i < 6
  {
    "Instruction_classes_" + TableName(i)
  }

  /** The region key the script asks for, one per table. */
  function ScriptKey(i: nat): string
    requires i < 6
  {
    match i
    case 0 => "prd"
    case 1 => "dd"
    case 2 => "ped"
    case 3 => "dpe"
    case 4 => "prpe"
    case _ => "pepe"
  }

  predicate IsScriptKey(region: string)
  {
    region == "prd" || region == "dd" || region == "ped" || region == "dpe" || region == "prpe" || region == "pepe"
  }

  /** The flag after the header of table `i`: the region keys are compared in
      turn, the key of table `i` sets the flag and any other key clears it;
      a region that is no key leaves it as it was. */
  function HeaderFlag(found: bool, region: string, i: nat): bool
    requires i < 6
  {
    if region == "prd" then i == 0
    else if region == "dd" then i == 1
    else if region == "ped" then i == 2
    else if region == "dpe" then i == 3
    else if region == "prpe" then i == 4
    else if region == "pepe" then i == 5
    else found
  }

  /** For a key of the script, the header of table `i` sets the flag
      exactly when the key is that of table `i`. */
  lemma HeaderFlagKey(found: bool, region: string, i: nat)
    requires i < 6 && IsScriptKey(region)
    ensures HeaderFlag(found, region, i) == (region == ScriptKey(i))
  {
  }

  /** Which of the six headers a line holds. */
  function Hits(line: string): (r: seq<bool>)
    ensures |r| == 6 && forall i :: 0 <= i < 6 ==> r[i] == Contains(line, Header(i))
  {
    seq(6, i requires 0 <= i < 6 => Contains(line, Header(i)))
  }

  /** A line holding no header. */
  const NoHits := [false, false, false, false, false, false]

  /** The flag after the tests of the first `n` headers, `hits` telling
      which of them the line holds. */
  function FlagAfter(found: bool, hits: seq<bool>, region: string, n: nat): bool
    requires n <= |hits| <= 6
  {
    if n == 0 then found
    else
      var f := FlagAfter(found, hits, region, n - 1);
      if hits[n - 1] then HeaderFlag(f, region, n - 1) else f
  }

  /** The flag after the six header tests of `line`. */
  function LineFlag(found: bool, line: string, region: string): bool
  {
    FlagAfter(found, Hits(line), region, 6)
  }

  /** A fixture row of a table: it holds `{` and `},` and is not the
      placeholder of an instruction without fixtures. */
  predicate Keep(line: string)
  {
    Contains(line, "{") && Contains(line, "},") && !Contains(line, "nothing yet")
  }

  // ---------------------------------------------------------------------
  // The table scan

  datatype TableState = TableState(found: bool, kept: seq<string>)

  /** The flag and the kept lines after the lines `lines` of the file. */
  function TableScan(lines: seq<string>, region: string): TableState
    decreases |lines|
  {
    if lines == [] then TableState(false, [])
    else
      var st := TableScan(lines[..|lines| - 1], region);
      var line := lines[|lines| - 1];
      var f := LineFlag(st.found, line, region);
      TableState(f, st.kept + (if f && Keep(line) then [line] else []))
  }

  /** The six header tests of one line. */
  method UpdateFlag(found: bool, line: string, memRegion: string) returns (foundTable: bool)
    ensures foundTable == LineFlag(found, line, memRegion)
  {
    ghost var hits := Hits(line);
    foundTable := found;
    if Contains(line, Header(0)) {
      foundTable := HeaderFlag(foundTable, memRegion, 0);
    }
    assert foundTable == FlagAfter(found, hits, memRegion, 1);
    if Contains(line, Header(1)) {
      foundTable := HeaderFlag(foundTable, memRegion, 1);
    }
    assert foundTable == FlagAfter(found, hits, memRegion, 2);
    if Contains(line, Header(2)) {
      foundTable := HeaderFlag(foundTable, memRegion, 2);
    }
    assert foundTable == FlagAfter(found, hits, memRegion, 3);
    if Contains(line, Header(3)) {
      foundTable := HeaderFlag(foundTable, memRegion, 3);
    }
    assert foundTable == FlagAfter(found, hits, memRegion, 4);
    if Contains(line, Header(4)) {
      foundTable := HeaderFlag(foundTable, memRegion, 4);
    }
    assert foundTable == FlagAfter(found, hits, memRegion, 5);
    if Contains(line, Header(5)) {
      foundTable := HeaderFlag(foundTable, memRegion, 5);
    }
    assert foundTable == FlagAfter(found, hits, memRegion, 6);
  }

  /** The scan of the file: the flag is updated on every line, and a line
      read while it is set is kept when it is a fixture row. */
  method SelectTable(incLines: seq<string>, memRegion: string) returns (allInstructions: seq<string>)
    ensures allInstructions == TableScan(incLines, memRegion).kept
  {
    var foundTable := false;
    allInstructions := [];
    for pos := 0 to |incLines|
      invariant TableScan(incLines[..pos], memRegion) == TableState(foundTable, allInstructions)
    {
      var line := incLines[pos];
      assert incLines[..pos + 1][..pos] == incLines[..pos];
      foundTable := UpdateFlag(foundTable, line, memRegion);
      if foundTable && Keep(line) {
        allInstructions := allInstructions + [line];
      }
    }
    assert incLines[..|incLines|] == incLines;
  }

  // ---------------------------------------------------------------------
  // What the table scan promises

  /** A region that is no key of the script never changes the flag ... */
  lemma {:induction false} FlagAfterUnknown(found: bool, hits: seq<bool>, region: string, n: nat)
    requires n <= |hits| <= 6 && !IsScriptKey(region)
    ensures FlagAfter(found, hits, region, n) == found
  {
    if n > 0 {
      FlagAfterUnknown(found, hits, region, n - 1);
    }
  }

  /** ... so with it nothing is ever kept. */
  lemma {:induction false} UnknownRegionKeepsNothing(lines: seq<string>, region: string)
    requires !IsScriptKey(region)
    ensures TableScan(lines, region) == TableState(false, [])
    decreases |lines|
  {
    if lines != [] {
      UnknownRegionKeepsNothing(lines[..|lines| - 1], region);
      FlagAfterUnknown(false, Hits(lines[|lines| - 1]), region, 6);
    }
  }

  /** No header among the first `n`: the flag stays. */
  lemma {:induction false} FlagAfterNoHit(found: bool, hits: seq<bool>, region: string, n: nat)
    requires n <= |hits| <= 6
    requires forall i :: 0 <= i < n ==> !hits[i]
    ensures FlagAfter(found, hits, region, n) == found
  {
    if n > 0 {
      FlagAfterNoHit(found, hits, region, n - 1);
    }
  }

  /** The last header a line holds decides the flag: it is set exactly when
      the region is the key of that table. */
  lemma {:induction false} FlagAfterLastHit(found: bool, hits: seq<bool>, region: string, i: nat, n: nat)
    requires i < n <= |hits| <= 6 && IsScriptKey(region) && hits[i]
    requires forall j :: i < j < n ==> !hits[j]
    ensures FlagAfter(found, hits, region, n) == (region == ScriptKey(i))
  {
    if n - 1 > i {
      FlagAfterLastHit(found, hits, region, i, n - 1);
    } else {
      HeaderFlagKey(FlagAfter(found, hits, region, i), region, i);
    }
  }

  /** The fixture rows among `lines`, in order. */
  function KeepFilter(lines: seq<string>): (r: seq<string>)
    decreases |lines|
  {
    if lines == [] then []
    else KeepFilter(lines[..|lines| - 1]) + (if Keep(lines[|lines| - 1]) then [lines[|lines| - 1]] else [])
  }

  /** No header in the lines `body`: the flag stays, and while it is set
      every fixture row of `body` is kept, in order. */
  lemma {:induction false} ScanWithoutHeaders(pre: seq<string>, body: seq<string>, region: string)
    requires forall k :: 0 <= k < |body| ==> Hits(body[k]) == NoHits
    ensures var st := TableScan(pre, region);
      TableScan(pre + body, region)
        == TableState(st.found, st.kept + (if st.found then KeepFilter(body) else []))
    decreases |body|
  {
    var st := TableScan(pre, region);
    if body == [] {
      assert pre + body == pre;
    } else {
      var b := body[..|body| - 1];
      var line := body[|body| - 1];
      assert pre + body == (pre + b) + [line];
      ScanWithoutHeaders(pre, b, region);
      ScanHeaderless(pre + b, line, region);
    }
  }

  /** One line without a header: the flag stays, and the line is kept when
      the flag is set and it is a fixture row. */
  lemma ScanHeaderless(p: seq<string>, line: string, region: string)
    requires Hits(line) == NoHits
    ensures var st := TableScan(p, region);
      TableScan(p + [line], region) == TableState(st.found, st.kept + (if st.found && Keep(line) then [line] else []))
  {
    assert (p + [line])[..|p|] == p;
    FlagAfterNoHit(TableScan(p, region).found, Hits(line), region, 6);
  }

  /** A section of the file: a header line whose last header is that of
      table `i`, followed by lines without headers. The flag is set exactly
      when the region is the key of table `i`, and then the fixture rows of
      the section are kept after those kept before it; otherwise nothing is
      added. */
  lemma TableSection(pre: seq<string>, h: string, body: seq<string>, region: string, i: nat)
    requires i < 6 && IsScriptKey(region) && Hits(h)[i]
    requires forall j :: i < j < 6 ==> !Hits(h)[j]
    requires forall k :: 0 <= k < |body| ==> Hits(body[k]) == NoHits
    ensures var chosen := region == ScriptKey(i);
      TableScan(pre + [h] + body, region)
        == TableState(chosen, TableScan(pre, region).kept + (if chosen then KeepFilter([h] + body) else []))
  {
    var st := TableScan(pre, region);
    var chosen := region == ScriptKey(i);
    FlagAfterLastHit(st.found, Hits(h), region, i, 6);
    ScanHeaderLine(pre, h, region, chosen);
    ScanWithoutHeaders(pre + [h], body, region);
    if chosen {
      KeepFilterAppend([h], body);
      AppendAssoc(st.kept, KeepFilter([h]), KeepFilter(body));
    } else {
      assert st.kept + [] == st.kept;
    }
  }

  /** The header line itself: the flag it leaves decides whether it is kept. */
  lemma ScanHeaderLine(pre: seq<string>, h: string, region: string, chosen: bool)
    requires LineFlag(TableScan(pre, region).found, h, region) == chosen
    ensures TableScan(pre + [h], region)
      == TableState(chosen, TableScan(pre, region).kept + (if chosen then KeepFilter([h]) else []))
  {
    assert (pre + [h])[..|pre + [h]| - 1] == pre;
    assert [h][..0] == [];
  }

  lemma {:induction false} KeepFilterAppend(a: seq<string>, b: seq<string>)
    ensures KeepFilter(a + b) == KeepFilter(a) + KeepFilter(b)
    decreases |b|
  {
    if b == [] {
      assert a + b == a;
    } else {
      var b' := b[..|b| - 1];
      assert (a + b)[..|a + b| - 1] == a + b';
      KeepFilterAppend(a, b');
    }
  }

  /** Every kept line is a fixture row of the file. */
  lemma {:induction false} KeptAreRows(lines: seq<string>, region: string)
    ensures forall k :: 0 <= k < |TableScan(lines, region).kept| ==>
      Keep(TableScan(lines, region).kept[k]) && TableScan(lines, region).kept[k] in lines
    decreases |lines|
  {
    if lines != [] {
      var p := lines[..|lines| - 1];
      KeptAreRows(p, region);
      assert forall x :: x in p ==> x in lines;
    }
  }

  // ---------------------------------------------------------------------
  // Rows of the generated file

  lemma ContainsMiddle(a: string, p: string, b: string)
    ensures Contains(a + p + b, p)
  {
    var s := a + p + b;
    assert s[|a|..|a| + |p|] == p;
    ContainsAt(s, p, |a|);
  }

  /** Every row the backend emits is a fixture row for the table scan,
      unless its fixture is the placeholder of an instruction without
      fixtures, which the scan drops. */
  lemma EmittedRowKept(row: Row, namespace: string)
    ensures Keep(RowText(row, namespace)) <==> !Contains(RowText(row, namespace), "nothing yet")
    ensures row.fixture == "nothing yet" ==> !Keep(RowText(row, namespace))
  {
    var tag := "/* " + DecimalString(row.num) + "*/ ";
    var tail := "// " + namespace + "::" + row.name + "\n";
    assert RowText(row, namespace) == tag + "{" + (row.fixture + "}, " + tail);
    ContainsMiddle(tag, "{", row.fixture + "}, " + tail);
    assert RowText(row, namespace) == (tag + "{" + row.fixture) + "}," + (" " + tail);
    ContainsMiddle(tag + "{" + row.fixture, "},", " " + tail);
    if row.fixture == "nothing yet" {
      assert RowText(row, namespace) == (tag + "{") + "nothing yet" + ("}, " + tail);
      ContainsMiddle(tag + "{", "nothing yet", "}, " + tail);
    }
  }

  /** Letters and underscores only. */
  predicate IsWord(s: string)
  {
    forall k :: 0 <= k < |s| ==> s[k] == '_' || 'a' <= s[k] <= 'z' || 'A' <= s[k] <= 'Z'
  }

  lemma TableNameWord(i: nat)
    requires i < 6
    ensures IsWord(TableName(i))
  {
  }

  /** A header is a word of letters and underscores: it starts with 'I' and
      holds none of the characters that separate the fields of a row. */
  lemma HeaderChars(i: nat)
    requires i < 6
    ensures |Header(i)| > 4 && Header(i)[0] == 'I'
    ensures '{' !in Header(i) && '}' !in Header(i) && ' ' !in Header(i) && ':' !in Header(i) && '\n' !in Header(i)
  {
    var prefix := "Instruction_classes_";
    assert IsWord(prefix);
    TableNameWord(i);
    assert IsWord(prefix + TableName(i));
  }

  /** A row names a table only through its fixture, its namespace or its
      instruction name: the number tag and the punctuation hold no header. */
  lemma RowTextNoHeader(row: Row, namespace: string, i: nat)
    requires i < 6
    requires !Contains(row.fixture, Header(i)) && !Contains(namespace, Header(i)) && !Contains(row.name, Header(i))
    ensures !Contains(RowText(row, namespace), Header(i))
  {
    HeaderChars(i);
    var tag := "/* " + DecimalString(row.num) + "*/ ";
    RowTextFields(row, namespace, tag);
    assert Header(i)[0] !in tag;
    FieldsNoHeader(tag, row.fixture, namespace, row.name, Header(i));
  }

  /** The row text cut at the separators that a header cannot hold. */
  lemma RowTextFields(row: Row, namespace: string, tag: string)
    requires tag == "/* " + DecimalString(row.num) + "*/ "
    ensures RowText(row, namespace)
         == tag + ['{'] + (row.fixture + ['}'] + (", //" + [' '] + (namespace + [':'] + ("" + [':'] + (row.name + ['\n'] + "")))))
  {
  }

  /** Text cut by separators `pat` does not hold, where every piece is free
      of `pat`, is free of it too. */
  lemma FieldsNoHeader(tag: string, fixture: string, namespace: string, name: string, pat: string)
    requires |pat| > 4 && pat[0] !in tag
    requires '{' !in pat && '}' !in pat && ' ' !in pat && ':' !in pat && '\n' !in pat
    requires !Contains(fixture, pat) && !Contains(namespace, pat) && !Contains(name, pat)
    ensures !Contains(tag + ['{'] + (fixture + ['}'] + (", //" + [' '] + (namespace + [':'] + ("" + [':'] + (name + ['\n'] + ""))))), pat)
  {
    var r5 := name + ['\n'] + "";
    var r4 := "" + [':'] + r5;
    var r3 := namespace + [':'] + r4;
    var r2 := ", //" + [' '] + r3;
    var r1 := fixture + ['}'] + r2;
    ContainsFirst(tag, pat);
    ContainsSplit(tag, '{', r1, pat);
    ContainsSplit(fixture, '}', r2, pat);
    ContainsSplit(", //", ' ', r3, pat);
    ContainsSplit(namespace, ':', r4, pat);
    ContainsSplit("", ':', r5, pat);
    ContainsSplit(name, '\n', "", pat);
  }

  /** The lines the backend writes for the rows `rows`. */
  function RowLines(rows: seq<Row>, namespace: string): seq<string>
  {
    seq(|rows|, k requires 0 <= k < |rows| => RowText(rows[k], namespace))
  }

  /** The backend writes rows only, never a table header: unless a fixture,
      the namespace or an instruction name happens to spell a header, the
      table scan over the emitted rows never sets its flag and keeps
      nothing, whatever the region. */
  lemma EmittedRowsKeepNothing(rows: seq<Row>, namespace: string, region: string)
    requires forall i :: 0 <= i < 6 ==> !Contains(namespace, Header(i))
    requires forall k, i :: 0 <= k < |rows| && 0 <= i < 6 ==>
      !Contains(rows[k].fixture, Header(i)) && !Contains(rows[k].name, Header(i))
    ensures TableScan(RowLines(rows, namespace), region) == TableState(false, [])
  {
    var lines := RowLines(rows, namespace);
    forall k | 0 <= k < |lines|
      ensures Hits(lines[k]) == NoHits
    {
      forall i | 0 <= i < 6
        ensures !Contains(lines[k], Header(i))
      {
        RowTextNoHeader(rows[k], namespace, i);
      }
    }
    ScanWithoutHeaders([], lines, region);
    assert [] + lines == lines;
  }

  // ---------------------------------------------------------------------
  // The range scan

  /** The tag that opens the row numbered `n`. */
  function Tag(n: string): string
  {
    "/* " + n + "*/"
  }

  /** Every emitted row carries the tag of its number. */
  lemma RowCarriesTag(row: Row, namespace: string)
    ensures Contains(RowText(row, namespace), Tag(DecimalString(row.num)))
  {
    var rest := " " + "{" + row.fixture + "}, " + "// " + namespace + "::" + row.name + "\n";
    assert RowText(row, namespace) == [] + Tag(DecimalString(row.num)) + rest;
    ContainsMiddle([], Tag(DecimalString(row.num)), rest);
  }

  datatype RangeState = RangeState(add: bool, out: seq<string>)

  /** The flag and the selected lines after `lines`: a line with the start
      tag sets the flag, a line read while it is set is selected, and a line
      with the end tag clears it after its own selection. */
  function RangeScan(lines: seq<string>, startTag: string, endTag: string): RangeState
    decreases |lines|
  {
    if lines == [] then RangeState(false, [])
    else
      var st := RangeScan(lines[..|lines| - 1], startTag, endTag);
      var line := lines[|lines| - 1];
      var add := st.add || Contains(line, startTag);
      RangeState(add && !Contains(line, endTag), st.out + (if add then [line] else []))
  }

  method SelectRange(allInstructions: seq<string>, startInstrNumber: string, endInstrNumber: string)
    returns (simulatedInstr: seq<string>)
    ensures simulatedInstr == RangeScan(allInstructions, Tag(startInstrNumber), Tag(endInstrNumber)).out
  {
    var startTag := Tag(startInstrNumber);
    var endTag := Tag(endInstrNumber);
    simulatedInstr := [];
    var addInstr := false;
    for i := 0 to |allInstructions|
      invariant RangeScan(allInstructions[..i], startTag, endTag) == RangeState(addInstr, simulatedInstr)
    {
      var line := allInstructions[i];
      assert allInstructions[..i + 1][..i] == allInstructions[..i];
      if Contains(line, startTag) {
        addInstr := true;
      }
      if addInstr {
        simulatedInstr := simulatedInstr + [line];
      }
      if Contains(line, endTag) {
        addInstr := false;
      }
    }
    assert allInstructions[..|allInstructions|] == allInstructions;
  }

  // ---------------------------------------------------------------------
  // What the range scan promises

  /** Without a start tag nothing is selected. */
  lemma {:induction false} RangeNoStart(lines: seq<string>, startTag: string, endTag: string)
    requires forall k :: 0 <= k < |lines| ==> !Contains(lines[k], startTag)
    ensures RangeScan(lines, startTag, endTag) == RangeState(false, [])
    decreases |lines|
  {
    if lines != [] {
      var p := lines[..|lines| - 1];
      assert forall k :: 0 <= k < |p| ==> p[k] == lines[k];
      RangeNoStart(p, startTag, endTag);
    }
  }

  /** Lines read without a start tag after a cleared flag add nothing. */
  lemma {:induction false} RangeIdle(pre: seq<string>, post: seq<string>, startTag: string, endTag: string)
    requires !RangeScan(pre, startTag, endTag).add
    requires forall k :: 0 <= k < |post| ==> !Contains(post[k], startTag)
    ensures RangeScan(pre + post, startTag, endTag) == RangeScan(pre, startTag, endTag)
    decreases |post|
  {
    if post == [] {
      assert pre + post == pre;
    } else {
      var p := post[..|post| - 1];
      assert (pre + post)[..|pre + post| - 1] == pre + p;
      assert forall k :: 0 <= k < |p| ==> p[k] == post[k];
      RangeIdle(pre, p, startTag, endTag);
    }
  }

  /** Lines read without an end tag while the flag is set are all
      selected. */
  lemma {:induction false} RangeBusy(pre: seq<string>, mid: seq<string>, startTag: string, endTag: string)
    requires RangeScan(pre, startTag, endTag).add
    requires forall k :: 0 <= k < |mid| ==> !Contains(mid[k], endTag)
    ensures RangeScan(pre + mid, startTag, endTag)
      == RangeState(true, RangeScan(pre, startTag, endTag).out + mid)
    decreases |mid|
  {
    if mid == [] {
      assert pre + mid == pre;
    } else {
      var p := mid[..|mid| - 1];
      assert (pre + mid)[..|pre + mid| - 1] == pre + p;
      assert forall k :: 0 <= k < |p| ==> p[k] == mid[k];
      RangeBusy(pre, p, startTag, endTag);
      assert p + [mid[|mid| - 1]] == mid;
    }
  }

  /** One tagged range: the lines before it hold no start tag, the first
      line of the range holds the start tag and not the end tag, the lines
      inside hold no end tag, its last line holds the end tag and the lines
      after it hold no start tag. Exactly the range is selected, in order,
      from its start line through its end line. */
  lemma RangeSelected(pre: seq<string>, a: string, mid: seq<string>, b: string, post: seq<string>,
                      startTag: string, endTag: string)
    requires forall k :: 0 <= k < |pre| ==> !Contains(pre[k], startTag)
    requires Contains(a, startTag) && !Contains(a, endTag)
    requires forall k :: 0 <= k < |mid| ==> !Contains(mid[k], endTag)
    requires Contains(b, endTag)
    requires forall k :: 0 <= k < |post| ==> !Contains(post[k], startTag)
    ensures RangeScan(pre + [a] + mid + [b] + post, startTag, endTag).out == [a] + mid + [b]
  {
    RangeNoStart(pre, startTag, endTag);
    RangeLine(pre, a, startTag, endTag);
    RangeBusy(pre + [a], mid, startTag, endTag);
    RangeLine(pre + [a] + mid, b, startTag, endTag);
    RangeIdle(pre + [a] + mid + [b], post, startTag, endTag);
  }

  /** One more line, as the loop body reads it. */
  lemma RangeLine(p: seq<string>, line: string, startTag: string, endTag: string)
    ensures var st := RangeScan(p, startTag, endTag);
      var add := st.add || Contains(line, startTag);
      RangeScan(p + [line], startTag, endTag) == RangeState(add && !Contains(line, endTag), st.out + (if add then [line] else []))
  {
    assert (p + [line])[..|p|] == p;
  }
}
