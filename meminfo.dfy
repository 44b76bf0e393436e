/**
 * The memory line of the system snapshot: `get_memory_info` scans the text
 * of /proc/meminfo line by line, keeps the last "MemTotal" and "MemFree"
 * figures converted from kB to MB, and reports "{free}MB free / {total}MB
 * total", or "Unknown" when anything raises.
 *
 * `Scan` is the specification, a left fold of `Step` over the lines;
 * `GetMemoryInfo` is the loop as the program runs it, proved to agree
 * with it; the lemmas state what the fold computes.
 */
module MemInfo {
  import opened Wrappers
  import opened PyStr

  /** The placeholder reported whenever reading or parsing raises. */
  const Unknown: string := "Unknown"

  /** The two running figures, in MB. */
  datatype Figures = Figures(total: int, free: int)

  /** Which figure a line updates, by the `if` / `elif` on its text. */
  datatype Field = Total | Free | Neither

  function Classify(line: string): Field {
    if Contains(line, "MemTotal") then Total
    else if Contains(line, "MemFree") then Free
    else Neither
  }

  function Get(f: Figures, k: Field): int
    requires k != Neither
  {
    if k == Total then f.total else f.free
  }

  /** Python's `kb // 1024`: the floor of kb / 1024, for negative kb too. */
  function KbToMb(kb: int): (mb: int)
    ensures mb * 1024 <= kb < mb * 1024 + 1024
  {
    kb / 1024
  }

  /**
   * `int(line.split()[1]) // 1024`; `None` where Python raises IndexError
   * (fewer than two tokens) or ValueError (the token is not an integer).
   */
  function LineValue(line: string): Option<int> {
    var words := Words(line);
    if |words| < 2 then None
    else match ParseInt(words[1])
      case None => None
      case Some(kb) => Some(KbToMb(kb))
  }

  /** A line that the `if` / `elif` selects but whose figure cannot be read. */
  predicate LineFails(line: string) {
    Classify(line) != Neither && LineValue(line).None?
  }

  /** One pass of the loop body; `None` once something has raised. */
  function Step(acc: Option<Figures>, line: string): Option<Figures> {
    match acc
    case None => None
    case Some(f) =>
      match Classify(line)
      case Neither => acc
      case Total => if LineValue(line).None? then None else Some(f.(total := LineValue(line).value))
      case Free => if LineValue(line).None? then None else Some(f.(free := LineValue(line).value))
  }

  /** The loop over `lines` from `total = 0`, `free = 0`: a left fold of `Step`. */
  function Scan(lines: seq<string>): Option<Figures>
    decreases |lines|
  {
    if |lines| == 0 then Some(Figures(0, 0))
    else Step(Scan(lines[..|lines| - 1]), lines[|lines| - 1])
  }

  /** The f-string on the success path. */
  function Report(free: int, total: int): string {
    IntToString(free) + "MB free / " + IntToString(total) + "MB total"
  }

  /** `get_memory_info()`, given what reading /proc/meminfo produced (`None`: open or read raised). */
  function MemoryInfo(contents: Option<string>): string {
    match contents
    case None => Unknown
    case Some(text) =>
      match Scan(Split(text, '\n'))
      case None => Unknown
      case Some(f) => Report(f.free, f.total)
  }

  // ---------------------------------------------------------------------
  // The loop, as the program runs it

  lemma ScanAppend(lines: seq<string>, line: string)
    ensures Scan(lines + [line]) == Step(Scan(lines), line)
  {
    assert (lines + [line])[..|lines|] == lines;
  }

  /** The loop of `get_memory_info`, leaving it through "Unknown" on the first failure. */
  method GetMemoryInfo(contents: Option<string>) returns (report: string)
    ensures report == MemoryInfo(contents)
  {
    if contents.None? {
      return Unknown;
    }
    var lines := Split(contents.value, '\n');
    var total, free := 0, 0;
    for i := 0 to |lines|
      invariant Scan(lines[..i]) == Some(Figures(total, free))
    {
      var line := lines[i];
      assert lines[..i + 1] == lines[..i] + [line];
      ScanAppend(lines[..i], line);
      if Contains(line, "MemTotal") {
        var words := Words(line);
        if |words| < 2 {
          FailureSticks(lines, i + 1);
          return Unknown;
        }
        var kb := ParseInt(words[1]);
        if kb.None? {
          FailureSticks(lines, i + 1);
          return Unknown;
        }
        total := kb.value / 1024;
      } else if Contains(line, "MemFree") {
        var words := Words(line);
        if |words| < 2 {
          FailureSticks(lines, i + 1);
          return Unknown;
        }
        var kb := ParseInt(words[1]);
        if kb.None? {
          FailureSticks(lines, i + 1);
          return Unknown;
        }
        free := kb.value / 1024;
      }
    }
    assert lines[..|lines|] == lines;
    report := Report(free, total);
  }

  // ---------------------------------------------------------------------
  // What the fold computes

  ghost predicate AnyFails(lines: seq<string>) {
    exists i :: 0 <= i < |lines| && LineFails(lines[i])
  }

  /** The result is a failure exactly when some selected line cannot be read. */
  lemma {:induction false} ScanFailsIff(lines: seq<string>)
    ensures Scan(lines).None? <==> AnyFails(lines)
    decreases |lines|
  {
    if |lines| > 0 {
      var init, last := lines[..|lines| - 1], lines[|lines| - 1];
      ScanFailsIff(init);
      if AnyFails(init) {
        var i :| 0 <= i < |init| && LineFails(init[i]);
        assert lines[i] == init[i];
      } else if LineFails(last) {
        assert LineFails(lines[|lines| - 1]);
      } else {
        forall i | 0 <= i < |lines| ensures !LineFails(lines[i]) {
          if i < |init| { assert lines[i] == init[i]; }
        }
      }
    }
  }

  /** Once a prefix of the lines has failed, so has the whole scan. */
  lemma FailureSticks(lines: seq<string>, n: int)
    requires 0 <= n <= |lines| && Scan(lines[..n]).None?
    ensures Scan(lines).None?
  {
    ScanFailsIff(lines[..n]);
    ScanFailsIff(lines);
    var i :| 0 <= i < n && LineFails(lines[..n][i]);
    assert lines[i] == lines[..n][i];
  }

  /** Line `j` is the last one that the `if` / `elif` sends to field `k`. */
  ghost predicate IsLastOf(lines: seq<string>, k: Field, j: int) {
    0 <= j < |lines| && Classify(lines[j]) == k &&
    forall i :: j < i < |lines| ==> Classify(lines[i]) != k
  }

  /** Last match wins: a figure is the one read from the last line selected for it. */
  lemma {:induction false} LastMatchWins(lines: seq<string>, k: Field, j: int)
    requires k != Neither && Scan(lines).Some? && IsLastOf(lines, k, j)
    ensures LineValue(lines[j]) == Some(Get(Scan(lines).value, k))
    decreases |lines|
  {
    var init, last := lines[..|lines| - 1], lines[|lines| - 1];
    if j < |lines| - 1 {
      assert Classify(last) != k;
      assert init[j] == lines[j];
      assert IsLastOf(init, k, j) by {
        forall i | j < i < |init| ensures Classify(init[i]) != k {
          assert init[i] == lines[i];
        }
      }
      LastMatchWins(init, k, j);
    }
  }

  /** A figure that no line is selected for keeps its initial 0. */
  lemma {:induction false} UnmatchedIsZero(lines: seq<string>, k: Field)
    requires k != Neither && Scan(lines).Some?
    requires forall i :: 0 <= i < |lines| ==> Classify(lines[i]) != k
    ensures Get(Scan(lines).value, k) == 0
    decreases |lines|
  {
    if |lines| > 0 {
      var init := lines[..|lines| - 1];
      assert Classify(lines[|lines| - 1]) != k;
      forall i | 0 <= i < |init| ensures Classify(init[i]) != k {
        assert init[i] == lines[i];
      }
      UnmatchedIsZero(init, k);
    }
  }

  /**
   * A line containing "MemTotal" only ever sets the total, even when it
   * also contains "MemFree": the free figure is left as it was.
   */
  lemma TotalLineKeepsFree(lines: seq<string>, line: string)
    requires Contains(line, "MemTotal")
    ensures Scan(lines + [line]) ==
      if Scan(lines).None? || LineValue(line).None? then None
      else Some(Figures(LineValue(line).value, Scan(lines).value.free))
  {
    ScanAppend(lines, line);
  }

  /** A line containing neither keyword can be dropped without changing the result. */
  lemma {:induction false} IrrelevantLine(pre: seq<string>, line: string, post: seq<string>)
    requires Classify(line) == Neither
    ensures Scan(pre + [line] + post) == Scan(pre + post)
    decreases |post|
  {
    if |post| == 0 {
      assert pre + [line] + post == pre + [line];
      assert pre + post == pre;
      ScanAppend(pre, line);
    } else {
      var init, last := post[..|post| - 1], post[|post| - 1];
      IrrelevantLine(pre, line, init);
      assert pre + [line] + post == (pre + [line] + init) + [last];
      assert pre + post == (pre + init) + [last];
      ScanAppend(pre + [line] + init, last);
      ScanAppend(pre + init, last);
    }
  }

  // ---------------------------------------------------------------------
  // The report

  /** The report names its two figures unambiguously: equal reports, equal figures. */
  lemma ReportDeterminesFigures(free1: int, total1: int, free2: int, total2: int)
    requires Report(free1, total1) == Report(free2, total2)
    ensures free1 == free2 && total1 == total2
  {
    var f1, f2, t1, t2 := IntToString(free1), IntToString(free2), IntToString(total1), IntToString(total2);
    var mid, tail := "MB free / ", "MB total";
    assert mid[0] == 'M';
    NoLetterInNumber(free1, 'M');
    NoLetterInNumber(free2, 'M');
    AppendAssoc(f1 + mid, t1, tail);
    AppendAssoc(f2 + mid, t2, tail);
    CutAt(f1, mid, t1 + tail, f2, t2 + tail);
    DropSuffix(t1, t2, tail);
    IntToStringInjective(free1, free2);
    IntToStringInjective(total1, total2);
  }

  /** A report of figures is never the placeholder. */
  lemma ReportIsNotUnknown(free: int, total: int)
    ensures Report(free, total) != Unknown
  {
    var r := Report(free, total);
    IntToStringChars(free, 0);
    assert r[0] == IntToString(free)[0];
  }

  /** The report is a single line. */
  lemma ReportHasNoNewline(free: int, total: int)
    ensures '\n' !in Report(free, total)
  {
    NoLetterInNumber(free, '\n');
    NoLetterInNumber(total, '\n');
  }

  /** The memory text is always a single line, whatever the input. */
  lemma MemoryInfoHasNoNewline(contents: Option<string>)
    ensures '\n' !in MemoryInfo(contents)
  {
    if contents.Some? && Scan(Split(contents.value, '\n')).Some? {
      var f := Scan(Split(contents.value, '\n')).value;
      ReportHasNoNewline(f.free, f.total);
    }
  }

  /**
   * All or nothing: the result is "Unknown" exactly when the file could not
   * be read or some selected line has no readable figure; otherwise it is
   * the report of the scanned figures.
   */
  lemma MemoryInfoUnknownIff(contents: Option<string>)
    ensures MemoryInfo(contents) == Unknown <==>
      contents.None? || AnyFails(Split(contents.value, '\n'))
  {
    if contents.Some? {
      var lines := Split(contents.value, '\n');
      ScanFailsIff(lines);
      if Scan(lines).Some? {
        ReportIsNotUnknown(Scan(lines).value.free, Scan(lines).value.total);
      }
    }
  }

  lemma ThreeWords(w1: string, sp1: string, w2: string, sp2: string, w3: string)
    requires w1 != "" && NoSpace(w1) && w2 != "" && NoSpace(w2) && w3 != "" && NoSpace(w3)
    requires sp1 != "" && AllSpace(sp1) && sp2 != "" && AllSpace(sp2)
    ensures Words(w1 + sp1 + w2 + sp2 + w3) == [w1, w2, w3]
  {
    AppendAssoc(w1 + sp1 + w2, sp2, w3);
    AppendAssoc(w1 + sp1, w2, sp2 + w3);
    AppendAssoc(w1, sp1, w2 + (sp2 + w3));
    WordsTakeWord(w1, sp1 + (w2 + (sp2 + w3)));
    WordsSkipSpace(sp1, w2 + (sp2 + w3));
    WordsTakeWord(w2, sp2 + w3);
    WordsSkipSpace(sp2, w3);
    WordsTakeWord(w3, "");
    assert w3 + "" == w3;
  }

  lemma MeminfoLineWords(key: string, pad: string, digits: string)
    requires key != "" && NoSpace(key)
    requires pad != "" && AllSpace(pad)
    requires digits != "" && NoSpace(digits)
    ensures Words(key + pad + digits + " kB") == [key, digits, "kB"]
  {
    var kB := "kB";
    var sp := " ";
    assert " kB" == sp + kB;
    AppendAssoc(key + pad + digits, sp, kB);
    ThreeWords(key, pad, digits, sp, kB);
  }

  /**
   * A line laid out as /proc/meminfo lays it out, a key, padding, the
   * figure and "kB", yields the figure floor-divided by 1024.
   */
  lemma WellFormedLine(key: string, pad: string, kb: int)
    requires key != "" && NoSpace(key)
    requires pad != "" && AllSpace(pad)
    ensures LineValue(key + pad + IntToString(kb) + " kB") == Some(kb / 1024)
  {
    IntToStringNoSpace(kb);
    MeminfoLineWords(key, pad, IntToString(kb));
    ParseIntToString(kb);
  }

  lemma TotalLineClassified(pad: string, kb: int)
    ensures Classify("MemTotal:" + pad + IntToString(kb) + " kB") == Total
  {
    var line := "MemTotal:" + pad + IntToString(kb) + " kB";
    assert line[..8] == "MemTotal";
    StartsWithContains(line, "MemTotal");
  }

  lemma FreeLineClassified(pad: string, kb: int)
    requires AllSpace(pad)
    ensures Classify("MemFree:" + pad + IntToString(kb) + " kB") == Free
  {
    var line := "MemFree:" + pad + IntToString(kb) + " kB";
    NoLetterInNumber(kb, 'T');
    NoLetterInPadding(pad, 'T');
    assert 'T' !in line;
    ContainedChars(line, "MemTotal", 3);
    assert line[..7] == "MemFree";
    StartsWithContains(line, "MemFree");
  }

  lemma SplitTwoLines(l1: string, l2: string)
    requires '\n' !in l1 && '\n' !in l2
    ensures Split(l1 + "\n" + l2, '\n') == [l1, l2]
  {
    assert l1 + "\n" + l2 == Join([l1, l2], "\n");
    SplitJoin([l1, l2], '\n');
  }

  lemma ScanTwoLines(l1: string, l2: string)
    ensures Scan([l1, l2]) == Step(Step(Some(Figures(0, 0)), l1), l2)
  {
    ScanAppend([], l1);
    ScanAppend([l1], l2);
    assert [l1] + [l2] == [l1, l2];
  }

  lemma ScanTotalThenFreeLine(l1: string, l2: string, total: int, free: int)
    requires Classify(l1) == Total && LineValue(l1) == Some(total)
    requires Classify(l2) == Free && LineValue(l2) == Some(free)
    ensures Scan([l1, l2]) == Some(Figures(total, free))
  {
    ScanTwoLines(l1, l2);
  }

  lemma TotalLine(pad: string, kb: int)
    requires pad != "" && AllSpace(pad)
    ensures Classify("MemTotal:" + pad + IntToString(kb) + " kB") == Total
    ensures LineValue("MemTotal:" + pad + IntToString(kb) + " kB") == Some(kb / 1024)
  {
    TotalLineClassified(pad, kb);
    WellFormedLine("MemTotal:", pad, kb);
  }

  lemma FreeLine(pad: string, kb: int)
    requires pad != "" && AllSpace(pad)
    ensures Classify("MemFree:" + pad + IntToString(kb) + " kB") == Free
    ensures LineValue("MemFree:" + pad + IntToString(kb) + " kB") == Some(kb / 1024)
  {
    FreeLineClassified(pad, kb);
    WellFormedLine("MemFree:", pad, kb);
  }

  lemma ScanTotalThenFree(totalKb: int, freeKb: int, pad1: string, pad2: string)
    requires pad1 != "" && AllSpace(pad1)
    requires pad2 != "" && AllSpace(pad2)
    ensures Scan(["MemTotal:" + pad1 + IntToString(totalKb) + " kB", "MemFree:" + pad2 + IntToString(freeKb) + " kB"])
         == Some(Figures(totalKb / 1024, freeKb / 1024))
  {
    TotalLine(pad1, totalKb);
    FreeLine(pad2, freeKb);
    ScanTotalThenFreeLine("MemTotal:" + pad1 + IntToString(totalKb) + " kB",
                          "MemFree:" + pad2 + IntToString(freeKb) + " kB",
                          totalKb / 1024, freeKb / 1024);
  }

  lemma ReportOfTwoLines(l1: string, l2: string, f: Figures)
    requires '\n' !in l1 && '\n' !in l2
    requires Scan([l1, l2]) == Some(f)
    ensures MemoryInfo(Some(l1 + "\n" + l2)) == Report(f.free, f.total)
  {
    SplitTwoLines(l1, l2);
  }

  /**
   * The report for a file holding a "MemTotal" line and then a "MemFree"
   * line, each laid out as /proc/meminfo lays it out: free first, then
   * total, each the kB figure floor-divided by 1024.
   */
  lemma TwoLineReport(totalKb: int, freeKb: int, pad1: string, pad2: string)
    requires pad1 != "" && AllSpace(pad1) && '\n' !in pad1
    requires pad2 != "" && AllSpace(pad2) && '\n' !in pad2
    ensures MemoryInfo(Some(("MemTotal:" + pad1 + IntToString(totalKb) + " kB") + "\n" +
                            ("MemFree:" + pad2 + IntToString(freeKb) + " kB")))
         == Report(freeKb / 1024, totalKb / 1024)
  {
    var l1 := "MemTotal:" + pad1 + IntToString(totalKb) + " kB";
    var l2 := "MemFree:" + pad2 + IntToString(freeKb) + " kB";
    assert '\n' !in l1 && '\n' !in l2 by {
      NoLetterInNumber(totalKb, '\n');
      NoLetterInNumber(freeKb, '\n');
    }
    ScanTotalThenFree(totalKb, freeKb, pad1, pad2);
    ReportOfTwoLines(l1, l2, Figures(totalKb / 1024, freeKb / 1024));
  }

  // The printed figures of the worked example, each in a lemma of its own
  // so that evaluating a literal number stays a small proof obligation.

  lemma ExampleDigits()
    ensures IntToString(500) == "500" && IntToString(2000) == "2000"
  {
  }

  lemma ExampleTotalDigits()
    ensures IntToString(2048000) == "2048000"
  {
  }

  lemma ExampleFreeDigits()
    ensures IntToString(512000) == "512000"
  {
  }

  lemma ExampleFigures()
    ensures Report(512000 / 1024, 2048000 / 1024) == "500MB free / 2000MB total"
  {
    ExampleDigits();
    assert "500" + "MB free / " == "500MB free / ";
    assert "500MB free / " + "2000" == "500MB free / 2000";
    assert "500MB free / 2000" + "MB total" == "500MB free / 2000MB total";
  }

  /**
   * The worked example, 2048000 kB total and 512000 kB free, with the
   * figures padded to any column (a single space, or the alignment the
   * kernel uses).
   */
  lemma ExampleReport(pad1: string, pad2: string)
    requires pad1 != "" && AllSpace(pad1) && '\n' !in pad1
    requires pad2 != "" && AllSpace(pad2) && '\n' !in pad2
    ensures MemoryInfo(Some(("MemTotal:" + pad1 + "2048000" + " kB") + "\n" + ("MemFree:" + pad2 + "512000" + " kB")))
         == "500MB free / 2000MB total"
  {
    ExampleTotalDigits();
    ExampleFreeDigits();
    TwoLineReport(2048000, 512000, pad1, pad2);
    ExampleFigures();
  }
}
