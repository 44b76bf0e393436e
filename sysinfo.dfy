/**
 * `get_system_info`: the eight-line system snapshot shown in the window.
 * The host facts that the program asks the platform, the clock and the
 * environment for are inputs here.
 */
module SystemInfo {
  import opened Wrappers
  import opened PyStr
  import MemInfo

  /**
   * What the program learns from the host: `platform.python_version()`,
   * `platform.system()`, `platform.release()`, `platform.machine()`, the
   * formatted `datetime.now()`, `platform.node()`, and the USER variable
   * (`None` when it is unset).
   */
  datatype Host = Host(
    pythonVersion: string,
    system: string,
    release: string,
    machine: string,
    time: string,
    hostname: string,
    user: Option<string>)

  /** The processor line is fixed text, whatever the host. */
  const Processor: string := "ARM Cortex-A53 (64-bit)"

  /** `os.getenv('USER', 'user')`: the variable's value, "user" when unset (an empty value is kept). */
  function UserName(user: Option<string>): string {
    user.GetOr("user")
  }

  /** The snapshot's lines, in the order the program appends them. */
  function SnapshotLines(h: Host, memory: string): seq<string> {
    [ "Python Version: " + h.pythonVersion,
      "System: " + h.system + " " + h.release,
      "Architecture: " + h.machine,
      "Processor: " + Processor,
      "Memory: " + memory,
      "Time: " + h.time,
      "Hostname: " + h.hostname,
      "Username: " + UserName(h.user) ]
  }

  /** No host fact spans more than one line. */
  predicate SingleLineFacts(h: Host) {
    && '\n' !in h.pythonVersion && '\n' !in h.system && '\n' !in h.release
    && '\n' !in h.machine && '\n' !in h.time && '\n' !in h.hostname
    && '\n' !in UserName(h.user)
  }

  /**
   * The body of `get_system_info()` once the memory report is known: the
   * list is built line by line and joined with newlines. When neither a
   * host fact nor the report holds a newline, the text splits back into
   * exactly the eight labelled lines.
   */
  method AssembleSnapshot(h: Host, memory: string) returns (text: string)
    ensures text == Join(SnapshotLines(h, memory), "\n")
    ensures SingleLineFacts(h) && '\n' !in memory ==> Split(text, '\n') == SnapshotLines(h, memory)
  {
    var info: seq<string> := [];
    info := info + ["Python Version: " + h.pythonVersion];
    info := info + ["System: " + h.system + " " + h.release];
    info := info + ["Architecture: " + h.machine];
    info := info + ["Processor: " + Processor];
    info := info + ["Memory: " + memory];
    info := info + ["Time: " + h.time];
    info := info + ["Hostname: " + h.hostname];
    info := info + ["Username: " + UserName(h.user)];
    assert info == SnapshotLines(h, memory);
    text := Join(info, "\n");
    if SingleLineFacts(h) && '\n' !in memory {
      SnapshotSplits(h, memory);
    }
  }

  /**
   * `get_system_info()`: the memory report fills the fifth line, and the
   * text always splits back into the eight labelled lines when no host
   * fact holds a newline, since the report never does.
   */
  method GetSystemInfo(h: Host, meminfo: Option<string>) returns (text: string)
    ensures text == Join(SnapshotLines(h, MemInfo.MemoryInfo(meminfo)), "\n")
    ensures SingleLineFacts(h) ==> Split(text, '\n') == SnapshotLines(h, MemInfo.MemoryInfo(meminfo))
  {
    var memory := MemInfo.GetMemoryInfo(meminfo);
    MemInfo.MemoryInfoHasNoNewline(meminfo);
    text := AssembleSnapshot(h, memory);
  }

  lemma EightSingleLines(lines: seq<string>)
    requires |lines| == 8
    requires '\n' !in lines[0] && '\n' !in lines[1] && '\n' !in lines[2] && '\n' !in lines[3]
    requires '\n' !in lines[4] && '\n' !in lines[5] && '\n' !in lines[6] && '\n' !in lines[7]
    ensures forall i :: 0 <= i < |lines| ==> '\n' !in lines[i]
  {
    forall i | 0 <= i < |lines| ensures '\n' !in lines[i] {
      if i < 4 {
        assert i == 0 || i == 1 || i == 2 || i == 3;
      } else {
        assert i == 4 || i == 5 || i == 6 || i == 7;
      }
    }
  }

  // Single-line facts, one per line or per group of labels: stated apart
  // so that each proof obligation about the literal labels stays small.

  lemma SingleLine(lbl: string, value: string)
    requires '\n' !in lbl && '\n' !in value
    ensures '\n' !in lbl + value
  {
  }

  lemma HeadLabelsSingleLine()
    ensures '\n' !in "Python Version: " && '\n' !in "System: " && '\n' !in " "
    ensures '\n' !in "Architecture: " && '\n' !in "Processor: "
  {
  }

  lemma TailLabelsSingleLine()
    ensures '\n' !in Processor && '\n' !in "Memory: " && '\n' !in "Time: "
    ensures '\n' !in "Hostname: " && '\n' !in "Username: "
  {
  }

  /** Each snapshot line is a single line when no fact holds a newline. */
  lemma SnapshotLinesSingle(h: Host, memory: string)
    requires SingleLineFacts(h) && '\n' !in memory
    ensures forall i :: 0 <= i < |SnapshotLines(h, memory)| ==> '\n' !in SnapshotLines(h, memory)[i]
  {
    var lines := SnapshotLines(h, memory);
    HeadLabelsSingleLine();
    TailLabelsSingleLine();
    SingleLine("Python Version: ", h.pythonVersion);
    SingleLine("System: " + h.system, " ");
    SingleLine("System: " + h.system + " ", h.release);
    SingleLine("Architecture: ", h.machine);
    SingleLine("Processor: ", Processor);
    SingleLine("Memory: ", memory);
    SingleLine("Time: ", h.time);
    SingleLine("Hostname: ", h.hostname);
    SingleLine("Username: ", UserName(h.user));
    EightSingleLines(lines);
  }

  /**
   * The joined snapshot splits back into its eight lines when neither a
   * host fact nor the memory report holds a newline.
   */
  lemma SnapshotSplits(h: Host, memory: string)
    requires SingleLineFacts(h) && '\n' !in memory
    ensures Split(Join(SnapshotLines(h, memory), "\n"), '\n') == SnapshotLines(h, memory)
  {
    SnapshotLinesSingle(h, memory);
    SplitJoin(SnapshotLines(h, memory), '\n');
  }

  /** The labels that open the snapshot's lines, in order. */
  const Labels: seq<string> := [
    "Python Version: ", "System: ", "Architecture: ", "Processor: ",
    "Memory: ", "Time: ", "Hostname: ", "Username: "]

  lemma LabelOpensLine(lbl: string, rest: string)
    ensures StartsWith(lbl + rest, lbl)
  {
    assert (lbl + rest)[..|lbl|] == lbl;
  }

  /**
   * The snapshot has eight lines, each opened by its label in the fixed
   * order; the fourth is the fixed processor line and the fifth "Memory: "
   * and the memory report.
   */
  lemma LinesLabelled(h: Host, memory: string)
    ensures |SnapshotLines(h, memory)| == |Labels| == 8
    ensures SnapshotLines(h, memory)[4] == "Memory: " + memory
    ensures forall i :: 0 <= i < |Labels| ==> StartsWith(SnapshotLines(h, memory)[i], Labels[i])
  {
    LabelOpensLine("Python Version: ", h.pythonVersion);
    LabelOpensLine("System: ", h.system + " " + h.release);
    AppendAssoc("System: " + h.system, " ", h.release);
    AppendAssoc("System: ", h.system, " " + h.release);
    LabelOpensLine("Architecture: ", h.machine);
    LabelOpensLine("Processor: ", Processor);
    LabelOpensLine("Memory: ", memory);
    LabelOpensLine("Time: ", h.time);
    LabelOpensLine("Hostname: ", h.hostname);
    LabelOpensLine("Username: ", UserName(h.user));
  }

  /** The fourth line is the same fixed text on every host. */
  lemma ProcessorLine(h: Host, memory: string)
    ensures SnapshotLines(h, memory)[3] == "Processor: ARM Cortex-A53 (64-bit)"
  {
  }
}
