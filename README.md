# First-boot system snapshot: the memory report and the snapshot text

The first-boot application of the CoreARM image shows an eight-line system
snapshot in its window and refreshes it every second. Two nested helpers in
`rootfs/home/user/main.py` hold all of its logic:

- `get_memory_info` reads `/proc/meminfo` and splits it on `'\n'`. Each line
  that contains `MemTotal`, or else `MemFree`, sets that figure. The figure
  is the second whitespace-separated token, read with `int()` and
  floor-divided by 1024 to turn kB into MB. Both figures start at 0. The
  helper returns `"{free}MB free / {total}MB total"`, or `"Unknown"` when
  anything raises.
- `get_system_info` appends eight labelled lines to a list and joins them
  with newlines. The fifth line is `"Memory: "` followed by the memory report.

The model lifts both helpers to top level. It is four modules:

- `Wrappers` holds `Option`.
- `PyStr` models the parts of Python's `str` and `int` that the helpers use:
  - `s.split('\n')` (`Split`);
  - `sub in s` (`Contains`);
  - `s.split()` (`Words`, which splits on the `str.isspace()` characters);
  - `int(s)` (`ParseInt`; an operation that raises returns `None`). The
    whitespace `int()` skips is the `str.isspace()` set without the ASCII
    separators U+001C to U+001F;
  - `str(n)` (`IntToString`);
  - `"\n".join` (`Join`).
- `MemInfo` models `get_memory_info`:
  - `Scan` is a left fold of `Step` over the lines and serves as the
    specification.
  - `GetMemoryInfo` is the loop as the program runs it: it reassigns `total`
    and `free` and leaves with `"Unknown"` on the first failure. It is proved
    equal to `MemoryInfo`, the function built on `Scan`.
  - Lemmas state what the fold computes: last match wins, an unmatched
    figure stays 0, `if`/`elif` precedence, irrelevant lines, all-or-nothing
    failure, and the worked example.
- `SystemInfo` models `get_system_info`:
  - The host facts are a `Host` value: the Python version, system, release,
    machine, formatted time, hostname and the USER variable.
  - `GetSystemInfo` calls `GetMemoryInfo`. `AssembleSnapshot` then builds the
    list by appends and joins it.

The file's contents are an `Option<string>` input. `None` means that opening
or reading `/proc/meminfo` raised.

The model follows the code exactly on these points:

- A line is selected by substring, not by its key. A line holding both
  keywords sets only the total.
- The last selected line wins.
- A negative figure floors towards minus infinity.
- `os.getenv('USER', 'user')` keeps an empty value rather than replacing it.

## Model

| member | source | states |
|---|---|---|
| PyStr.Split | rootfs/home/user/main.py:75 | `meminfo.split('\n')` always yields at least one piece, and no piece contains the separator |
| PyStr.JoinSplit | rootfs/home/user/main.py:75 | joining the pieces of `split('\n')` with the separator gives back the whole text, so no character is lost or reordered |
| PyStr.SplitJoin | rootfs/home/user/main.py:65 | splitting a `"\n".join` of parts that hold no newline gives back exactly those parts |
| PyStr.ContainsIff | rootfs/home/user/main.py:76 | `sub in s` holds exactly when `sub` occurs at some position of `s`, in both directions |
| PyStr.Words | rootfs/home/user/main.py:77 | `line.split()` yields only nonempty tokens that hold no whitespace, and yields nothing exactly when the line is all whitespace |
| PyStr.WordsJoin | rootfs/home/user/main.py:77 | `split()` of whitespace-free words joined by single spaces gives back those words in order |
| PyStr.ParseIntToString | rootfs/home/user/main.py:77 | `int()` reads back every number that `str()` prints, sign included |
| PyStr.ParseIntRejectsSeparator | rootfs/home/user/main.py:77 | `int()` does not skip the separators U+001C to U+001F that `split()` treats as whitespace: a number followed by one raises ValueError |
| PyStr.IntToStringInjective | rootfs/home/user/main.py:81 | two different figures are never printed as the same text |
| PyStr.NatToString | rootfs/home/user/main.py:81 | a printed figure is decimal digits only, with no leading zero |
| MemInfo.KbToMb | rootfs/home/user/main.py:77 | `kb // 1024` is the floor of kb/1024: mb*1024 <= kb < mb*1024+1024, negative kb included |
| MemInfo.GetMemoryInfo | rootfs/home/user/main.py:67-83 | the loop that reassigns total and free and leaves on the first failure returns the fold's report, or "Unknown" when the file could not be read |
| MemInfo.ScanFailsIff | rootfs/home/user/main.py:75-79 | the scan fails exactly when some line selected by the if/elif has fewer than two tokens or a second token that int() rejects |
| MemInfo.FailureSticks | rootfs/home/user/main.py:77-83 | once a prefix of the lines fails, the whole scan fails: figures read earlier are discarded |
| MemInfo.LastMatchWins | rootfs/home/user/main.py:75-79 | each reported figure is the value read from the last line selected for it |
| MemInfo.UnmatchedIsZero | rootfs/home/user/main.py:73-74 | a figure that no line is selected for is reported as its initial 0 |
| MemInfo.TotalLineKeepsFree | rootfs/home/user/main.py:76-79 | a line containing "MemTotal" sets only the total and leaves free unchanged, even when it also contains "MemFree" |
| MemInfo.IrrelevantLine | rootfs/home/user/main.py:75-79 | a line containing neither keyword can be removed from anywhere in the file without changing the result |
| MemInfo.ReportDeterminesFigures | rootfs/home/user/main.py:81 | equal reports have equal figures: free comes first and total second, with no ambiguity |
| MemInfo.ReportIsNotUnknown | rootfs/home/user/main.py:81-83 | a successful report is never the "Unknown" placeholder |
| MemInfo.MemoryInfoHasNoNewline | rootfs/home/user/main.py:81-83 | the memory text is a single line whatever the file holds |
| MemInfo.MemoryInfoUnknownIff | rootfs/home/user/main.py:69-83 | the result is "Unknown" exactly when the file cannot be read or some selected line has no readable figure |
| MemInfo.WellFormedLine | rootfs/home/user/main.py:77 | a line "key, whitespace padding, figure, kB" yields that figure floor-divided by 1024 |
| MemInfo.TwoLineReport | rootfs/home/user/main.py:73-81 | a MemTotal line followed by a MemFree line gives the report of free//1024 then total//1024, for any figures and any padding |
| MemInfo.ExampleReport | rootfs/home/user/main.py:67-83 | "MemTotal: 2048000 kB" then "MemFree: 512000 kB", with any whitespace padding, gives "500MB free / 2000MB total" |
| SystemInfo.AssembleSnapshot | rootfs/home/user/main.py:56-65 | the eight appends joined with "\n" are the snapshot lines, which split back out one by one when no fact holds a newline |
| SystemInfo.GetSystemInfo | rootfs/home/user/main.py:54-65 | the text is the eight snapshot lines joined by "\n", with the memory report in the fifth, and it splits back into exactly those lines when no host fact holds a newline |
| SystemInfo.SnapshotSplits | rootfs/home/user/main.py:65 | when no fact holds a newline, splitting the joined snapshot on "\n" yields exactly the eight lines |
| SystemInfo.LinesLabelled | rootfs/home/user/main.py:57-64 | there are exactly eight lines, each opened by its label in the fixed order, and the fifth is "Memory: " followed by the memory report |
| SystemInfo.ProcessorLine | rootfs/home/user/main.py:60 | the fourth line is "Processor: ARM Cortex-A53 (64-bit)" on every host |

## Left out

- The Tk and PyQt window construction, layout, styling and centring (main.py:20-52, 91-136, 142-175) are user-interface code.
- The one-second `root.after` refresh (main.py:85-89) is an event-loop timer. Each refresh recomputes the snapshot from scratch, which is what `GetSystemInfo` models.
- `run_command` and the buttons (main.py:95-118) are shell subprocesses and a modal dialog.
- The import-based GUI/console fallback and the console sleep loop (main.py:139-201) are left out. They are capability probing and blocking I/O.
- The `DISPLAY` default (main.py:17-18) is a side effect on the process environment.
- `platform.*`, `datetime.now().strftime(...)` and `os.getenv` are inputs: the `Host` fields. Opening and reading `/proc/meminfo` is an input too: the `Option<string>` contents.
- Text decoding and universal-newline translation happen while reading the file. The model starts from the text that `f.read()` returns.
- PyStr.ParseInt: non-ASCII decimal digits, which `int()` also accepts, are not modelled. Neither is the 4300-digit limit above which recent Python versions raise ValueError. Both are far from what `/proc/meminfo` holds.
- The bare `except:` also catches exceptions that do not depend on the input, such as MemoryError and KeyboardInterrupt. Only the failures that the input decides are modelled: open or read failing, a missing token (IndexError) and a rejected integer (ValueError).
