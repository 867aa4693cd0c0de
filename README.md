# ChampSim result harness: parser, collector and series aligner

This project models the deterministic core of `tasks/task1/my_utils.py`, a
small harness around the ChampSim simulator. It has three parts.

- **Output parser** (`listRightIndex`, `parse_champsim_output`).
  - One run's standard output is split into whitespace tokens.
  - Four label tokens are located: `MPKI:`, `BRANCH_CONDITIONAL:` and
    `cpu0_L2C` by their first occurrence, `IPC:` by its last occurrence.
  - The token after `cpu0_L2C` must be `TOTAL`.
  - Five tokens at fixed offsets from the labels are converted with
    `float`, giving the record (IPC, total MPKI, branch-conditional MPKI,
    L2 accesses, L2 hits).
- **Collector** (the loop of `obtain_perf_metrics`). The finished runs are
  drained in submission order. Each run's stdout is parsed and stored in a
  dict under the base name of its trace. The first exception, from the
  launcher or from the parser, escapes and ends the collection.
- **Series aligner** (the data part of `plot_metric`).
  - The test names are the first table's keys, in insertion order.
  - Every table gives one row: its records' field `metric_id` for those
    names, in that order.
  - A missing test raises KeyError and a bad tuple index raises IndexError.

Modules:
- `Outcomes`: an `Option` and a `Result` type, plus the Python exceptions
  the core can raise (`Error`).
- `PyBuiltins`: the Python built-ins the core relies on.
  - `list.index` and slice reversal.
  - `str.split()` with Python's whitespace set.
  - Indexing with negative indices.
  - `os.path.basename` for `/`-separated paths.
- `MetricsTable`: a dict, a key sequence in insertion order beside a map.
  Assigning to a present key keeps its position, as Python dicts do.
- `ChampsimParser`: the parser, split into the stages Python runs in order.
  `Locate` finds the labels, `CheckTotal` runs the `assert`, and
  `ReadFields` does the five conversions.
- `PerfMetrics`: the sequential collection method `ObtainPerfMetrics`.
  - It is proved equal to the fold `Collect`.
  - Lemmas about `Collect` cover fail-fast, keys and overwrites.
- `PlotMetric`: the aligner method `PlotMetricSeries`. It is proved
  against the per-table function `Column`.

`float(...)` is a parameter `float: string -> Option<N>` over an arbitrary
number type `N`, where `None` is the ValueError Python raises. Every
property holds for any such conversion. Errors come out in Python's
evaluation order: the first failing lookup, index or conversion decides
the exception.

Three facts about `my_utils.py` shape the model:
- The table's keys come in submission order. The loop drains
  `running_tasks` in the order the runs were submitted, whatever order
  they finish in (`CollectKeys`).
- Only a launcher failure names its trace: its `CalledProcessError`
  carries the command line. A parse failure's ValueError names only the
  missing label or the token that is not a number. Its IndexError and
  AssertionError carry nothing, in Python and in the model.
- Only the 5-field record (IPC, total MPKI, branch-conditional MPKI, L2
  accesses, L2 hits) is modelled, since `my_utils.py` has no other reader.

## Model

| member | source | states |
|---|---|---|
| PyBuiltins.ListIndex | tasks/task1/my_utils.py:12-16 | `list.index`: succeeds exactly when the value occurs; the index is its first occurrence; otherwise ValueError naming the value |
| PyBuiltins.Split | tasks/task1/my_utils.py:11 | every token of `str.split()` is non-empty and holds no whitespace character |
| PyBuiltins.SplitJoin | tasks/task1/my_utils.py:11 | splitting words joined by single spaces gives back exactly those words |
| PyBuiltins.SplitBlank | tasks/task1/my_utils.py:11 | `str.split()` drops any whitespace at the start of the text |
| PyBuiltins.SplitLayout | tasks/task1/my_utils.py:11 | splitting words separated by any non-empty whitespace runs (spaces, tabs, newlines), with any whitespace before and after, gives back exactly those words |
| PyBuiltins.Reversed | tasks/task1/my_utils.py:8 | `a[-1::-1]`, a definition: the length of `a`, with element `i` being element `len(a) - 1 - i` of `a`. ListRightIndex's last-occurrence contract is what it serves |
| PyBuiltins.PyIndex | tasks/task1/my_utils.py:17-20 | `s[i]` succeeds exactly when `-len(s) <= i < len(s)`, giving element `i mod len(s)` (negative indices count from the end); otherwise IndexError |
| PyBuiltins.Basename | tasks/task1/my_utils.py:38 | `os.path.basename`: the result holds no `/`, is a suffix of the path, and is preceded by `/` whenever it is shorter than the path (the part after the last `/`) |
| ChampsimParser.ListRightIndex | tasks/task1/my_utils.py:7-8 | `len(a) - a[::-1].index(v) - 1` succeeds exactly when `v` occurs; the index then holds `v` with no later `v`; otherwise ValueError naming `v` |
| ChampsimParser.Record.Fields | tasks/task1/my_utils.py:19-20 | the record is the 5-tuple (IPC, total MPKI, branch-conditional MPKI, L2 accesses, L2 hits) |
| ChampsimParser.Float | tasks/task1/my_utils.py:20 | `float(tok)` succeeds exactly when the conversion does, with its value; otherwise ValueError naming the token |
| ChampsimParser.FieldAt | tasks/task1/my_utils.py:20 | `float(text[i])` succeeds exactly when token `i` exists and is a number, and then gives that number. Otherwise IndexError past the end, or ValueError naming the token |
| ChampsimParser.Locate | tasks/task1/my_utils.py:12-16 | succeeds exactly when all four labels occur. `MPKI:`, `BRANCH_CONDITIONAL:` and `cpu0_L2C` are at their first occurrences and `IPC:` at its last. On failure, ValueError names the first missing label in lookup order |
| ChampsimParser.CheckTotal | tasks/task1/my_utils.py:17 | passes exactly when the token after `cpu0_L2C` exists and is `TOTAL`. Otherwise AssertionError, or IndexError when there is no such token |
| ChampsimParser.ReadFields | tasks/task1/my_utils.py:20 | succeeds exactly when the tokens at ipc+1, mpki+1, bc+1, l2c+3 and l2c+5 exist and are numbers; the record holds their values in that order. Otherwise the exception is that of the first of those five, left to right, that fails |
| ChampsimParser.ParseFrom | tasks/task1/my_utils.py:17-20 | after the labels are found: succeeds exactly when the TOTAL check and all five conversions do. The TOTAL check's exception comes first; once it passes, the result is that of the conversions |
| ChampsimParser.ParseTokens | tasks/task1/my_utils.py:12-20 | `parse_champsim_output` after the split: it fails with ValueError naming the first missing label (lookup order) when a label is absent, and succeeds only when all four are present. ParseAtOk, ParseAt, ParseWith, ParseMissingLabel and ParseChecksTotal characterise the rest |
| ChampsimParser.ParseChampsimOutput | tasks/task1/my_utils.py:10-20 | `parse_champsim_output(text)`: ParseTokens on the text's `str.split()` tokens, with the same missing-label exception; ParseIgnoresLayout relates it to the tokens |
| ChampsimParser.ParseStages | tasks/task1/my_utils.py:10-20 | a successful parse located all labels, passed the TOTAL check, and returned the five conversions |
| ChampsimParser.ParseWith | tasks/task1/my_utils.py:17-20 | once the labels are located: the exact success condition (TOTAL after `cpu0_L2C`, five numeric tokens in range) and the exact record. A failed TOTAL check gives AssertionError, or IndexError when there is no next token. Once it passes, the result is ReadFields', with its first-failure exception |
| ChampsimParser.LocateAt | tasks/task1/my_utils.py:12-16 | when the labels are at given first/first/last/first positions, those are the indices the parser uses |
| ChampsimParser.ParseAtOk | tasks/task1/my_utils.py:10-20 | with the labels at given first/last positions, parsing succeeds exactly when TOTAL follows `cpu0_L2C` and the five offset tokens exist and are numbers |
| ChampsimParser.ParseAt | tasks/task1/my_utils.py:10-20 | with the labels at given first/last positions, a successful parse returns exactly `float(tokens[ipc+1])`, `float(tokens[mpki+1])`, `float(tokens[bc+1])`, `float(tokens[l2c+3])` and `float(tokens[l2c+5])`, in that order |
| ChampsimParser.ParseMissingLabel | tasks/task1/my_utils.py:12-16 | when a label is absent, and every label looked up before it is present, parsing fails with ValueError naming that label |
| ChampsimParser.ParseChecksTotal | tasks/task1/my_utils.py:16-17 | with the labels present: when `cpu0_L2C` is the last token, parsing fails with IndexError; when the next token is not `TOTAL`, with AssertionError |
| ChampsimParser.IpcTakesLastReport | tasks/task1/my_utils.py:14-20 | if `IPC:` appears at p1 < p2 and never after p2, a successful parse reports the token after p2 as the IPC |
| ChampsimParser.ParseIgnoresLayout | tasks/task1/my_utils.py:11 | a report whose words are separated by any non-empty whitespace runs, with any whitespace before and after, parses exactly like its list of words |
| MetricsTable.Empty | tasks/task1/my_utils.py:29 | `{}` is a well-formed dict with no keys |
| MetricsTable.Get | tasks/task1/my_utils.py:48 | `t[k]` succeeds exactly when `k` is a key and then gives the value mapped to `k`; otherwise KeyError naming `k` |
| MetricsTable.Insert | tasks/task1/my_utils.py:38 | `t[k] = v` preserves well-formedness and maps `k` to `v`. Every other key keeps its value. An existing key keeps its position; a new key is appended |
| PerfMetrics.RunRecord | tasks/task1/my_utils.py:37-38 | a run whose launcher raised yields that exception with its trace; a finished run yields the parse of its stdout |
| PerfMetrics.RunOutcomes | tasks/task1/my_utils.py:35-38 | one (base name of the trace, record or exception) per run, in submission order |
| PerfMetrics.FirstOccurrences | tasks/task1/my_utils.py:38 | the distinct elements of a list, the same set as the list's, ordered by where each first occurs (by `list.index`) |
| PerfMetrics.Collect | tasks/task1/my_utils.py:29-38 | the dict the loop builds, as a fold over the outcomes in submission order: any exception it returns is one of the runs' exceptions. CollectOk, CollectFirstFailure, CollectKeys and CollectLastWins characterise it |
| PerfMetrics.ObtainPerfMetrics | tasks/task1/my_utils.py:29-39 | the loop's result is the fold `Collect` over the runs' outcomes in submission order, which the lemmas below characterise |
| PerfMetrics.CollectValid | tasks/task1/my_utils.py:36-38 | the collected table is a well-formed dict |
| PerfMetrics.CollectErrorSticks | tasks/task1/my_utils.py:36-38 | once a prefix of the runs has failed, the whole collection fails with the same exception |
| PerfMetrics.CollectOk | tasks/task1/my_utils.py:36-38 | the collection succeeds exactly when every outcome is a record |
| PerfMetrics.CollectFirstFailure | tasks/task1/my_utils.py:36-38 | the exception is that of the first failing outcome, whatever follows it |
| PerfMetrics.ObtainOk | tasks/task1/my_utils.py:36-38 | collecting over the runs succeeds exactly when every run finishes and its output parses |
| PerfMetrics.RunFailureAborts | tasks/task1/my_utils.py:36-38 | the first run, in submission order, that raises or fails to parse decides the exception |
| PerfMetrics.LaunchFailureAborts | tasks/task1/my_utils.py:37 | a launcher exception, with no earlier failure, aborts the collection with that exception and its trace |
| PerfMetrics.CollectKeys | tasks/task1/my_utils.py:36-38 | the table's keys are FirstOccurrences of the traces' base names: each once, in the order first submitted |
| PerfMetrics.ObtainedKeysAreBasenames | tasks/task1/my_utils.py:38 | on success, a name is a key exactly when some submitted trace has it as its base name |
| PerfMetrics.CollectOnePerTrace | tasks/task1/my_utils.py:36-38 | with distinct base names, the table has one key per run, in submission order |
| PerfMetrics.CollectLastWins | tasks/task1/my_utils.py:38 | for a key, the stored value is the record of the last outcome with that key |
| PerfMetrics.LatestRunWins | tasks/task1/my_utils.py:38 | when traces share a base name, the entry holds the record of the last such trace submitted |
| PlotMetric.Lookup | tasks/task1/my_utils.py:48 | `m[test][metric_id]` succeeds exactly when the test is a key and -5 <= metric_id < 5. The result is that field, where negative ids count from the end. Otherwise KeyError before IndexError |
| PlotMetric.Column | tasks/task1/my_utils.py:48 | the inner list succeeds exactly when every lookup does. It then has one value per test, in the tests' order. Otherwise the exception is the first failing test's |
| PlotMetric.PlotMetricSeries | tasks/task1/my_utils.py:43-48 | with no tables, IndexError. It succeeds exactly when every table's column does. The test names are the first table's keys and there is one row per table, row `i` being table `i`'s column. Otherwise the exception is the first failing table's |
| PlotMetric.ColumnEntries | tasks/task1/my_utils.py:43-48 | entry `j` of a row is field `metric_id` of that table's record for the first table's `j`-th key |
| PlotMetric.ColumnFails | tasks/task1/my_utils.py:48 | a row fails, with nothing substituted, exactly when a test is missing from the table, or when some test exists and the metric index is out of range |
| PlotMetric.AlignsWhenTestsShared | tasks/task1/my_utils.py:43-48 | a table that holds every test of the first table gives a row as long as the first table's key list, for any valid field |
| PlotMetric.FailsOnMissingTest | tasks/task1/my_utils.py:48 | a table lacking a test of the first table fails with KeyError on the first test it lacks |

## Left out

- UTF-8 decoding (`text.decode("utf-8")`, line 11): the model starts from decoded text. UnicodeDecodeError is not modelled.
- `float(...)` (line 20): a parameter. Floating-point parsing, rounding, `inf` and `nan` are not modelled. It may accept or reject any token.
- The `assert` on line 17 is modelled as always checked. Under `python -O` Python skips it; that mode is not modelled.
- `subprocess.run` of `./config.sh`, `make -j8` and `bin/champsim` (lines 24-25, 32) is external process I/O. Each run's outcome is an input: the captured stdout, or the exception the launcher raised.
- `os.listdir` and `os.path.join` (line 28) are filesystem I/O. The list of trace paths is an input, in `os.listdir`'s order.
- `ThreadPoolExecutor` (lines 34-35) is concurrency. The runs are drained one after another in submission order. When an exception escapes, the other runs still started and the executor waits for them. These side effects are not modelled.
- `Basename` models POSIX `os.path.basename` on `/`-separated paths only.
- `plot_metric` after line 48 (lines 51-79): bar positions, colours and matplotlib rendering are not modelled. The `title` and `labels` parameters only reach that rendering, so they are not inputs of the model.
