# Diamond CPU collector, modelled in Dafny

This project models one collection cycle of Diamond's CPU collector,
`CPUCollector.collect`. A cycle does four things:

- it reads the `cpu` lines of `/proc/stat` into a map keyed by CPU label.
  Each label holds a partial record of up to ten positional counters (`user` … `guest_nice`);
- it turns every stored counter into one metric named `label.field`.
  The metric's value is the collector's derivative against the shared `MAX_COUNTER`;
- it runs the xen double-idle check.
  The collector carries a tri-state `xenfix` setting (None, True, False) from cycle to cycle.
  While the setting is None or True and `/proc/xen` is a directory, the check sums the integer part of every metric whose name contains `cpu0.`.
  If the sum is above 110, every `.idle` metric is halved and the setting becomes True.
  If the sum is in (0, 110], the setting becomes False.
  Otherwise the setting is left as it was;
- it publishes every metric once.

The files follow that structure:

- `py_strings.dfy` (`PyStrings`) models the Python 2 string built-ins the collector uses:
  - `str.split()` on whitespace;
  - `startswith`, as Dafny's prefix operator;
  - the substring test `p in s`;
  - `long()` of a string: an optional sign, decimal digits and an optional `L` suffix.

  It proves three facts about splitting:
  - it keeps exactly the visible text;
  - a word followed by any run of whitespace is one token;
  - splitting a blank-separated line gives back its tokens.

  It also proves that `long()` inverts printing an integer in decimal.
- `cpu_stat.dfy` (`CpuStat`) holds the `/proc/stat` reader.
  - `ReadStat` is the reading loop, and `ReadLine` is its body for one line.
  - `ReadFields` is the ten guarded field assignments inside that body.
  - `ReadStat` and `ReadFields` are proved equal to the specification functions `Parse` and `RecordOf`.
  - The parser's rules are lemmas about those functions.
- `cpu_metrics.dfy` (`CpuMetrics`) holds the rest of the cycle:
  - the `MAX_VALUES` table;
  - the nested metric-building loop;
  - the CPU 0 sum with `int()` truncation toward zero;
  - the idle-halving loop.

  Each is a method proved against a predicate or function that states its promise. Lemmas pin down which metric names the `cpu0.` and `.idle` tests select.
- `publishing.dfy` (`Publishing`) holds the publishing loop.
  It is proved to produce a listing of the metrics: every metric once, with its value, and nothing else.
- `cpu_collector.dfy` (`CpuCollector`) holds the collector.
  - `Collector` is a class whose one mutable field is the `xenfix` setting.
  - `Collect` is one cycle.
  - The setting's transition function `NextXenFix`, and `XenFixAfter` (the transition fold over several cycles), carry the lemmas about the setting across cycles.

Inputs the collector gets from its host are parameters of `Collect`:

- the text of `/proc/stat` as a sequence of lines, or `None` when it cannot be read;
- whether `/proc/xen` is a directory;
- the host's derivative, as an arbitrary function from (name, counter, maximum) to a value.

What `publish` receives is returned as a log of (name, value) pairs.

## Model

| member | source | states |
|---|---|---|
| PyStrings.Split | src/collectors/cpu/cpu.py:70 | `line.split()`: leading whitespace is skipped, then each maximal run of non-whitespace is one token; its contract is stated by `WordFacts`, `SplitTokens`, `SplitKeepsText`, `SplitSkipsSpaces` and `SplitWordSpaces` |
| PyStrings.WordFacts | src/collectors/cpu/cpu.py:70 | the first word of a line is a whitespace-free prefix of it that ends at whitespace or at the end, and it is non-empty when the line starts with a non-blank character |
| PyStrings.SplitTokens | src/collectors/cpu/cpu.py:70 | every token of `line.split()` is non-empty and holds no whitespace |
| PyStrings.SplitKeepsText | src/collectors/cpu/cpu.py:70 | concatenating the tokens of `split()` gives the line with exactly its whitespace removed |
| PyStrings.SplitSkipsSpaces | src/collectors/cpu/cpu.py:70 | a run of whitespace before a string adds no token |
| PyStrings.SplitWordSpaces | src/collectors/cpu/cpu.py:70 | tokens are maximal: a word followed by any non-empty run of whitespace (one blank, two as after the kernel's `cpu`, or a newline) is one token, and splitting goes on after the run |
| PyStrings.SplitLine | src/collectors/cpu/cpu.py:70 | splitting a line written as blank-separated, newline-ended non-empty tokens gives back exactly those tokens |
| PyStrings.DecimalValue | src/collectors/cpu/cpu.py:112 | the value of the digits of a counter; its partner is the printing function `Decimal`, and `DecimalRoundTrip` proves that reading inverts printing |
| PyStrings.DecimalRoundTrip | src/collectors/cpu/cpu.py:112 | the decimal digit string of every natural number is a digit string whose value is that number |
| PyStrings.LongOfDigits | src/collectors/cpu/cpu.py:112 | `long()` accepts a digit string, with a leading `-` or `+` and with an `L` suffix, and reads it as its decimal value, negated after `-` |
| PyStrings.LongRoundTrip | src/collectors/cpu/cpu.py:112 | `long()` of every integer printed in decimal, with a `-` when negative, gives back that integer |
| PyStrings.LongRejects | src/collectors/cpu/cpu.py:112 | `long()` does not accept an empty string, a bare sign, a bare suffix, a decimal point or a doubled sign |
| CpuStat.ReadStat | src/collectors/cpu/cpu.py:62-101 | the reading loop leaves exactly `Parse(lines)`: each `cpu` line, in order, (re)sets its label's entry, and other lines are skipped |
| CpuStat.ReadFields | src/collectors/cpu/cpu.py:77-98 | the ten guarded assignments build exactly `RecordOf(elements)`: field i holds token i + 1 when the line has it |
| CpuStat.ReadLine | src/collectors/cpu/cpu.py:66-98 | one pass of the loop body: a line starting with `cpu` (re)sets the entry of its label (`total` for `cpu`) to its record, and any other line leaves the map unchanged |
| CpuStat.RecordOfIs | src/collectors/cpu/cpu.py:77-98 | the record of a split line maps exactly the fields whose token exists to that token |
| CpuStat.RecordField | src/collectors/cpu/cpu.py:79-98 | field number i is in the record exactly when the split line has more than i + 1 tokens, and it then holds token i + 1 |
| CpuStat.RecordKeys | src/collectors/cpu/cpu.py:79-98 | a field is in the record exactly when the token after the label at its position exists |
| CpuStat.RecordOfLabelOnly | src/collectors/cpu/cpu.py:77-79 | a line that holds only a label yields an empty record |
| CpuStat.RecordIgnoresExtraTokens | src/collectors/cpu/cpu.py:97-98 | tokens after the eleventh never reach the record |
| CpuStat.LineLabelIs | src/collectors/cpu/cpu.py:70-75 | a `cpu` line has a first token starting with `cpu`; the label is `total` exactly when that token is `cpu`, and otherwise the token itself |
| CpuStat.ParseDomain | src/collectors/cpu/cpu.py:66-77 | a label is in the result exactly when some line starting with `cpu` carries it |
| CpuStat.ParseLastWins | src/collectors/cpu/cpu.py:77 | the record of a label is the record of its last line; nothing of an earlier line with that label survives |
| CpuStat.ParseSkipsOtherLines | src/collectors/cpu/cpu.py:66-68 | inserting a line that does not start with `cpu` anywhere leaves the result unchanged |
| CpuStat.AggregateLine | src/collectors/cpu/cpu.py:70-86 | the aggregate line `cpu u n s i` is a `cpu` line, labelled `total`, whose record holds exactly `user`, `nice`, `system`, `idle` |
| CpuStat.UserOnlyLine | src/collectors/cpu/cpu.py:62-101 | a `cpu` line with one counter, whatever its text, parses to a `total` record holding only `user` |
| CpuStat.AggregateLineExample | src/collectors/cpu/cpu.py:62-101 | after a non-`cpu` line, that aggregate line gives a map holding only `total` with those four fields |
| CpuMetrics.MaxValues | src/collectors/cpu/cpu.py:25-36 | the table has an entry for each of the ten fields, and every entry is the one shared `MAX_COUNTER` |
| CpuMetrics.MetricNameInjective | src/collectors/cpu/cpu.py:109 | two metric names `label.field` are equal only for the same label and field, so no two counters share a metric |
| CpuMetrics.BuildMetrics | src/collectors/cpu/cpu.py:103-113 | the nested loop yields one metric `label.field` per stored counter, valued by the derivative of `long()` of the counter against `MAX_COUNTER`, and no other metric |
| CpuMetrics.AddLabelMetrics | src/collectors/cpu/cpu.py:107-113 | the inner loop over one label's fields adds exactly one metric `label.field` per stored field, valued by its derivative, to the metrics of the labels already done |
| CpuMetrics.MetricOfField | src/collectors/cpu/cpu.py:105-113 | metric `label.field` exists exactly when the reader stored that field for that label, and it then holds that counter's derivative |
| CpuMetrics.UserOnlyNumeric | src/collectors/cpu/cpu.py:112 | a one-counter record can be read by `long()` exactly when `long()` accepts that counter |
| CpuMetrics.SignedCounterIsRead | src/collectors/cpu/cpu.py:62-113 | the line `cpu -5` stores `user` as `-5`, which `long()` accepts and reads as -5, so its metric is built |
| CpuMetrics.MetricsDetermined | src/collectors/cpu/cpu.py:103-113 | the metrics are determined by the parse result and the derivative, whatever order the dictionaries are walked in |
| CpuMetrics.Trunc | src/collectors/cpu/cpu.py:122 | `int()` of a value truncates toward zero, for negative values too |
| CpuMetrics.SumTruncRemove | src/collectors/cpu/cpu.py:119-122 | the truncated sum over a set of metrics is one member's truncated value plus the sum over the rest |
| CpuMetrics.SumMatching | src/collectors/cpu/cpu.py:119-122 | the accumulator loop returns the sum of the truncated values of exactly the metrics the test picks |
| CpuMetrics.Cpu0MetricIff | src/collectors/cpu/cpu.py:121 | for a dot-free label, `'cpu0.' in name` holds exactly when the label ends in `cpu0` |
| CpuMetrics.OnlyCpu0Counts | src/collectors/cpu/cpu.py:121 | among the kernel's labels (`total` and `cpuN`), only `cpu0`'s metrics enter the sum; `total.*` and `cpu10.*` do not |
| CpuMetrics.HalveIdleMetrics | src/collectors/cpu/cpu.py:125-127 | the halving loop leaves exactly `HalveIdle(metrics)`: every name containing `.idle` is halved, every other is kept, and no name is added or removed |
| CpuMetrics.IdleMetricIff | src/collectors/cpu/cpu.py:126 | for a dot-free label, `'.idle' in name` holds exactly for the `idle` field, not for `iowait` or `irq` |
| CpuMetrics.HalveIdleAt | src/collectors/cpu/cpu.py:125-127 | after halving, metric `label.field` is half its value when the field is `idle`, and otherwise unchanged |
| Publishing.PublishAll | src/collectors/cpu/cpu.py:133-137 | the publishing loop yields a listing of the metrics: one (name, value) call per metric, in some order |
| Publishing.ListingLength | src/collectors/cpu/cpu.py:133-137 | a listing makes exactly as many `publish` calls as there are metrics |
| Publishing.ListingValues | src/collectors/cpu/cpu.py:133-137 | every published pair is a metric with its own value |
| Publishing.ListingDistinct | src/collectors/cpu/cpu.py:133-137 | no metric is published twice |
| Publishing.ListingCovers | src/collectors/cpu/cpu.py:133-137 | every metric is published |
| CpuCollector.Collector.constructor | src/collectors/cpu/cpu.py:44-54 | a collector starts with the given `MAX_COUNTER` and `xenfix` setting |
| CpuCollector.Collector.Collect | src/collectors/cpu/cpu.py:56-137 | unreadable `/proc/stat` returns None and publishes nothing; a counter that `long()` does not accept raises before anything is published; otherwise it returns True, sets `xenfix` by `NextXenFix` from the CPU 0 sum of the metrics built, and publishes each metric once, with the idle metrics halved exactly when the check fires |
| CpuCollector.Collector.CheckXen | src/collectors/cpu/cpu.py:115-131 | the check moves the setting by `NextXenFix` from the CPU 0 sum, and returns the metrics halved exactly when the setting is not False, `/proc/xen` is present and the sum is above 110, unchanged otherwise |
| CpuCollector.OffIsFinal | src/collectors/cpu/cpu.py:117-131 | once False, the setting stays False and no later cycle halves anything |
| CpuCollector.StaysUnsetIff | src/collectors/cpu/cpu.py:117-131 | the setting stays None exactly while every cycle finds `/proc/xen` and a CPU 0 sum of at most 0 |
| CpuCollector.OnReachesOnOrOff | src/collectors/cpu/cpu.py:117-131 | from True the setting never goes back to None |
| CpuCollector.OnNeedsHighSum | src/collectors/cpu/cpu.py:123-124 | the setting ends True only if it started True or some cycle found `/proc/xen` and a CPU 0 sum above 110 |
| CpuCollector.OnIsRechecked | src/collectors/cpu/cpu.py:117-129 | a True setting and a cycle with `/proc/xen` and a CPU 0 sum in (0, 110] give False and halve nothing; so None, then a sum of 111, then such a sum, ends False |
| CpuCollector.HalvingLeavesOn | src/collectors/cpu/cpu.py:123-129 | a cycle that halves leaves the setting True; a True setting with `/proc/xen` and a CPU 0 sum of at most 0 stays True and does not halve |

## Left out

- Reading `/proc/stat` (`os.access`, `open`, `close`) and probing `/proc/xen` are inputs of `Collect`: a sequence of lines (or `None`) and a boolean.
- The `psutil` fallback (lines 139-179) is not modelled. It calls a foreign library. A cycle without a readable `/proc/stat` is modelled as returning None, which is what the source does when `psutil` is not installed.
- `self.derivative` and `self.publish` live in `diamond.collector`, which is not part of this model.
  - The derivative is an arbitrary function parameter. Its own state, the previous counter values, stays with the host.
  - A cycle that raises on a bad counter may already have called the derivative for some metrics. This model does not track that effect.
  - `publish` is modelled as the returned log.
- The value of `MAX_COUNTER` depends on the architecture and is defined in `diamond.collector`. It is a constant of the collector here.
- `long()` raising on a counter it does not accept is modelled as the `BadCounter` outcome. The exception itself and its message are not modelled. Surrounding whitespace, which `long()` also skips, cannot occur: tokens of `split()` hold none.
- Metric values are exact reals: halving is exact division by 2, and `int()` is explicit truncation toward zero. IEEE floating point and the `float()` cast are not modelled.
- Dictionary iteration order is left open: each loop over `results`, a record or `metrics` may take the keys in any order. The contracts hold for every order.
- `get_default_config` and `get_default_config_help` (lines 38-54) are not modelled. They only hand defaults to the host. Their one relevant default, `xenfix` = None, is the `Unset` argument of the constructor. Configuration values read as strings from a file are not modelled.
- The xen check runs while the setting is None or True (src/collectors/cpu/cpu.py:117). So a True setting is checked again on every cycle, and a CPU 0 sum in (0, 110] turns it False (lines 123-129, `OnIsRechecked`). A sum of at most 0 changes nothing: a True setting stays True and halves nothing (`HalvingLeavesOn`).
