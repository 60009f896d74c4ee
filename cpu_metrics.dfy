/**
  The metric side of one collection cycle: every stored counter becomes one
  metric named `label.field` whose value is the host's derivative of the
  counter; the xen check sums the CPU 0 metrics and may halve every idle
  metric; finally every metric is published once.
 */
module CpuMetrics {
  import opened PyStrings
  import opened CpuStat

  /** `'.'.join([cpu, s])` */
  function MetricName(cpu: string, f: Field): string {
    cpu + "." + Name(f)
  }

  /**
    The host's `derivative(name, value, max)`: it keeps the previous value of
    each name, so one cycle sees it as some function of its three arguments.
   */
  type Derivative = (string, int, int) -> real

  /** The `MAX_VALUES` table: every counter shares the framework's `MAX_COUNTER`. */
  function MaxValues(maxCounter: int): (table: map<Field, int>)
    ensures forall f: Field :: f in table && table[f] == maxCounter
  {
    FieldsListed();
    map f | f in FIELDS :: maxCounter
  }

  predicate NoDot(s: string) {
    forall j :: 0 <= j < |s| ==> s[j] != '.'
  }

  lemma NameShape(f: Field)
    ensures NoDot(Name(f)) && Name(f) != []
  {
  }

  lemma {:induction false} OnlyDotAt(cpu: string, n: string)
    requires NoDot(cpu) && NoDot(n)
    ensures forall j :: 0 <= j < |cpu + "." + n| && j != |cpu| ==> (cpu + "." + n)[j] != '.'
  {
    var s := cpu + "." + n;
    forall j | 0 <= j < |s| && j != |cpu|
      ensures s[j] != '.'
    {
      if j < |cpu| {
        assert s[j] == cpu[j];
      } else {
        assert s[j] == n[j - |cpu| - 1];
      }
    }
  }

  /** A dotted name whose last part has no dot splits in one way only. */
  lemma {:induction false} SplitAtLastDot(a: string, b: string, c: string, d: string)
    requires NoDot(b) && NoDot(d) && a + "." + b == c + "." + d
    ensures a == c && b == d
  {
    var s := a + "." + b;
    assert s[|a|] == '.' && s[|c|] == '.';
    forall j | |a| < j < |s|
      ensures s[j] != '.'
    {
      assert s[j] == b[j - |a| - 1];
    }
    forall j | |c| < j < |s|
      ensures s[j] != '.'
    {
      assert s[j] == d[j - |c| - 1];
    }
    assert |a| == |c|;
    assert a == s[..|a|] && c == s[..|c|];
    assert b == s[|a| + 1..] && d == s[|c| + 1..];
  }

  /** Two present fields never share a metric name. */
  lemma MetricNameInjective(cpu: string, f: Field, cpu': string, g: Field)
    requires MetricName(cpu, f) == MetricName(cpu', g)
    ensures cpu == cpu' && f == g
  {
    NameShape(f);
    NameShape(g);
    SplitAtLastDot(cpu, Name(f), cpu', Name(g));
  }

  // ----- Building the metrics (the nested loop over labels and fields) -----

  /** Every stored counter is a string `long()` accepts. */
  predicate FieldsNumeric(results: map<string, Record>) {
    forall cpu, f :: cpu in results && f in results[cpu] ==> IsLongLiteral(results[cpu][f])
  }

  /** The value of metric `cpu.f`: the derivative of the counter, against the shared maximum. */
  function Derived(results: map<string, Record>, derive: Derivative, maxCounter: int, cpu: string, f: Field): real
    requires cpu in results && f in results[cpu] && IsLongLiteral(results[cpu][f])
  {
    derive(MetricName(cpu, f), LongValue(results[cpu][f]), maxCounter)
  }

  /** The (label, field) pairs the reader stored. */
  ghost function Pairs(results: map<string, Record>): set<(string, Field)> {
    set cpu, f | cpu in results && f in results[cpu] :: (cpu, f)
  }

  /** `metrics` holds one metric for each pair of `done`, valued by its derivative. */
  ghost predicate HasValues(metrics: map<string, real>, results: map<string, Record>, derive: Derivative,
                            maxCounter: int, done: set<(string, Field)>)
    requires FieldsNumeric(results) && done <= Pairs(results)
  {
    forall p :: p in done ==>
      MetricName(p.0, p.1) in metrics &&
      metrics[MetricName(p.0, p.1)] == Derived(results, derive, maxCounter, p.0, p.1)
  }

  /** Every metric of `metrics` is named after a pair of `done`. */
  ghost predicate OnlyNames(metrics: map<string, real>, done: set<(string, Field)>) {
    forall name :: name in metrics ==> exists p :: p in done && name == MetricName(p.0, p.1)
  }

  /** `metrics` holds one metric for each pair of `done`, valued by its derivative, and nothing else. */
  ghost predicate Built(metrics: map<string, real>, results: map<string, Record>, derive: Derivative,
                        maxCounter: int, done: set<(string, Field)>)
    requires FieldsNumeric(results) && done <= Pairs(results)
  {
    HasValues(metrics, results, derive, maxCounter, done) && OnlyNames(metrics, done)
  }

  /** The metrics of one cycle: one per stored counter, and no other. */
  ghost predicate IsMetricsOf(metrics: map<string, real>, results: map<string, Record>, derive: Derivative, maxCounter: int)
    requires FieldsNumeric(results)
  {
    Built(metrics, results, derive, maxCounter, Pairs(results))
  }

  lemma AddValue(metrics: map<string, real>, results: map<string, Record>, derive: Derivative, maxCounter: int,
                 done: set<(string, Field)>, cpu: string, f: Field)
    requires FieldsNumeric(results) && done + {(cpu, f)} <= Pairs(results)
    requires HasValues(metrics, results, derive, maxCounter, done)
    ensures HasValues(metrics[MetricName(cpu, f) := Derived(results, derive, maxCounter, cpu, f)],
                      results, derive, maxCounter, done + {(cpu, f)})
  {
    var name := MetricName(cpu, f);
    var added := metrics[name := Derived(results, derive, maxCounter, cpu, f)];
    var done' := done + {(cpu, f)};
    forall p | p in done'
      ensures MetricName(p.0, p.1) in added
      ensures added[MetricName(p.0, p.1)] == Derived(results, derive, maxCounter, p.0, p.1)
    {
      if p != (cpu, f) && MetricName(p.0, p.1) == name {
        MetricNameInjective(p.0, p.1, cpu, f);
      }
    }
  }

  lemma AddName(metrics: map<string, real>, done: set<(string, Field)>, cpu: string, f: Field, v: real)
    requires OnlyNames(metrics, done)
    ensures OnlyNames(metrics[MetricName(cpu, f) := v], done + {(cpu, f)})
  {
    var done' := done + {(cpu, f)};
    var updated := metrics[MetricName(cpu, f) := v];
    forall n | n in updated
      ensures exists p :: p in done' && n == MetricName(p.0, p.1)
    {
      if n == MetricName(cpu, f) {
        assert (cpu, f) in done';
      } else {
        var p :| p in done && n == MetricName(p.0, p.1);
        assert p in done';
      }
    }
  }

  /** Adding the metric of a new pair keeps `Built`. */
  lemma BuiltAdd(metrics: map<string, real>, results: map<string, Record>, derive: Derivative, maxCounter: int,
                 done: set<(string, Field)>, cpu: string, f: Field)
    requires FieldsNumeric(results) && done <= Pairs(results)
    requires cpu in results && f in results[cpu] && (cpu, f) !in done
    requires Built(metrics, results, derive, maxCounter, done)
    ensures done + {(cpu, f)} <= Pairs(results)
    ensures Built(metrics[MetricName(cpu, f) := Derived(results, derive, maxCounter, cpu, f)],
                  results, derive, maxCounter, done + {(cpu, f)})
  {
    assert (cpu, f) in Pairs(results);
    AddValue(metrics, results, derive, maxCounter, done, cpu, f);
    AddName(metrics, done, cpu, f, Derived(results, derive, maxCounter, cpu, f));
  }

  /** The pairs of one label. */
  ghost function LabelPairs(results: map<string, Record>, cpu: string): set<(string, Field)>
    requires cpu in results
  {
    set s | s in results[cpu] :: (cpu, s)
  }

  /** The inner loop: one metric per field stored for `cpu`. */
  method AddLabelMetrics(metrics: map<string, real>, results: map<string, Record>, derive: Derivative,
                         maxCounter: int, cpu: string, ghost done: set<(string, Field)>)
    returns (metrics': map<string, real>)
    requires FieldsNumeric(results) && done <= Pairs(results) && cpu in results
    requires forall p :: p in done ==> p.0 != cpu
    requires Built(metrics, results, derive, maxCounter, done)
    ensures done + LabelPairs(results, cpu) <= Pairs(results)
    ensures Built(metrics', results, derive, maxCounter, done + LabelPairs(results, cpu))
  {
    metrics' := metrics;
    var stats := results[cpu];
    var names := stats.Keys;
    ghost var added: set<(string, Field)> := {};
    while names != {}
      invariant names <= stats.Keys
      invariant forall p :: p in added ==> p.0 == cpu && p.1 in stats && p.1 !in names
      invariant forall s :: s in stats && s !in names ==> (cpu, s) in added
      invariant done + added <= Pairs(results)
      invariant Built(metrics', results, derive, maxCounter, done + added)
      decreases names
    {
      var s :| s in names;
      var metricName := MetricName(cpu, s);
      BuiltAdd(metrics', results, derive, maxCounter, done + added, cpu, s);
      metrics' := metrics'[metricName := derive(metricName, LongValue(stats[s]), MaxValues(maxCounter)[s])];
      assert done + added + {(cpu, s)} == done + (added + {(cpu, s)});
      added := added + {(cpu, s)};
      names := names - {s};
    }
    assert added == LabelPairs(results, cpu);
  }

  /** The nested loop that turns the stored counters into metrics. */
  method BuildMetrics(results: map<string, Record>, derive: Derivative, maxCounter: int)
    returns (metrics: map<string, real>)
    requires FieldsNumeric(results)
    ensures IsMetricsOf(metrics, results, derive, maxCounter)
  {
    metrics := map[];
    var labels := results.Keys;
    ghost var done: set<(string, Field)> := {};
    while labels != {}
      invariant labels <= results.Keys
      invariant done <= Pairs(results)
      invariant forall p :: p in done ==> p.0 !in labels
      invariant forall p :: p in Pairs(results) && p.0 !in labels ==> p in done
      invariant Built(metrics, results, derive, maxCounter, done)
      decreases labels
    {
      var cpu :| cpu in labels;
      metrics := AddLabelMetrics(metrics, results, derive, maxCounter, cpu, done);
      done := done + LabelPairs(results, cpu);
      labels := labels - {cpu};
    }
    assert done == Pairs(results);
  }

  /** A metric `cpu.f` exists exactly when the reader stored field `f` for `cpu`, and it holds that counter's derivative. */
  lemma MetricOfField(metrics: map<string, real>, results: map<string, Record>, derive: Derivative, maxCounter: int,
                      cpu: string, f: Field)
    requires FieldsNumeric(results) && IsMetricsOf(metrics, results, derive, maxCounter)
    ensures MetricName(cpu, f) in metrics <==> cpu in results && f in results[cpu]
    ensures cpu in results && f in results[cpu] ==>
      metrics[MetricName(cpu, f)] == derive(MetricName(cpu, f), LongValue(results[cpu][f]), maxCounter)
  {
    if MetricName(cpu, f) in metrics {
      var p :| p in Pairs(results) && MetricName(cpu, f) == MetricName(p.0, p.1);
      MetricNameInjective(cpu, f, p.0, p.1);
    }
    if cpu in results && f in results[cpu] {
      assert (cpu, f) in Pairs(results);
    }
  }

  /** A single-counter record is numeric exactly when `long()` accepts that counter. */
  lemma UserOnlyNumeric(v: string)
    ensures FieldsNumeric(map["total" := map[User := v]]) <==> IsLongLiteral(v)
  {
    var results := map["total" := map[User := v]];
    assert "total" in results && User in results["total"];
  }

  /** A signed counter is read as `long()` reads it: `cpu -5` stores `user` as `-5`, whose value is -5. */
  lemma SignedCounterIsRead()
    ensures Parse([Line(["cpu", "-5"])]) == map["total" := map[User := "-5"]]
    ensures FieldsNumeric(map["total" := map[User := "-5"]]) && LongValue("-5") == -5
  {
    UserOnlyLine("-5");
    LongOfDigits("5");
    assert "-" + "5" == "-5";
    UserOnlyNumeric("-5");
  }

  /** The metrics of a cycle are determined by what was read and by the derivative. */
  lemma MetricsDetermined(m1: map<string, real>, m2: map<string, real>, results: map<string, Record>,
                          derive: Derivative, maxCounter: int)
    requires FieldsNumeric(results)
    requires IsMetricsOf(m1, results, derive, maxCounter) && IsMetricsOf(m2, results, derive, maxCounter)
    ensures m1 == m2
  {
    forall name | name in m1
      ensures name in m2 && m2[name] == m1[name]
    {
      var p :| p in Pairs(results) && name == MetricName(p.0, p.1);
    }
    forall name | name in m2
      ensures name in m1
    {
      var p :| p in Pairs(results) && name == MetricName(p.0, p.1);
    }
  }

  // ----- The sum of the CPU 0 metrics -----

  /** `int(x)` on a float: truncation toward zero. */
  function Trunc(x: real): (n: int)
    ensures 0.0 <= x ==> n as real <= x < n as real + 1.0
    ensures x < 0.0 ==> n as real - 1.0 < x <= n as real
  {
    if x >= 0.0 then x.Floor else -((-x).Floor)
  }

  /** The sum of the truncated values of `keys`, in whatever order. */
  ghost function SumTrunc(m: map<string, real>, keys: set<string>): int
    requires keys <= m.Keys
  {
    if keys == {} then 0
    else
      var k :| k in keys;
      Trunc(m[k]) + SumTrunc(m, keys - {k})
  }

  /** The sum does not depend on the order in which the keys are visited. */
  lemma {:induction false} SumTruncRemove(m: map<string, real>, keys: set<string>, k: string)
    requires keys <= m.Keys && k in keys
    ensures SumTrunc(m, keys) == Trunc(m[k]) + SumTrunc(m, keys - {k})
    decreases |keys|
  {
    var j :| j in keys && SumTrunc(m, keys) == Trunc(m[j]) + SumTrunc(m, keys - {j});
    if j != k {
      SumTruncRemove(m, keys - {j}, k);
      SumTruncRemove(m, keys - {k}, j);
      assert keys - {j} - {k} == keys - {k} - {j};
    }
  }

  /** The xen check's test on a metric name: `'cpu0.' in metric_name`. */
  predicate IsCpu0Metric(name: string) {
    Contains(name, "cpu0.")
  }

  /** The metric names that `picks` selects. */
  function Matching(m: map<string, real>, picks: string -> bool): set<string> {
    set k | k in m && picks(k)
  }

  /** The CPU 0 sum of the xen check. */
  ghost function Cpu0Sum(m: map<string, real>): int {
    SumTrunc(m, Matching(m, IsCpu0Metric))
  }

  /** The accumulator loop: the sum of the truncated values of the metrics whose name `picks` selects. */
  method SumMatching(metrics: map<string, real>, picks: string -> bool) returns (total: int)
    ensures total == SumTrunc(metrics, Matching(metrics, picks))
  {
    total := 0;
    var names := metrics.Keys;
    while names != {}
      invariant names <= metrics.Keys
      invariant total == SumTrunc(metrics, set k | k in metrics && k !in names && picks(k))
      decreases names
    {
      var metricName :| metricName in names;
      ghost var seen := set k | k in metrics && k !in names && picks(k);
      if picks(metricName) {
        SumTruncRemove(metrics, seen + {metricName}, metricName);
        assert (seen + {metricName}) - {metricName} == seen;
        total := total + Trunc(metrics[metricName]);
      }
      names := names - {metricName};
      assert (set k | k in metrics && k !in names && picks(k)) ==
        if picks(metricName) then seen + {metricName} else seen;
    }
    assert (set k | k in metrics && k !in names && picks(k)) == Matching(metrics, picks);
  }

  // ----- Halving the idle metrics -----

  /** `'.idle' in mname` */
  predicate IsIdleMetric(name: string) {
    Contains(name, ".idle")
  }

  /** The metrics after the xen correction: each idle metric halved, every other one unchanged. */
  function HalveIdle(m: map<string, real>): map<string, real> {
    map k | k in m :: if IsIdleMetric(k) then m[k] / 2.0 else m[k]
  }

  /** The loop that overwrites each idle metric with half its value. */
  method HalveIdleMetrics(metrics: map<string, real>) returns (adjusted: map<string, real>)
    ensures adjusted == HalveIdle(metrics)
  {
    adjusted := metrics;
    var names := metrics.Keys;
    while names != {}
      invariant names <= metrics.Keys && adjusted.Keys == metrics.Keys
      invariant forall k :: k in metrics ==> adjusted[k] == if k in names then metrics[k] else HalveIdle(metrics)[k]
      decreases names
    {
      var mname :| mname in names;
      if Contains(mname, ".idle") {
        adjusted := adjusted[mname := adjusted[mname] / 2.0];
      }
      names := names - {mname};
    }
  }

  // ----- The two substring tests on dotted metric names -----

  /** A pattern ending in a dot matches a dotted name exactly when it ends the label. */
  lemma {:induction false} DotSuffixMatch(cpu: string, n: string, q: string)
    requires NoDot(cpu) && NoDot(n)
    ensures Contains(cpu + "." + n, q + ".") <==> |q| <= |cpu| && cpu[|cpu| - |q|..] == q
  {
    var s := cpu + "." + n;
    OnlyDotAt(cpu, n);
    if Contains(s, q + ".") {
      var i :| 0 <= i <= |s| && OccursAt(s, q + ".", i);
      assert s[i + |q|] == (q + ".")[|q|];
      assert i + |q| == |cpu|;
      assert s[i..i + |q|] == (q + ".")[..|q|];
      assert cpu[i..] == s[i..i + |q|];
    }
    if |q| <= |cpu| && cpu[|cpu| - |q|..] == q {
      var i := |cpu| - |q|;
      assert s[i..i + |q| + 1] == q + ".";
      assert OccursAt(s, q + ".", i);
    }
  }

  /** A pattern starting with a dot matches a dotted name exactly when it starts the field name. */
  lemma {:induction false} DotPrefixMatch(cpu: string, n: string, q: string)
    requires NoDot(cpu) && NoDot(n)
    ensures Contains(cpu + "." + n, "." + q) <==> q <= n
  {
    var s := cpu + "." + n;
    OnlyDotAt(cpu, n);
    if Contains(s, "." + q) {
      var i :| 0 <= i <= |s| && OccursAt(s, "." + q, i);
      assert s[i] == ("." + q)[0];
      assert i == |cpu|;
      assert s[i + 1..i + 1 + |q|] == ("." + q)[1..];
      assert n[..|q|] == s[i + 1..i + 1 + |q|];
    }
    if q <= n {
      var i := |cpu|;
      assert s[i..i + 1 + |q|] == "." + q;
      assert OccursAt(s, "." + q, i);
    }
  }

  /** For a label without dots, `'.idle' in name` picks exactly the idle counter. */
  lemma IdleMetricIff(cpu: string, f: Field)
    requires NoDot(cpu)
    ensures IsIdleMetric(MetricName(cpu, f)) <==> f == Idle
  {
    NameShape(f);
    assert "idle" <= Name(f) <==> f == Idle by {
      match f
      case Idle =>
      case Iowait => assert Name(f)[1] != "idle"[1];
      case Irq =>
      case _ => assert Name(f)[0] != "idle"[0];
    }
    DotPrefixMatch(cpu, Name(f), "idle");
    assert ".idle" == "." + "idle";
  }

  /** Halving touches the idle counter of each (dot-free) label and no other metric. */
  lemma HalveIdleAt(m: map<string, real>, cpu: string, f: Field)
    requires NoDot(cpu) && MetricName(cpu, f) in m
    ensures MetricName(cpu, f) in HalveIdle(m)
    ensures HalveIdle(m)[MetricName(cpu, f)] == if f == Idle then m[MetricName(cpu, f)] / 2.0 else m[MetricName(cpu, f)]
  {
    IdleMetricIff(cpu, f);
  }

  /** For a label without dots, `'cpu0.' in name` picks the labels that end in `cpu0`. */
  lemma Cpu0MetricIff(cpu: string, f: Field)
    requires NoDot(cpu)
    ensures IsCpu0Metric(MetricName(cpu, f)) <==> |cpu| >= 4 && cpu[|cpu| - 4..] == "cpu0"
  {
    NameShape(f);
    DotSuffixMatch(cpu, Name(f), "cpu0");
    assert "cpu0." == "cpu0" + ".";
  }

  /** The labels `/proc/stat` produces: `total` (from `cpu`) and `cpu` followed by a CPU number. */
  predicate IsKernelLabel(cpu: string) {
    cpu == "total" || ("cpu" <= cpu && IsDigits(cpu[3..]))
  }

  lemma KernelLabelShape(cpu: string)
    requires IsKernelLabel(cpu)
    ensures NoDot(cpu)
    ensures forall j :: 0 <= j < |cpu| && (j > 0 || cpu == "total") ==> cpu[j] != 'c'
  {
    forall j | 0 <= j < |cpu|
      ensures cpu[j] != '.' && (j > 0 || cpu == "total" ==> cpu[j] != 'c')
    {
      if cpu != "total" && j >= 3 {
        assert cpu[j] == cpu[3..][j - 3];
      }
    }
  }

  /** On the labels the kernel produces, the CPU 0 test picks `cpu0` and nothing else: `total` and cpu10, cpu20, ... are left out. */
  lemma OnlyCpu0Counts(cpu: string, f: Field)
    requires IsKernelLabel(cpu)
    ensures IsCpu0Metric(MetricName(cpu, f)) <==> cpu == "cpu0"
  {
    KernelLabelShape(cpu);
    Cpu0MetricIff(cpu, f);
    if |cpu| >= 4 && cpu[|cpu| - 4..] == "cpu0" {
      assert cpu[|cpu| - 4] == 'c';
    }
  }
}
