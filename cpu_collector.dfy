/**
  The CPU collector object: one call of `Collect` is one collection cycle
  (read `/proc/stat`, build the metrics, run the xen idle check, publish),
  and the tri-state `xenfix` setting is the state it carries from one cycle
  to the next.
 */
module CpuCollector {
  import opened PyStrings
  import opened CpuStat
  import opened CpuMetrics
  import opened Publishing

  datatype Option<T> = None | Some(value: T)

  /**
    How a cycle ends: it returns True, it returns None because `/proc/stat`
    cannot be read, or `long()` raises on a counter that is not a decimal number.
   */
  datatype Outcome = Collected | Unreadable | BadCounter

  /** `self.config['xenfix']`: None, True or False. */
  datatype XenFix = Unset | On | Off

  /** A CPU 0 sum above this marks the xen double-idle bug. */
  const XEN_THRESHOLD: int := 110

  /** The setting after one cycle, given whether `/proc/xen` is a directory and the CPU 0 sum. */
  function NextXenFix(prior: XenFix, xenPresent: bool, total: int): XenFix {
    if prior == Off then Off
    else if !xenPresent then Off
    else if total > XEN_THRESHOLD then On
    else if total > 0 then Off
    else prior
  }

  /** Whether the cycle halves the idle metrics. */
  predicate HalvesIdle(prior: XenFix, xenPresent: bool, total: int) {
    prior != Off && xenPresent && total > XEN_THRESHOLD
  }

  /** What one cycle publishes, from the metrics it built. */
  function Published(prior: XenFix, xenPresent: bool, total: int, metrics: map<string, real>): map<string, real> {
    if HalvesIdle(prior, xenPresent, total) then HalveIdle(metrics) else metrics
  }

  class Collector {
    /** The xenfix setting, carried across cycles. */
    var xenfix: XenFix
    /** The framework's `MAX_COUNTER`, the maximum of every counter. */
    const maxCounter: int

    constructor (maxCounter: int, xenfix: XenFix)
      ensures this.maxCounter == maxCounter && this.xenfix == xenfix
    {
      this.maxCounter := maxCounter;
      this.xenfix := xenfix;
    }

    /**
      One collection cycle. `stat` is the text of `/proc/stat`, or None when
      it is not readable; `xenPresent` says whether `/proc/xen` is a
      directory; `derive` is the host's derivative as this cycle sees it.
      `published` lists the `publish` calls in order.
      A cycle that does not collect publishes nothing and leaves the setting alone.
     */
    method Collect(stat: Option<seq<string>>, xenPresent: bool, derive: Derivative)
      returns (outcome: Outcome, published: seq<(string, real)>)
      modifies this
      ensures outcome == Unreadable <==> stat.None?
      ensures outcome == BadCounter <==> stat.Some? && !FieldsNumeric(Parse(stat.value))
      ensures outcome != Collected ==> published == [] && xenfix == old(xenfix)
      ensures outcome == Collected ==> (
        && stat.Some? && FieldsNumeric(Parse(stat.value))
        && exists metrics :: IsMetricsOf(metrics, Parse(stat.value), derive, maxCounter) &&
             xenfix == NextXenFix(old(xenfix), xenPresent, Cpu0Sum(metrics)) &&
             IsListing(published, Published(old(xenfix), xenPresent, Cpu0Sum(metrics), metrics)))
    {
      if stat.None? {
        outcome, published := Unreadable, [];
      } else {
        var results := ReadStat(stat.value);
        if !FieldsNumeric(results) {
          outcome, published := BadCounter, [];
        } else {
          var metrics := BuildMetrics(results, derive, maxCounter);
          var checked := CheckXen(metrics, xenPresent);
          published := PublishAll(checked);
          outcome := Collected;
        }
      }
    }

    /**
      The xen double-idle check on the metrics of one cycle: it updates the
      setting and returns the metrics to publish.
     */
    method CheckXen(metrics: map<string, real>, xenPresent: bool) returns (checked: map<string, real>)
      modifies this
      ensures xenfix == NextXenFix(old(xenfix), xenPresent, Cpu0Sum(metrics))
      ensures checked == Published(old(xenfix), xenPresent, Cpu0Sum(metrics), metrics)
    {
      checked := metrics;
      if xenfix == Unset || xenfix == On {
        if xenPresent {
          var total := SumMatching(metrics, IsCpu0Metric);
          if total > XEN_THRESHOLD {
            xenfix := On;
            checked := HalveIdleMetrics(metrics);
          } else if total > 0 {
            xenfix := Off;
          }
        } else {
          xenfix := Off;
        }
      }
    }
  }

  // ----- The xenfix setting over several cycles -----

  /** What one cycle's xen check sees. */
  datatype Cycle = Cycle(xenPresent: bool, total: int)

  /**
    The setting after a run of cycles. A run of `Collect` calls moves the
    setting by this fold over its collecting cycles: a cycle that does not
    collect leaves the setting as it was (the third `ensures` of `Collect`),
    and a collecting one applies `NextXenFix` to its CPU 0 sum.
   */
  function XenFixAfter(prior: XenFix, cycles: seq<Cycle>): XenFix
    decreases |cycles|
  {
    if cycles == [] then prior
    else XenFixAfter(NextXenFix(prior, cycles[0].xenPresent, cycles[0].total), cycles[1..])
  }

  /** Once False, the setting stays False, and no later cycle halves anything. */
  lemma {:induction false} OffIsFinal(cycles: seq<Cycle>)
    ensures XenFixAfter(Off, cycles) == Off
    ensures forall i :: 0 <= i < |cycles| ==> !HalvesIdle(XenFixAfter(Off, cycles[..i]), cycles[i].xenPresent, cycles[i].total)
    decreases |cycles|
  {
    if cycles != [] {
      OffIsFinal(cycles[1..]);
      forall i | 0 <= i < |cycles|
        ensures XenFixAfter(Off, cycles[..i]) == Off
      {
        OffIsFinal(cycles[..i]);
      }
    }
  }

  /** An unset setting stays unset exactly while every cycle finds `/proc/xen` and a CPU 0 sum of at most zero. */
  lemma {:induction false} StaysUnsetIff(cycles: seq<Cycle>)
    ensures XenFixAfter(Unset, cycles) == Unset <==>
      forall i :: 0 <= i < |cycles| ==> cycles[i].xenPresent && cycles[i].total <= 0
    decreases |cycles|
  {
    if cycles != [] {
      var next := NextXenFix(Unset, cycles[0].xenPresent, cycles[0].total);
      StaysUnsetIff(cycles[1..]);
      if next != Unset {
        OffIsFinal(cycles[1..]);
        if next == On {
          OnNeedsHighSum(On, cycles[1..]);
          OnReachesOnOrOff(cycles[1..]);
        }
      } else {
        forall i | 1 <= i < |cycles|
          ensures cycles[i] == cycles[1..][i - 1]
        {
        }
      }
    }
  }

  /** From True, a run ends in True or False, never back in the unset state. */
  lemma {:induction false} OnReachesOnOrOff(cycles: seq<Cycle>)
    ensures XenFixAfter(On, cycles) != Unset
    decreases |cycles|
  {
    if cycles != [] {
      var next := NextXenFix(On, cycles[0].xenPresent, cycles[0].total);
      if next == On {
        OnReachesOnOrOff(cycles[1..]);
      } else {
        OffIsFinal(cycles[1..]);
      }
    }
  }

  /** The setting ends True only if it started True or some cycle found `/proc/xen` and a CPU 0 sum above the threshold. */
  lemma {:induction false} OnNeedsHighSum(prior: XenFix, cycles: seq<Cycle>)
    ensures XenFixAfter(prior, cycles) == On ==>
      prior == On || exists i :: 0 <= i < |cycles| && cycles[i].xenPresent && cycles[i].total > XEN_THRESHOLD
    decreases |cycles|
  {
    if cycles != [] {
      var next := NextXenFix(prior, cycles[0].xenPresent, cycles[0].total);
      OnNeedsHighSum(next, cycles[1..]);
      if XenFixAfter(prior, cycles) == On && prior != On {
        if next == On {
          assert cycles[0].xenPresent && cycles[0].total > XEN_THRESHOLD;
        } else {
          var i :| 0 <= i < |cycles[1..]| && cycles[1..][i].xenPresent && cycles[1..][i].total > XEN_THRESHOLD;
          assert cycles[i + 1] == cycles[1..][i];
        }
      }
    }
  }

  /** True is not final: a later cycle with a CPU 0 sum in (0, 110] turns it False, and that cycle halves nothing. */
  lemma OnIsRechecked(total: int)
    requires 0 < total <= XEN_THRESHOLD
    ensures NextXenFix(On, true, total) == Off && !HalvesIdle(On, true, total)
    ensures XenFixAfter(Unset, [Cycle(true, 111), Cycle(true, total)]) == Off
  {
    var cycles := [Cycle(true, 111), Cycle(true, total)];
    assert cycles[1..] == [Cycle(true, total)];
    assert XenFixAfter(Unset, cycles) == XenFixAfter(On, [Cycle(true, total)]);
    assert [Cycle(true, total)][1..] == [];
    assert XenFixAfter(On, [Cycle(true, total)]) == XenFixAfter(Off, []);
  }

  /** Halving happens only in a cycle that leaves the setting True; a True cycle with a sum of at most zero stays True and does not halve. */
  lemma HalvingLeavesOn(prior: XenFix, xenPresent: bool, total: int)
    ensures HalvesIdle(prior, xenPresent, total) ==> NextXenFix(prior, xenPresent, total) == On
    ensures prior == On && xenPresent && total <= 0 ==>
      NextXenFix(prior, xenPresent, total) == On && !HalvesIdle(prior, xenPresent, total)
  {
  }
}
