/**
  The publishing loop of the CPU collector: every metric of the cycle is
  handed to the host's `publish` once, in the order the dictionary yields
  its keys. The host's `publish` is modelled by the log of its calls.
 */
module Publishing {

  /** `log` publishes the metrics one by one: its last call is one metric with its value, and the calls before it list the others. */
  ghost predicate IsListing<K>(log: seq<(K, real)>, metrics: map<K, real>)
    decreases |log|
  {
    if log == [] then metrics == map[]
    else
      var last := log[|log| - 1];
      last.0 in metrics && metrics[last.0] == last.1 && IsListing(log[..|log| - 1], metrics - {last.0})
  }

  /** Removing one metric leaves one fewer. */
  lemma CardRemove<K>(metrics: map<K, real>, name: K)
    requires name in metrics
    ensures |metrics - {name}| == |metrics| - 1
  {
    assert metrics.Keys == (metrics - {name}).Keys + {name};
  }

  /** A listing makes one call per metric. */
  lemma {:induction false} ListingLength<K>(log: seq<(K, real)>, metrics: map<K, real>)
    requires IsListing(log, metrics)
    ensures |log| == |metrics|
    decreases |log|
  {
    if log != [] {
      var last := log[|log| - 1];
      ListingLength(log[..|log| - 1], metrics - {last.0});
      CardRemove(metrics, last.0);
    }
  }

  /** Every call of a listing publishes a metric with its value. */
  lemma {:induction false} ListingValues<K>(log: seq<(K, real)>, metrics: map<K, real>)
    requires IsListing(log, metrics)
    ensures forall i :: 0 <= i < |log| ==> log[i].0 in metrics && metrics[log[i].0] == log[i].1
    decreases |log|
  {
    if log != [] {
      var n := |log| - 1;
      var earlier := log[..n];
      ListingValues(earlier, metrics - {log[n].0});
      forall i | 0 <= i < n
        ensures log[i].0 in metrics && metrics[log[i].0] == log[i].1
      {
        assert log[i] == earlier[i];
      }
    }
  }

  /** No metric is published twice. */
  lemma {:induction false} ListingDistinct<K>(log: seq<(K, real)>, metrics: map<K, real>)
    requires IsListing(log, metrics)
    ensures forall i, j :: 0 <= i < j < |log| ==> log[i].0 != log[j].0
    decreases |log|
  {
    if log != [] {
      var n := |log| - 1;
      var earlier := log[..n];
      var rest := metrics - {log[n].0};
      ListingDistinct(earlier, rest);
      ListingValues(earlier, rest);
      forall i, j | 0 <= i < j < |log|
        ensures log[i].0 != log[j].0
      {
        assert log[i] == earlier[i];
        if j < n {
          assert log[j] == earlier[j];
        } else {
          assert earlier[i].0 in rest;
        }
      }
    }
  }

  /** Every metric is published. */
  lemma {:induction false} ListingCovers<K>(log: seq<(K, real)>, metrics: map<K, real>)
    requires IsListing(log, metrics)
    ensures forall name :: name in metrics ==> exists i :: 0 <= i < |log| && log[i].0 == name
    decreases |log|
  {
    if log != [] {
      var n := |log| - 1;
      var earlier := log[..n];
      var rest := metrics - {log[n].0};
      ListingCovers(earlier, rest);
      forall name | name in metrics
        ensures exists i :: 0 <= i < |log| && log[i].0 == name
      {
        if name == log[n].0 {
          assert log[n].0 == name;
        } else {
          assert name in rest;
          var i :| 0 <= i < n && earlier[i].0 == name;
          assert log[i].0 == name;
        }
      }
    }
  }

  /** The publishing loop: one `publish(name, value)` per metric, in dictionary order. */
  method PublishAll<K>(metrics: map<K, real>) returns (log: seq<(K, real)>)
    ensures IsListing(log, metrics)
  {
    log := [];
    var names := metrics.Keys;
    // the metrics published so far
    ghost var done: map<K, real> := map[];
    while names != {}
      invariant names <= metrics.Keys
      invariant done.Keys !! names && done.Keys + names == metrics.Keys
      invariant forall k :: k in done ==> done[k] == metrics[k]
      invariant IsListing(log, done)
      decreases names
    {
      var metricName :| metricName in names;
      ghost var done' := done[metricName := metrics[metricName]];
      assert done' - {metricName} == done;
      ghost var earlier := log;
      log := log + [(metricName, metrics[metricName])];
      assert log[..|log| - 1] == earlier;
      done := done';
      names := names - {metricName};
    }
    assert done == metrics;
  }
}
