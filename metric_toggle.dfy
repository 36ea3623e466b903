/** The metric toggle of the dashboard (src/components/custom/MetricToggle.tsx):
    the five metrics on offer and the rule that switches one on or off
    without ever leaving the active set empty. */
module MetricToggle {
  import opened Wrappers
  import opened Seqs
  import opened Types

  /** The buttons, in the order they are offered. */
  const Metrics: seq<MetricType> := [Pageviews, Visits, Visitors, Bounces, AvgTime]

  /** The caption of each button. */
  function Caption(m: MetricType): string {
    match m
    case Pageviews => "Pageviews"
    case Visits => "Visits"
    case Visitors => "Visitors"
    case Bounces => "Bounces"
    case AvgTime => "Avg. Time"
  }

  /** Every metric is offered exactly once. */
  lemma MetricsOfferedOnce(m: MetricType)
    ensures m in Metrics
    ensures forall i, j :: 0 <= i < j < |Metrics| ==> Metrics[i] != Metrics[j]
  {
  }

  /** The test `m => m !== metricKey` of the removal filter. */
  function Other(m: MetricType): MetricType -> bool {
    x => x != m
  }

  /** `handleToggle(m)`: the list passed to onChange, or None when onChange
      is not called (m is the only active metric). An active metric is
      removed, keeping the others in order; an inactive one is appended. */
  function HandleToggle(active: seq<MetricType>, m: MetricType): (r: Option<seq<MetricType>>)
    ensures r.None? <==> m in active && |active| == 1
    ensures r.Some? ==> (m in r.value <==> m !in active)
    ensures r.Some? ==> forall x :: x != m ==> (x in r.value <==> x in active)
    ensures r.Some? && m in active ==> IsSubsequence(r.value, active)
    ensures r.Some? && m in active ==> KeepsExactly(r.value, active, Other(m))
    ensures r.Some? && m !in active ==> |r.value| == |active| + 1 && r.value[..|active|] == active
  {
    if m in active then
      if |active| == 1 then None
      else
        FilterKeepsExactly(active, Other(m));
        FilterMembers(active, Other(m));
        Some(Filter(active, Other(m)))
    else Some(active + [m])
  }

  predicate NoRepeats(ms: seq<MetricType>) {
    forall i, j :: 0 <= i < j < |ms| ==> ms[i] != ms[j]
  }

  /** A filter of a list without repeats has no repeats. */
  lemma {:induction false} FilterNoRepeats(ms: seq<MetricType>, p: MetricType -> bool)
    requires NoRepeats(ms)
    ensures NoRepeats(Filter(ms, p))
  {
    if ms != [] {
      FilterNoRepeats(ms[1..], p);
      FilterKeepsExactly(ms[1..], p);
      assert ms[0] !in ms[1..];
    }
  }

  /** Toggling keeps a list free of repeats, and a non-empty list stays
      non-empty. */
  lemma ToggleKeepsShape(active: seq<MetricType>, m: MetricType)
    requires NoRepeats(active) && active != []
    ensures var r := HandleToggle(active, m);
      r.Some? ==> NoRepeats(r.value) && r.value != []
  {
    if m in active && |active| > 1 {
      FilterNoRepeats(active, Other(m));
      var other := if active[0] == m then active[1] else active[0];
      assert other in active && other != m;
    }
  }

  /** Adding an inactive metric and toggling it again restores the list. */
  lemma ToggleTwiceRestores(active: seq<MetricType>, m: MetricType)
    requires m !in active && active != []
    ensures HandleToggle(active, m) == Some(active + [m])
    ensures HandleToggle(active + [m], m) == Some(active)
  {
    assert !Other(m)(m) && forall x :: x in active ==> Other(m)(x);
    FilterAppend(active, m, Other(m));
    FilterKeepsAll(active, Other(m));
    assert Filter(active + [m], Other(m)) == active;
    assert m in active + [m] && |active + [m]| > 1;
  }
}
