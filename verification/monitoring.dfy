/** In-memory query metrics, their percentiles and means, threshold drift
    detection and the health status. The metrics file is modelled as the list
    of records appended to it; clocks are parameters. */
module Monitoring {

  import opened Common
  import opened Sorting

  /** One line of the metrics log. */
  datatype QueryRecord = QueryRecord(queryId: string, timestamp: string, latencyMs: real,
                                     recall: real, ndcg: real, refused: bool, confidence: real)

  /** The metrics the collector keeps, one list each. */
  datatype Metric = Latency | Recall | Ndcg | Refused | Confidence

  const AllMetrics: set<Metric> := {Latency, Recall, Ndcg, Refused, Confidence}

  /** The p50, p95 and mean of one metric. */
  datatype MetricStats = MetricStats(p50: real, p95: real, mean: real)

  /** Drift flags, each carrying the value it reports. */
  datatype Drift = Drift(latencyP95: Option<real>, recallMean: Option<real>, refusalRate: Option<real>)
  {
    predicate None()
    {
      latencyP95.None? && recallMean.None? && refusalRate.None?
    }
  }

  datatype Status = Ok | Degraded

  datatype Health = Health(status: Status, uptimeSeconds: real, drift: Drift, timestamp: string)

  const LatencyP95Baseline: real := 1000.0
  const RecallMeanBaseline: real := 0.7
  const RefusedRateBaseline: real := 0.1

  /** `int(n * 0.95)`, computed exactly. */
  function P95Index(n: nat): (r: nat)
    requires n > 0
    ensures n / 2 <= r < n
  {
    (95 * n) / 100
  }

  function MinOf(xs: seq<real>): (r: real)
    requires xs != []
    ensures r in xs && forall i :: 0 <= i < |xs| ==> r <= xs[i]
  {
    if |xs| == 1 then xs[0]
    else
      var m := MinOf(xs[1..]);
      assert forall i :: 1 <= i < |xs| ==> xs[i] == xs[1..][i - 1];
      if xs[0] <= m then xs[0] else m
  }

  function MaxOf(xs: seq<real>): (r: real)
    requires xs != []
    ensures r in xs && forall i :: 0 <= i < |xs| ==> xs[i] <= r
  {
    if |xs| == 1 then xs[0]
    else
      var m := MaxOf(xs[1..]);
      assert forall i :: 1 <= i < |xs| ==> xs[i] == xs[1..][i - 1];
      if xs[0] >= m then xs[0] else m
  }

  /** p50 = sorted[n // 2], p95 = sorted[int(n * 0.95)], and the mean. Both
      percentiles are recorded values, p50 <= p95, and the mean lies between
      the smallest and the largest value. */
  function Summary(values: seq<real>): (r: MetricStats)
    requires values != []
    ensures r.p50 in values && r.p95 in values
    ensures r.p50 <= r.p95
    ensures MinOf(values) <= r.mean <= MaxOf(values)
    ensures r.p50 == SortAsc(values)[|values| / 2] && r.p95 == SortAsc(values)[P95Index(|values|)]
    ensures IsMean(r.mean, values)
  {
    SummaryFacts(values);
    MetricStats(SortAsc(values)[|values| / 2], SortAsc(values)[P95Index(|values|)], Mean(values))
  }

  lemma SummaryFacts(values: seq<real>)
    requires values != []
    ensures var sorted := SortAsc(values);
      && |sorted| == |values|
      && sorted[|values| / 2] in values && sorted[P95Index(|values|)] in values
      && sorted[|values| / 2] <= sorted[P95Index(|values|)]
    ensures MinOf(values) <= Mean(values) <= MaxOf(values)
  {
    var n := |values|;
    PercentilesAreValues(values, SortAsc(values), n / 2, P95Index(n));
    MeanBounds(values);
  }

  lemma PercentilesAreValues(values: seq<real>, sorted: seq<real>, lo: nat, hi: nat)
    requires |sorted| == |values| && NonDecreasing(sorted) && multiset(sorted) == multiset(values)
    requires lo <= hi < |values|
    ensures sorted[lo] in values && sorted[hi] in values && sorted[lo] <= sorted[hi]
  {
    assert sorted[lo] in multiset(sorted) && sorted[hi] in multiset(sorted);
  }

  /** The mean of the values lies between their minimum and maximum. */
  lemma MeanBounds(values: seq<real>)
    requires values != []
    ensures MinOf(values) <= Sum(values) / |values| as real <= MaxOf(values)
  {
    MeanBetween(values, MinOf(values), MaxOf(values));
  }

  lemma MeanBetween(values: seq<real>, lo: real, hi: real)
    requires values != []
    requires forall j :: 0 <= j < |values| ==> lo <= values[j] <= hi
    ensures lo <= Sum(values) / |values| as real <= hi
  {
    SumBounds(values, lo, hi);
    DivideBounds(Sum(values), |values| as real, lo, hi);
  }

  lemma DivideBounds(s: real, n: real, lo: real, hi: real)
    requires n > 0.0 && n * lo <= s <= n * hi
    ensures lo <= s / n <= hi
  {
    assert s / n * n == s;
  }

  /** Python counts True as 1 and False as 0. */
  function AsReals(bs: seq<bool>): (r: seq<real>)
    ensures |r| == |bs| && forall i :: 0 <= i < |bs| ==> r[i] == (if bs[i] then 1.0 else 0.0)
  {
    seq(|bs|, i requires 0 <= i < |bs| => if bs[i] then 1.0 else 0.0)
  }

  /** `sum(1 for r in bs if r)`: how many entries are true. */
  function CountTrue(bs: seq<bool>): (r: nat)
    ensures r <= |bs|
    ensures r > 0 ==> true in bs
    ensures r == multiset(bs)[true]
  {
    if bs == [] then 0
    else
      assert bs == [bs[0]] + bs[1..];
      CountTrue(bs[1..]) + (if bs[0] then 1 else 0)
  }

  /** The share of refused queries; 0 when none were recorded. */
  function RefusedRate(refused: seq<bool>): (r: real)
    ensures 0.0 <= r <= 1.0
    ensures refused == [] ==> r == 0.0
    ensures r > 0.0 ==> true in refused
    ensures refused != [] ==> IsRatio(r, CountTrue(refused), |refused|)
  {
    if refused == [] then 0.0 else Ratio(CountTrue(refused), |refused|)
  }

  class MetricsCollector {
    const metricsPath: string
    var latency: seq<real>
    var recall: seq<real>
    var ndcg: seq<real>
    var refused: seq<bool>
    var confidence: seq<real>
    /** The records appended to the metrics file. */
    var written: seq<QueryRecord>

    /** Every query recorded one value in each list, and the i-th value of
        each list is the one in the i-th record written. */
    ghost predicate Valid()
      reads this
    {
      && |latency| == |recall| == |ndcg| == |refused| == |confidence| == |written|
      && forall i :: 0 <= i < |written| ==>
           && latency[i] == written[i].latencyMs && recall[i] == written[i].recall
           && ndcg[i] == written[i].ndcg && refused[i] == written[i].refused
           && confidence[i] == written[i].confidence
    }

    constructor (metricsPath: string)
      ensures Valid()
      ensures this.metricsPath == metricsPath
      ensures latency == [] && recall == [] && ndcg == [] && refused == [] && confidence == [] && written == []
    {
      this.metricsPath := metricsPath;
      latency, recall, ndcg, refused, confidence, written := [], [], [], [], [], [];
    }

    /** `record_query`: one record written and one value appended to each
        list. */
    method RecordQuery(queryId: string, now: string, latencyMs: real, retrievalRecall: real,
                       rankerNdcg: real, llmRefused: bool, conf: real)
      requires Valid()
      modifies this
      ensures Valid()
      ensures latency == old(latency) + [latencyMs] && recall == old(recall) + [retrievalRecall]
      ensures ndcg == old(ndcg) + [rankerNdcg] && refused == old(refused) + [llmRefused]
      ensures confidence == old(confidence) + [conf]
      ensures written == old(written) + [QueryRecord(queryId, now, latencyMs, retrievalRecall, rankerNdcg, llmRefused, conf)]
    {
      written := written + [QueryRecord(queryId, now, latencyMs, retrievalRecall, rankerNdcg, llmRefused, conf)];
      latency := latency + [latencyMs];
      recall := recall + [retrievalRecall];
      ndcg := ndcg + [rankerNdcg];
      refused := refused + [llmRefused];
      confidence := confidence + [conf];
    }

    /** The values recorded for one metric; refusals count as 1 and answers
        as 0. */
    function Values(metric: Metric): (r: seq<real>)
      reads this
    {
      match metric
      case Latency => latency
      case Recall => recall
      case Ndcg => ndcg
      case Refused => AsReals(refused)
      case Confidence => confidence
    }

    /** `get_current_stats`: a summary for exactly the metrics with at least
        one value. */
    function CurrentStats(): (r: map<Metric, MetricStats>)
      reads this
      ensures forall k :: k in r <==> Values(k) != []
      ensures forall k :: k in r ==> r[k] == Summary(Values(k))
    {
      map k | k in AllMetrics && Values(k) != [] :: Summary(Values(k))
    }

    /** `detect_drift`: latency when p95 is present, non-zero and above
        1000 ms; recall when the mean is present, non-zero and below 0.7;
        refusal when more than a tenth of the queries were refused. */
    function DetectDrift(): (r: Drift)
      reads this
      ensures r.latencyP95.Some? <==>
        latency != [] && Summary(latency).p95 != 0.0 && Summary(latency).p95 > LatencyP95Baseline
      ensures r.recallMean.Some? <==>
        recall != [] && Summary(recall).mean != 0.0 && Summary(recall).mean < RecallMeanBaseline
      ensures r.refusalRate.Some? <==> RefusedRate(refused) > RefusedRateBaseline
    {
      var stats := CurrentStats();
      assert Latency in stats <==> latency != [];
      assert Recall in stats <==> recall != [];
      var lat := if Latency in stats && stats[Latency].p95 != 0.0 && stats[Latency].p95 > LatencyP95Baseline
        then Some(stats[Latency].p95) else None;
      var rec := if Recall in stats && stats[Recall].mean != 0.0 && stats[Recall].mean < RecallMeanBaseline
        then Some(stats[Recall].mean) else None;
      var rate := RefusedRate(refused);
      Drift(lat, rec, if rate > RefusedRateBaseline then Some(rate) else None)
    }
  }

  /** Before any query is recorded there is no drift. */
  lemma NoQueriesNoDrift(m: MetricsCollector)
    requires m.latency == [] && m.recall == [] && m.refused == []
    ensures m.DetectDrift().None()
  {
  }

  /** Every drift flag is witnessed by a recorded value beyond its
      threshold. */
  lemma DriftHasWitness(m: MetricsCollector)
    ensures m.DetectDrift().latencyP95.Some? ==> exists i :: 0 <= i < |m.latency| && m.latency[i] > LatencyP95Baseline
    ensures m.DetectDrift().recallMean.Some? ==> exists i :: 0 <= i < |m.recall| && m.recall[i] < RecallMeanBaseline
    ensures m.DetectDrift().refusalRate.Some? ==> true in m.refused
  {
    if m.DetectDrift().latencyP95.Some? {
      var p95 := Summary(m.latency).p95;
      var i :| 0 <= i < |m.latency| && m.latency[i] == p95;
    }
    if m.DetectDrift().recallMean.Some? {
      var lo := MinOf(m.recall);
      var i :| 0 <= i < |m.recall| && m.recall[i] == lo;
    }
  }

  class HealthCheck {
    const metrics: MetricsCollector
    const startupTime: real

    constructor (metrics: MetricsCollector, now: real)
      ensures this.metrics == metrics && startupTime == now
    {
      this.metrics := metrics;
      startupTime := now;
    }

    /** `get_health`: "ok" exactly when no drift is detected. */
    function GetHealth(now: real, timestamp: string): (r: Health)
      reads this, metrics
      ensures r.status == Ok <==> metrics.DetectDrift().None()
      ensures r.drift == metrics.DetectDrift()
      ensures r.uptimeSeconds == now - startupTime
    {
      var drift := metrics.DetectDrift();
      Health(if drift.None() then Ok else Degraded, now - startupTime, drift, timestamp)
    }
  }
}
