/**
 * The adapter's entry point: the choice of leader election made from the
 * configuration at start-up, the flattening of a decoded remote-write request
 * into samples, and the leadership-gated dispatch of a batch to a writer with
 * its request timestamp, counters and duration histogram.
 */
module Adapter {
  import opened Model

  // ---------------------------------------------------------------------------
  // Leader election set-up
  // ---------------------------------------------------------------------------

  /**
   * The flags `initElector` reads. Durations are in nanoseconds, as Go's
   * `time.Duration`; the timeout defaults to -1, meaning "not set".
   */
  datatype Config = Config(
    restElection: bool,
    haGroupLockID: int,
    prometheusTimeout: int,
    electionInterval: int)

  /** Why the process exits during set-up. */
  datatype FatalReason = BothBackends | TimeoutUnset | LockCreationFailed

  /**
   * The outcome of `initElector`: the process exits, or runs with a REST
   * elector, with no elector, or with an elector scheduled over a PostgreSQL
   * advisory lock (with or without the Prometheus liveness monitor).
   */
  datatype ElectorSetup =
    | Fatal(reason: FatalReason)
    | RestElector
    | NoElector
    | AdvisoryLockElector(lockId: int, interval: int, livenessMonitor: bool)

  /**
   * `initElector`. Whether creating the advisory lock fails is decided by
   * code this model does not see, so it is the input `lockFails`.
   */
  function InitElector(cfg: Config, lockFails: bool): (r: ElectorSetup)
    ensures r == Fatal(BothBackends) <==> cfg.restElection && cfg.haGroupLockID != 0
    ensures r == RestElector <==> cfg.restElection && cfg.haGroupLockID == 0
    ensures r == NoElector <==> !cfg.restElection && cfg.haGroupLockID == 0
    ensures r == Fatal(TimeoutUnset) <==> !cfg.restElection && cfg.haGroupLockID != 0 && cfg.prometheusTimeout == -1
    ensures r == Fatal(LockCreationFailed) <==>
      !cfg.restElection && cfg.haGroupLockID != 0 && cfg.prometheusTimeout != -1 && lockFails
    ensures r.AdvisoryLockElector? <==>
      !cfg.restElection && cfg.haGroupLockID != 0 && cfg.prometheusTimeout != -1 && !lockFails
    ensures r.AdvisoryLockElector? ==>
      r.lockId == cfg.haGroupLockID && r.interval == cfg.electionInterval && (r.livenessMonitor <==> cfg.prometheusTimeout != 0)
  {
    if cfg.restElection && cfg.haGroupLockID != 0 then Fatal(BothBackends)
    else if cfg.restElection then RestElector
    else if cfg.haGroupLockID == 0 then NoElector
    else if cfg.prometheusTimeout == -1 then Fatal(TimeoutUnset)
    else if lockFails then Fatal(LockCreationFailed)
    else AdvisoryLockElector(cfg.haGroupLockID, cfg.electionInterval, cfg.prometheusTimeout != 0)
  }

  /**
   * Only the default -1 counts as an unset timeout: any other negative
   * timeout passes the check and starts the liveness monitor.
   */
  lemma OnlyMinusOneRejected(cfg: Config)
    requires !cfg.restElection && cfg.haGroupLockID != 0 && cfg.prometheusTimeout < -1
    ensures InitElector(cfg, false) == AdvisoryLockElector(cfg.haGroupLockID, cfg.electionInterval, true)
  {
  }

  // ---------------------------------------------------------------------------
  // Flattening a remote-write request
  // ---------------------------------------------------------------------------

  datatype Label = Label(name: string, value: string)

  /** A protobuf sample: a float value (an `int` here) and a timestamp in milliseconds. */
  datatype PbSample = PbSample(value: int, timestamp: int)

  datatype TimeSeries = TimeSeries(labels: seq<Label>, samples: seq<PbSample>)

  datatype WriteRequest = WriteRequest(timeseries: seq<TimeSeries>)

  /** The label set of a series: each label assigned in turn, so a repeated name keeps its last value. */
  function MetricOf(labels: seq<Label>): Metric
    decreases |labels|
  {
    if |labels| == 0 then map[]
    else MetricOf(labels[..|labels| - 1])[labels[|labels| - 1].name := labels[|labels| - 1].value]
  }

  /** The samples of one series, each carrying the series' label set. */
  function SeriesSamples(ts: TimeSeries): seq<Sample>
  {
    seq(|ts.samples|, k requires 0 <= k < |ts.samples| => Sample(MetricOf(ts.labels), ts.samples[k].value, ts.samples[k].timestamp))
  }

  /** The samples of all series, series by series. */
  function Flatten(tss: seq<TimeSeries>): seq<Sample>
    decreases |tss|
  {
    if |tss| == 0 then [] else Flatten(tss[..|tss| - 1]) + SeriesSamples(tss[|tss| - 1])
  }

  /** The number of samples of the series `tss`. */
  function TotalSamples(tss: seq<TimeSeries>): nat
    decreases |tss|
  {
    if |tss| == 0 then 0 else TotalSamples(tss[..|tss| - 1]) + |tss[|tss| - 1].samples|
  }

  /** A label's name is in the label set, with the value of the last label of that name. */
  lemma {:induction false} MetricOfLastWins(labels: seq<Label>, j: nat)
    requires j < |labels|
    requires forall k :: j < k < |labels| ==> labels[k].name != labels[j].name
    ensures labels[j].name in MetricOf(labels) && MetricOf(labels)[labels[j].name] == labels[j].value
    decreases |labels|
  {
    if j < |labels| - 1 {
      var init := labels[..|labels| - 1];
      forall k | j < k < |init| ensures init[k].name != init[j].name {
        assert init[k] == labels[k];
      }
      MetricOfLastWins(init, j);
    }
  }

  /** A label set holds exactly the names of the series' labels. */
  lemma {:induction false} MetricOfKeys(labels: seq<Label>)
    ensures MetricOf(labels).Keys == set k | 0 <= k < |labels| :: labels[k].name
    decreases |labels|
  {
    if |labels| > 0 {
      var init := labels[..|labels| - 1];
      MetricOfKeys(init);
      var names := set k | 0 <= k < |labels| :: labels[k].name;
      var initNames := set k | 0 <= k < |init| :: init[k].name;
      forall x | x in names ensures x in initNames + {labels[|labels| - 1].name} {
        var k :| 0 <= k < |labels| && labels[k].name == x;
        if k < |init| { assert init[k] == labels[k]; }
      }
      forall x | x in initNames ensures x in names {
        var k :| 0 <= k < |init| && init[k].name == x;
        assert init[k] == labels[k];
      }
    }
  }

  /** The flattened request has one sample per protobuf sample. */
  lemma {:induction false} FlattenLength(tss: seq<TimeSeries>)
    ensures |Flatten(tss)| == TotalSamples(tss)
    decreases |tss|
  {
    if |tss| > 0 {
      FlattenLength(tss[..|tss| - 1]);
    }
  }

  /**
   * Series-major order: the `k`-th sample of series `i` sits right after the
   * samples of the series before `i`, with series `i`'s label set.
   */
  lemma {:induction false} FlattenIndex(tss: seq<TimeSeries>, i: nat, k: nat)
    requires i < |tss| && k < |tss[i].samples|
    ensures TotalSamples(tss[..i]) + k < |Flatten(tss)|
    ensures Flatten(tss)[TotalSamples(tss[..i]) + k]
      == Sample(MetricOf(tss[i].labels), tss[i].samples[k].value, tss[i].samples[k].timestamp)
    decreases |tss|
  {
    var n := |tss| - 1;
    var init := tss[..n];
    FlattenLength(init);
    FlattenLength(tss);
    if i < n {
      assert init[..i] == tss[..i];
      assert init[i] == tss[i];
      FlattenIndex(init, i, k);
    } else {
      assert init == tss[..i];
    }
  }

  /** The label set a loop builds by assigning the labels in turn. */
  method BuildMetric(labels: seq<Label>) returns (metric: Metric)
    ensures metric == MetricOf(labels)
  {
    metric := map[];
    for j := 0 to |labels|
      invariant metric == MetricOf(labels[..j])
    {
      assert labels[..j + 1][..j] == labels[..j];
      metric := metric[labels[j].name := labels[j].value];
    }
    assert labels[..|labels|] == labels;
  }

  /** `protoToSamples`: every sample of every series, in order, with its series' label set. */
  method ProtoToSamples(req: WriteRequest) returns (samples: seq<Sample>)
    ensures samples == Flatten(req.timeseries)
    ensures |samples| == TotalSamples(req.timeseries)
  {
    var tss := req.timeseries;
    samples := [];
    for i := 0 to |tss|
      invariant samples == Flatten(tss[..i])
    {
      var ts := tss[i];
      var metric := BuildMetric(ts.labels);
      ghost var before := samples;
      for k := 0 to |ts.samples|
        invariant samples == before + SeriesSamples(ts)[..k]
      {
        assert SeriesSamples(ts)[..k + 1] == SeriesSamples(ts)[..k] + [SeriesSamples(ts)[k]];
        samples := samples + [Sample(metric, ts.samples[k].value, ts.samples[k].timestamp)];
      }
      assert SeriesSamples(ts)[..|ts.samples|] == SeriesSamples(ts);
      assert tss[..i + 1][..i] == tss[..i];
    }
    assert tss[..|tss|] == tss;
    FlattenLength(tss);
  }

  // ---------------------------------------------------------------------------
  // Leadership-gated dispatch
  // ---------------------------------------------------------------------------

  /** What the elector answers: none is configured, the check fails, or this instance leads or follows. */
  datatype LeaderAnswer = NoElectorSet | LeaderError(error: string) | Leader | Follower

  /** What the writer's `Write` returns when it is called. */
  datatype WriteOutcome = WriteOk | WriteFailed(error: string)

  /** One call of the writer's `Write`: the writer's name, the batch size and whether it succeeded. */
  datatype WriteCall = WriteCall(name: string, count: nat, ok: bool)

  /** A counter of a vector that was never incremented reads 0. */
  function Count(m: map<string, nat>, name: string): nat
  {
    if name in m then m[name] else 0
  }

  /** The observations of a histogram of a vector; none for a label never observed. */
  function Observations(m: map<string, seq<int>>, name: string): seq<int>
  {
    if name in m then m[name] else []
  }

  /** The samples the calls in `log` to writer `name` hand over, counting successful (`ok`) or failed calls. */
  function Handed(log: seq<WriteCall>, name: string, ok: bool): nat
    decreases |log|
  {
    if |log| == 0 then 0
    else Handed(log[..|log| - 1], name, ok) + (if log[|log| - 1].name == name && log[|log| - 1].ok == ok then log[|log| - 1].count else 0)
  }

  /** The number of successful calls in `log` to writer `name`. */
  function Successes(log: seq<WriteCall>, name: string): nat
    decreases |log|
  {
    if |log| == 0 then 0
    else Successes(log[..|log| - 1], name) + (if log[|log| - 1].name == name && log[|log| - 1].ok then 1 else 0)
  }

  /**
   * The package-level state `sendSamples` updates: the time of the last
   * request, the sent and failed sample counters and the batch duration
   * histogram, each a vector by writer name; and, as a ghost, the calls made
   * to the writer so far.
   */
  class Dispatcher {
    var lastRequestUnixNano: int
    var sentSamples: map<string, nat>
    var failedSamples: map<string, nat>
    var sentBatchDuration: map<string, seq<int>>
    ghost var writes: seq<WriteCall>

    /** The counters and the histogram account for exactly the calls made to the writer. */
    ghost predicate Valid()
      reads this
    {
      && (forall name :: Count(sentSamples, name) == Handed(writes, name, true))
      && (forall name :: Count(failedSamples, name) == Handed(writes, name, false))
      && (forall name :: |Observations(sentBatchDuration, name)| == Successes(writes, name))
    }

    /** Start-up: the last-request time is the start time and nothing was sent. */
    constructor (start: int)
      ensures Valid()
      ensures lastRequestUnixNano == start && sentSamples == map[] && failedSamples == map[]
      ensures sentBatchDuration == map[] && writes == []
    {
      lastRequestUnixNano := start;
      sentSamples := map[];
      failedSamples := map[];
      sentBatchDuration := map[];
      writes := [];
    }

    /**
     * `sendSamples` with writer `name`: store the request time `now`; unless
     * the elector says otherwise, hand the batch to the writer (whose answer
     * is `outcome`) and count it as sent or failed, and on success observe
     * the call's `duration`.
     */
    method SendSamples(name: string, samples: seq<Sample>, now: int, leader: LeaderAnswer, outcome: WriteOutcome, duration: int)
      returns (err: Option<string>)
      requires Valid()
      modifies this
      ensures Valid()
      ensures lastRequestUnixNano == now
      ensures leader.LeaderError? ==> err == Some(leader.error)
      ensures leader.Follower? ==> err == None
      ensures leader.LeaderError? || leader.Follower? ==>
        && writes == old(writes)
        && sentSamples == old(sentSamples) && failedSamples == old(failedSamples)
        && sentBatchDuration == old(sentBatchDuration)
      ensures (leader.NoElectorSet? || leader.Leader?) && outcome.WriteFailed? ==>
        && err == Some(outcome.error)
        && writes == old(writes) + [WriteCall(name, |samples|, false)]
        && failedSamples == old(failedSamples)[name := Count(old(failedSamples), name) + |samples|]
        && sentSamples == old(sentSamples) && sentBatchDuration == old(sentBatchDuration)
      ensures (leader.NoElectorSet? || leader.Leader?) && outcome.WriteOk? ==>
        && err == None
        && writes == old(writes) + [WriteCall(name, |samples|, true)]
        && sentSamples == old(sentSamples)[name := Count(old(sentSamples), name) + |samples|]
        && sentBatchDuration == old(sentBatchDuration)[name := Observations(old(sentBatchDuration), name) + [duration]]
        && failedSamples == old(failedSamples)
    {
      lastRequestUnixNano := now;
      var shouldWrite := true;
      if !leader.NoElectorSet? {
        if leader.LeaderError? {
          return Some(leader.error);
        }
        shouldWrite := leader.Leader?;
      }
      if !shouldWrite {
        return None;
      }
      ghost var log := writes;
      writes := writes + [WriteCall(name, |samples|, outcome.WriteOk?)];
      assert writes[..|writes| - 1] == log;
      if outcome.WriteFailed? {
        failedSamples := failedSamples[name := Count(failedSamples, name) + |samples|];
        return Some(outcome.error);
      }
      sentSamples := sentSamples[name := Count(sentSamples, name) + |samples|];
      sentBatchDuration := sentBatchDuration[name := Observations(sentBatchDuration, name) + [duration]];
      return None;
    }
  }
}
