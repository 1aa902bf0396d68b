/**
 * Shared value types of the adapter: the decoded Prometheus sample as the
 * `github.com/prometheus/common/model` package represents it.
 */
module Model {

  datatype Option<+T> = None | Some(value: T)

  /** The reserved label that carries the metric name (`model.MetricNameLabel`). */
  const NameLabel: string := "__name__"

  /** A label set: label name to label value; keys are unique by construction. */
  type Metric = map<string, string>

  /**
   * One decoded sample. `value` stands for the float64 sample value, which the
   * core only carries through unchanged; `timestamp` is milliseconds since the epoch.
   */
  datatype Sample = Sample(metric: Metric, value: int, timestamp: int)

  /** The metric name of a label set: the `__name__` value, or "" when absent. */
  function MetricName(m: Metric): (name: string)
    ensures NameLabel in m ==> name == m[NameLabel]
    ensures NameLabel !in m ==> name == ""
  {
    if NameLabel in m then m[NameLabel] else ""
  }
}
