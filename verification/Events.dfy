/** The messages of the monitoring tree (metrics_aggregator.h). */
module Events {

  datatype Option<+T> = None | Some(value: T)

  /** One metric of a message: what the contributing ranks measured, folded. */
  datatype Aggregate = Aggregate(min: int, max: int, sum: int)

  /** metrics_t; metrics_nr is the length of info, startTime exists in the benchmarking build. */
  datatype Event = Event(
    info: seq<Aggregate>,
    maxDegree: int,
    updateFile: bool,
    parentRank: int,
    nprocs: int,
    timestamp: int,
    quit: bool,
    startTime: real)

  /** The marker an inner node writes into the start time of its own event. */
  const NO_START: real := -1.0

  /** A static metrics_t before its first assignment. */
  const ZERO_EVENT := Event([], 0, false, 0, 0, 0, false, 0.0)

  function Combine(a: Aggregate, b: Aggregate): Aggregate {
    Aggregate(if a.min > b.min then b.min else a.min,
              if a.max < b.max then b.max else a.max,
              a.sum + b.sum)
  }

  /** A freshly sampled value is its own minimum, maximum and sum (compute_metric). */
  function Sampled(values: seq<int>): seq<Aggregate> {
    seq(|values|, j requires 0 <= j < |values| => Aggregate(values[j], values[j], values[j]))
  }
}
