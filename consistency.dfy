/** The SLA vocabulary of the client (client/consistency/sla.go). */
module Consistency {
  import opened Wrappers

  /** Go's ConsistencyLevel is a named int; the declared levels are numbered by iota. */
  type Level = int

  const EVENTUAL: Level := 0
  const MONOTONIC_READS: Level := 1
  const READ_MY_WRITES: Level := 2
  const BOUNDED: Level := 3
  const STRONG: Level := 4

  /** One millisecond as a time.Duration, which counts nanoseconds. */
  const MILLISECOND: int := 1_000_000

  /** Maximum allowed latency, a single duration in nanoseconds. */
  datatype LatencyBound = LatencyBound(duration: int)

  /** One consistency-latency-utility target; the staleness bound is optional (a nil pointer in Go). */
  datatype SubSla = SubSla(consistency: Level, latency: LatencyBound, stalenessBound: Option<int>, utility: real)

  /** An SLA: its sub-SLAs are ordered from most to least preferred. */
  datatype Sla = Sla(id: string, subSlas: seq<SubSla>)

  /** The zero SubSLA{} Go returns when no sub-SLA was gained. */
  const ZERO_SUB_SLA: SubSla := SubSla(EVENTUAL, LatencyBound(0), None, 0.0)
}
