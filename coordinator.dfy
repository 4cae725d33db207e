/**
 * The configuration coordinator (configuration_coordinator/coordinator.go).
 * Clients report utility drops. A report is accepted at most once per 2
 * seconds per client-region, and an accepted report is analysed: the most
 * frequent read pattern names a node and the sub-SLAs it missed. When the
 * node is the primary of shard 0 and it missed a latency target of an
 * intermediate consistency, the coordinator asks the closest other node to
 * halve its replication interval, subject to a floor and a cooldown.
 *
 * Time is a parameter (nanoseconds, as time.Time differences are). The
 * JSON decoding of the histogram key and the HTTP reply of the secondary
 * are parameters too.
 */
module Coordinator {
  import opened Wrappers
  import opened Consistency
  import opened Topology

  const SECOND: int := 1000 * MILLISECOND

  /** reportCooldown. */
  const REPORT_COOLDOWN: int := 2 * SECOND

  /** The starting minimum of the closest-node search (1e9). */
  const NO_RTT: real := 1_000_000_000.0

  /** The frequency at or below which no further halving is requested. */
  const FREQUENCY_FLOOR: real := 5.0

  const STATUS_OK: int := 200
  const STATUS_BAD_REQUEST: int := 400
  const STATUS_TOO_MANY_REQUESTS: int := 429

  /** A shard as the coordinator loads it: secondaries carry replication frequencies. */
  datatype CoordShard = CoordShard(shardId: int, rangeStart: int, rangeEnd: int, primary: string,
                                   secondaryIds: seq<string>, secondaries: seq<string>,
                                   defaultRepFreq: real, replicationFreqs: map<string, real>)

  datatype CoordConfig = CoordConfig(nodes: seq<StorageNode>, shards: seq<CoordShard>)

  /** UtilityDropReport. */
  datatype Report = Report(clientId: string, region: string, avgUtility: real, sla: Sla,
                           readHistogram: map<string, int>, rtts: map<string, real>)

  datatype HistogramEntry = HistogramEntry(subSla: SubSla, status: string)

  /** The decoded form of a histogram key. */
  datatype HistogramSummary = HistogramSummary(node: string, summary: seq<HistogramEntry>)

  /** How one analysis ended. */
  datatype Outcome =
    | NoPattern                         // no histogram entry with a positive count
    | BadKey                            // the analysed key did not decode
    | NoCandidate                       // no latency miss at an intermediate level on the primary
    | Panic                             // no configuration (or no shard 0) to consult
    | NoClosest                         // no other node with an RTT under 1e9
    | CoolingDown                       // the node was adjusted too recently
    | AtFloor                           // the frequency is already at most 5
    | ContactFailed                     // the request could not be sent
    | Refused(status: int)              // the node answered with a non-OK status
    | Halved(node: string, from: real, to: real)

  /** Outcomes reached after the primary's candidate entry was found. */
  predicate Adjusting(r: Outcome) {
    r.NoClosest? || r.CoolingDown? || r.AtFloor? || r.ContactFailed? || r.Refused? || r.Halved?
  }

  /** Go's float64-to-Duration conversion truncates toward zero. */
  function Trunc(x: real): (n: int)
    ensures x >= 0.0 ==> n as real <= x < (n + 1) as real
    ensures x < 0.0 ==> (n - 1) as real < x <= n as real
  {
    if x >= 0.0 then x.Floor else -((-x).Floor)
  }

  // ---------------------------------------------------------------------------
  // Loading the configuration

  predicate SecondariesKnown(config: CoordConfig) {
    var book := AddressBook(config.nodes);
    forall i, j :: 0 <= i < |config.shards| && 0 <= j < |config.shards[i].secondaryIds| ==>
      config.shards[i].secondaryIds[j] in book
  }

  /** Every listed address starts at the given frequency, and nothing else is listed. */
  predicate StartsAt(freqs: map<string, real>, addrs: seq<string>, freq: real) {
    && (forall a :: a in freqs ==> a in addrs && freqs[a] == freq)
    && (forall j :: 0 <= j < |addrs| ==> addrs[j] in freqs)
  }

  /** One shard after loading: secondaries resolved in order, each at the default frequency. */
  predicate Populated(book: map<string, string>, parsed: CoordShard, shard: CoordShard) {
    && shard == parsed.(secondaries := shard.secondaries, replicationFreqs := shard.replicationFreqs)
    && Resolved(book, parsed.secondaryIds, shard.secondaries)
    && StartsAt(shard.replicationFreqs, shard.secondaries, parsed.defaultRepFreq)
  }

  method PopulateShard(book: map<string, string>, parsed: CoordShard) returns (r: Result<CoordShard>)
    ensures r.Ok? <==> forall j :: 0 <= j < |parsed.secondaryIds| ==> parsed.secondaryIds[j] in book
    ensures r.Ok? ==> Populated(book, parsed, r.value)
  {
    var ids := parsed.secondaryIds;
    var addrs: seq<string> := [];
    var freqs: map<string, real> := map[];
    for j := 0 to |ids|
      invariant Resolved(book, ids[..j], addrs)
      invariant StartsAt(freqs, addrs, parsed.defaultRepFreq)
    {
      if ids[j] !in book {
        return Err("could not find address for secondary ID " + ids[j]);
      }
      addrs := addrs + [book[ids[j]]];
      freqs := freqs[book[ids[j]] := parsed.defaultRepFreq];
    }
    assert ids[..|ids|] == ids;
    r := Ok(parsed.(secondaries := addrs, replicationFreqs := freqs));
  }

  /** The loading loop of LoadReplicationConfig: the first unknown secondary id is an error. */
  method Populate(parsed: CoordConfig) returns (r: Result<CoordConfig>)
    ensures r.Ok? <==> SecondariesKnown(parsed)
    ensures r.Ok? ==> r.value.nodes == parsed.nodes && |r.value.shards| == |parsed.shards|
    ensures r.Ok? ==> forall i :: 0 <= i < |parsed.shards| ==>
      Populated(AddressBook(parsed.nodes), parsed.shards[i], r.value.shards[i])
  {
    var book := BuildAddressBook(parsed.nodes);
    var shards := parsed.shards;
    for i := 0 to |shards|
      invariant |shards| == |parsed.shards|
      invariant forall m :: i <= m < |shards| ==> shards[m] == parsed.shards[m]
      invariant forall m :: 0 <= m < i ==> Populated(book, parsed.shards[m], shards[m])
    {
      var shard := PopulateShard(book, shards[i]);
      if shard.Err? {
        assert !SecondariesKnown(parsed) by {
          var j :| 0 <= j < |parsed.shards[i].secondaryIds| && parsed.shards[i].secondaryIds[j] !in book;
        }
        return Err(shard.message);
      }
      shards := shards[i := shard.value];
    }
    r := Ok(parsed.(shards := shards));
  }

  /** isPrimaryForShard: None where Go dereferences a missing configuration or shard. */
  function IsPrimaryForShard(config: Option<CoordConfig>, node: string): (r: Option<bool>)
    ensures r.None? <==> config.None? || |config.value.shards| == 0
    ensures r == Some(true) <==> config.Some? && |config.value.shards| > 0 && config.value.shards[0].primary == node
  {
    if config.None? || |config.value.shards| == 0 then None
    else Some(node == config.value.shards[0].primary)
  }

  // ---------------------------------------------------------------------------
  // Report admission

  function ReportKey(report: Report): string {
    report.clientId + "-" + report.region
  }

  /** A report is skipped while an accepted report for its key is less than 2s old. */
  predicate Throttled(last: map<string, int>, key: string, now: int) {
    key in last && now - last[key] < REPORT_COOLDOWN
  }

  /** The admission times after a series of (key, time) arrivals. */
  function AdmitAll(last: map<string, int>, arrivals: seq<(string, int)>): map<string, int> {
    if arrivals == [] then last
    else
      var before := AdmitAll(last, arrivals[..|arrivals| - 1]);
      var (key, now) := arrivals[|arrivals| - 1];
      if Throttled(before, key, now) then before else before[key := now]
  }

  /** Arrival i was accepted. */
  predicate Admitted(last: map<string, int>, arrivals: seq<(string, int)>, i: nat)
    requires i < |arrivals|
  {
    !Throttled(AdmitAll(last, arrivals[..i]), arrivals[i].0, arrivals[i].1)
  }

  predicate InTimeOrder(arrivals: seq<(string, int)>) {
    forall i, j :: 0 <= i < j < |arrivals| ==> arrivals[i].1 <= arrivals[j].1
  }

  /** After an accepted arrival, its key stays recorded with a time no earlier than it. */
  lemma {:induction false} AdmittedStaysRecorded(last: map<string, int>, arrivals: seq<(string, int)>, i: nat, m: nat)
    requires InTimeOrder(arrivals)
    requires i < m <= |arrivals| && Admitted(last, arrivals, i)
    ensures arrivals[i].0 in AdmitAll(last, arrivals[..m])
    ensures AdmitAll(last, arrivals[..m])[arrivals[i].0] >= arrivals[i].1
  {
    if m == i + 1 {
      assert arrivals[..m][..i] == arrivals[..i];
    } else {
      AdmittedStaysRecorded(last, arrivals, i, m - 1);
      assert arrivals[..m][..m - 1] == arrivals[..m - 1];
    }
  }

  /** Two accepted reports with the same key are at least the cooldown apart. */
  lemma AcceptedReportsSpaced(last: map<string, int>, arrivals: seq<(string, int)>, i: nat, j: nat)
    requires InTimeOrder(arrivals)
    requires i < j < |arrivals| && arrivals[i].0 == arrivals[j].0
    requires Admitted(last, arrivals, i) && Admitted(last, arrivals, j)
    ensures arrivals[j].1 - arrivals[i].1 >= REPORT_COOLDOWN
  {
    AdmittedStaysRecorded(last, arrivals, i, j);
  }

  // ---------------------------------------------------------------------------
  // Analysis helpers

  /** The range loop over the histogram: a key with the strictly largest positive count. */
  method MostFrequent(histogram: map<string, int>) returns (maxKey: string, maxCount: int)
    ensures maxCount >= 0
    ensures maxCount == 0 <==> forall k :: k in histogram ==> histogram[k] <= 0
    ensures maxCount == 0 ==> maxKey == ""
    ensures maxCount > 0 ==> maxKey in histogram && histogram[maxKey] == maxCount
    ensures forall k :: k in histogram ==> histogram[k] <= maxCount
  {
    maxKey, maxCount := "", 0;
    var rest := histogram.Keys;
    while rest != {}
      invariant rest <= histogram.Keys
      invariant maxCount >= 0
      invariant maxCount == 0 ==> maxKey == ""
      invariant maxCount > 0 ==> maxKey in histogram && histogram[maxKey] == maxCount
      invariant forall k :: k in histogram && k !in rest ==> histogram[k] <= maxCount
      decreases |rest|
    {
      var k :| k in rest;
      if histogram[k] > maxCount {
        maxKey, maxCount := k, histogram[k];
      }
      rest := rest - {k};
    }
  }

  /** An entry worth acting on: a latency miss at MonotonicReads, ReadMyWrites or Bounded. */
  predicate Candidate(entry: HistogramEntry) {
    entry.status == "Lat_Not_Met" && MONOTONIC_READS <= entry.subSla.consistency <= BOUNDED
  }

  /** The closest-secondary loop: the least RTT under 1e9 among nodes other than the primary. */
  method Closest(rtts: map<string, real>, primary: string) returns (closest: string, minRtt: real)
    ensures minRtt <= NO_RTT
    ensures minRtt == NO_RTT ==> closest == ""
    ensures minRtt < NO_RTT ==> closest in rtts && closest != primary && rtts[closest] == minRtt
    ensures forall n :: n in rtts && n != primary ==> minRtt <= rtts[n]
  {
    closest, minRtt := "", NO_RTT;
    var rest := rtts.Keys;
    while rest != {}
      invariant rest <= rtts.Keys
      invariant minRtt <= NO_RTT
      invariant minRtt == NO_RTT ==> closest == ""
      invariant minRtt < NO_RTT ==> closest in rtts && closest != primary && rtts[closest] == minRtt
      invariant forall n :: n in rtts && n != primary && n !in rest ==> minRtt <= rtts[n]
      decreases |rest|
    {
      var n :| n in rest;
      if n != primary && rtts[n] < minRtt {
        closest, minRtt := n, rtts[n];
      }
      rest := rest - {n};
    }
  }

  /** A Go map read: the stored frequency, or 0 for an absent address. */
  function FreqOf(shard: CoordShard, node: string): real {
    if node in shard.replicationFreqs then shard.replicationFreqs[node] else 0.0
  }

  /** The adjustment cooldown: 1.5 times the current frequency, in seconds. */
  predicate CoolingDownAt(lastUpdate: map<string, int>, node: string, freq: real, now: int) {
    node in lastUpdate && now - lastUpdate[node] < Trunc(freq * 1.5 * SECOND as real)
  }

  /** A closest node was found, is out of its cooldown and is above the frequency floor. */
  predicate Due(lastUpdate: map<string, int>, config: CoordConfig, closest: string, now: int)
    requires |config.shards| > 0
  {
    var freq := FreqOf(config.shards[0], closest);
    closest != "" && !CoolingDownAt(lastUpdate, closest, freq, now) && freq > FREQUENCY_FLOOR
  }

  /** The configuration after shard 0 records a new frequency for node. */
  function WithFreq(config: CoordConfig, node: string, freq: real): (c: CoordConfig)
    requires |config.shards| > 0
    ensures c.nodes == config.nodes && |c.shards| == |config.shards|
    ensures c.shards[0].replicationFreqs == config.shards[0].replicationFreqs[node := freq]
    ensures forall i :: 0 < i < |c.shards| ==> c.shards[i] == config.shards[i]
  {
    var s := config.shards[0];
    config.(shards := config.shards[0 := s.(replicationFreqs := s.replicationFreqs[node := freq])])
  }

  class Coordinator {
    var lastUtilityDropTime: map<string, int>
    var lastReplicationUpdate: map<string, int>
    /** GlobalConfig: None until a configuration loads. */
    var config: Option<CoordConfig>

    constructor ()
      ensures lastUtilityDropTime == map[] && lastReplicationUpdate == map[] && config == None
    {
      lastUtilityDropTime := map[];
      lastReplicationUpdate := map[];
      config := None;
    }

    /** LoadReplicationConfig: installs the populated configuration, or leaves the old one on error. */
    method LoadReplicationConfig(parsed: CoordConfig) returns (err: Option<string>)
      modifies this
      ensures err.None? <==> SecondariesKnown(parsed)
      ensures err.None? ==> (config.Some? && config.value.nodes == parsed.nodes
        && |config.value.shards| == |parsed.shards|
        && forall i :: 0 <= i < |parsed.shards| ==>
             Populated(AddressBook(parsed.nodes), parsed.shards[i], config.value.shards[i]))
      ensures err.Some? ==> config == old(config)
      ensures lastUtilityDropTime == old(lastUtilityDropTime) && lastReplicationUpdate == old(lastReplicationUpdate)
    {
      var r := Populate(parsed);
      if r.Err? {
        return Some(r.message);
      }
      config := Some(r.value);
      err := None;
    }

    /**
     * reportHandler: an undecodable body is a 400; a report for a key accepted
     * less than 2s ago is a 429 and leaves the times alone; otherwise the time
     * is recorded and the answer is 200 (the analysis then follows).
     */
    method HandleReport(decoded: Option<Report>, now: int) returns (status: int)
      modifies this
      ensures decoded.None? ==> status == STATUS_BAD_REQUEST
      ensures decoded.Some? ==> status == if Throttled(old(lastUtilityDropTime), ReportKey(decoded.value), now)
                                         then STATUS_TOO_MANY_REQUESTS else STATUS_OK
      ensures lastUtilityDropTime == if status == STATUS_OK then old(lastUtilityDropTime)[ReportKey(decoded.value) := now]
                                    else old(lastUtilityDropTime)
      ensures lastReplicationUpdate == old(lastReplicationUpdate) && config == old(config)
    {
      if decoded.None? {
        return STATUS_BAD_REQUEST;
      }
      var key := ReportKey(decoded.value);
      if key in lastUtilityDropTime && now - lastUtilityDropTime[key] < REPORT_COOLDOWN {
        return STATUS_TOO_MANY_REQUESTS;
      }
      lastUtilityDropTime := lastUtilityDropTime[key := now];
      status := STATUS_OK;
    }

    /**
     * What the adjustment step leaves behind, with `closest` the node it
     * picked: none when no other node is under 1e9 (or when the least one is
     * named "", which the source takes for none), else one of least RTT; then
     * one outcome per guard, in the order the source tests them.
     */
    twostate predicate Adjusted(rtts: map<string, real>, primary: string, reply: Option<int>, now: int,
                                r: Outcome, closest: string)
      reads this
    {
      && old(config).Some? && |old(config).value.shards| > 0
      && Adjusting(r)
      && lastUtilityDropTime == old(lastUtilityDropTime)
      && (!r.Halved? ==> config == old(config) && lastReplicationUpdate == old(lastReplicationUpdate))
      // the node picked
      && ((forall n :: n in rtts && n != primary ==> rtts[n] >= NO_RTT) ==> closest == "")
      && (closest == "" ==> forall n :: n in rtts && n != primary && rtts[n] < NO_RTT ==>
            "" in rtts && "" != primary && rtts[""] <= rtts[n])
      && (closest != "" ==> closest in rtts && closest != primary && rtts[closest] < NO_RTT)
      && (closest != "" ==> forall n :: n in rtts && n != primary ==> rtts[closest] <= rtts[n])
      // which outcome
      && (var shard0, last := old(config).value.shards[0], old(lastReplicationUpdate);
          && (r == NoClosest <==> closest == "")
          && (r == CoolingDown <==> closest != "" && CoolingDownAt(last, closest, FreqOf(shard0, closest), now))
          && (r == AtFloor <==>
                && closest != "" && !CoolingDownAt(last, closest, FreqOf(shard0, closest), now)
                && FreqOf(shard0, closest) <= FREQUENCY_FLOOR)
          && (r == ContactFailed <==> Due(last, old(config).value, closest, now) && reply.None?)
          && (r.Refused? <==> Due(last, old(config).value, closest, now) && reply.Some? && reply.value != STATUS_OK)
          && (r.Refused? ==> reply == Some(r.status))
          && (r.Halved? <==> Due(last, old(config).value, closest, now) && reply == Some(STATUS_OK))
          && (r.Halved? ==>
                && r.node == closest
                && r.from == FreqOf(shard0, closest) && r.to == r.from * 0.5
                && config == Some(WithFreq(old(config).value, closest, r.to))
                && lastReplicationUpdate == last[closest := now]))
    }

    /**
     * The adjustment step once the primary's candidate entry is found: pick the
     * closest other node, respect its cooldown and the floor, and record the
     * halved frequency only when the node answers OK.
     */
    method Adjust(rtts: map<string, real>, primary: string, reply: Option<int>, now: int)
      returns (r: Outcome, ghost closest: string)
      requires config.Some? && |config.value.shards| > 0
      modifies this
      ensures Adjusted(rtts, primary, reply, now, r, closest)
    {
      var node, minRtt := Closest(rtts, primary);
      closest := node;
      var currentFreq := FreqOf(config.value.shards[0], node);
      if node == "" {
        return NoClosest, closest;
      }
      if node in lastReplicationUpdate && now - lastReplicationUpdate[node] < Trunc(currentFreq * 1.5 * SECOND as real) {
        return CoolingDown, closest;
      }
      if currentFreq <= FREQUENCY_FLOOR {
        return AtFloor, closest;
      }
      var newFreq := currentFreq * 0.5;
      match reply {
        case None =>
          r := ContactFailed;
        case Some(code) =>
          if code == STATUS_OK {
            config := Some(WithFreq(config.value, node, newFreq));
            lastReplicationUpdate := lastReplicationUpdate[node := now];
            r := Halved(node, currentFreq, newFreq);
          } else {
            r := Refused(code);
          }
      }
    }

    /**
     * handleReportAnalysis: analyse the most frequent read pattern; on the
     * first candidate entry, if the pattern's node is the primary of shard 0,
     * adjust the closest other node (at most one adjustment per analysis).
     * `analysed` is the histogram key the analysis settled on.
     */
    method HandleReportAnalysis(report: Report, decode: string -> Option<HistogramSummary>, reply: Option<int>, now: int)
      returns (r: Outcome, ghost analysed: string, ghost closest: string)
      modifies this
      ensures lastUtilityDropTime == old(lastUtilityDropTime)
      ensures !r.Halved? ==> config == old(config) && lastReplicationUpdate == old(lastReplicationUpdate)
      ensures (forall k :: k in report.readHistogram ==> report.readHistogram[k] <= 0) ==> r == NoPattern
      ensures r == NoPattern ==> analysed == ""
      ensures r != NoPattern ==> analysed != "" && analysed in report.readHistogram && report.readHistogram[analysed] > 0
      ensures r != NoPattern ==> forall k :: k in report.readHistogram ==>
        report.readHistogram[k] <= report.readHistogram[analysed]
      ensures r == NoPattern ==>
        ((forall k :: k in report.readHistogram ==> report.readHistogram[k] <= 0) ||
         ("" in report.readHistogram && forall k :: k in report.readHistogram ==> report.readHistogram[k] <= report.readHistogram[""]))
      ensures r == BadKey <==> analysed != "" && decode(analysed).None?
      ensures r == NoCandidate ==> (decode(analysed).Some? &&
        forall j :: 0 <= j < |decode(analysed).value.summary| && Candidate(decode(analysed).value.summary[j]) ==>
          IsPrimaryForShard(old(config), decode(analysed).value.node) == Some(false))
      ensures r == Panic || Adjusting(r) ==> (decode(analysed).Some? &&
        exists j :: 0 <= j < |decode(analysed).value.summary| && Candidate(decode(analysed).value.summary[j]))
      ensures r == Panic ==> IsPrimaryForShard(old(config), decode(analysed).value.node).None?
      ensures Adjusting(r) ==> IsPrimaryForShard(old(config), decode(analysed).value.node) == Some(true)
      ensures Adjusting(r) ==> Adjusted(report.rtts, decode(analysed).value.node, reply, now, r, closest)
      ensures r.Halved? ==>
        && r.node in report.rtts && r.node != decode(analysed).value.node
        && r.from > FREQUENCY_FLOOR && r.to == r.from * 0.5
        && config == Some(WithFreq(old(config).value, r.node, r.to))
        && lastReplicationUpdate == old(lastReplicationUpdate)[r.node := now]
    {
      var maxKey, maxCount := MostFrequent(report.readHistogram);
      analysed, closest := maxKey, "";
      if maxKey == "" {
        return NoPattern, analysed, closest;
      }
      var parsed := decode(maxKey);
      if parsed.None? {
        return BadKey, analysed, closest;
      }
      var summary := parsed.value;
      for j := 0 to |summary.summary|
        invariant forall m :: 0 <= m < j && Candidate(summary.summary[m]) ==>
          IsPrimaryForShard(config, summary.node) == Some(false)
      {
        if Candidate(summary.summary[j]) {
          var primary := IsPrimaryForShard(config, summary.node);
          if primary.None? {
            return Panic, analysed, closest;
          }
          if primary.value {
            r, closest := Adjust(report.rtts, summary.node, reply, now);
            return r, analysed, closest;
          }
        }
      }
      return NoCandidate, analysed, closest;
    }
  }
}
