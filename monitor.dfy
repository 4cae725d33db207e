/**
 * The client's monitor (client/monitor/monitor.go): a sliding window of the
 * last 100 RTT samples per storage node, the last 100 utilities, and each
 * node's high timestamp. Locks are not modelled; every operation runs alone.
 * RTTs are time.Duration values, i.e. signed nanosecond counts.
 */
module Monitor {
  import opened Wrappers

  /** Size of every sliding window. */
  const MAX_SAMPLES: nat := 100

  /** The last min(|s|, MAX_SAMPLES) elements of s, oldest first. */
  function Recent<T>(s: seq<T>): (r: seq<T>)
    ensures |r| == if |s| <= MAX_SAMPLES then |s| else MAX_SAMPLES
  {
    if |s| <= MAX_SAMPLES then s else s[|s| - MAX_SAMPLES..]
  }

  function Sum(s: seq<int>): int {
    if s == [] then 0 else s[0] + Sum(s[1..])
  }

  /** Go's integer division, which truncates toward zero. */
  function Quot(a: int, b: int): int
    requires b > 0
  {
    if a >= 0 then a / b else -((-a) / b)
  }

  /** Integer mean of the samples (a time.Duration division), 0 for no samples. */
  function Average(s: seq<int>): int {
    if |s| == 0 then 0 else Quot(Sum(s), |s|)
  }

  /** Number of samples at or under the threshold. */
  function CountAtMost(s: seq<int>, threshold: int): nat {
    if s == [] then 0 else (if s[0] <= threshold then 1 else 0) + CountAtMost(s[1..], threshold)
  }

  function NonZeroSum(s: seq<real>): real {
    if s == [] then 0.0 else (if s[0] != 0.0 then s[0] else 0.0) + NonZeroSum(s[1..])
  }

  function NonZeroCount(s: seq<real>): nat {
    if s == [] then 0 else (if s[0] != 0.0 then 1 else 0) + NonZeroCount(s[1..])
  }

  /** The report's average utility: the mean of the non-zero utilities, 0 when there are none. */
  function NonZeroMean(s: seq<real>): real {
    if NonZeroCount(s) == 0 then 0.0 else NonZeroSum(s) / (NonZeroCount(s) as real)
  }

  lemma {:induction false} SumAppend(a: seq<int>, b: seq<int>)
    ensures Sum(a + b) == Sum(a) + Sum(b)
  {
    if a == [] {
      assert a + b == b;
    } else {
      assert (a + b)[1..] == a[1..] + b;
      SumAppend(a[1..], b);
    }
  }

  lemma {:induction false} SumNonNegative(s: seq<int>)
    requires forall i :: 0 <= i < |s| ==> s[i] >= 0
    ensures Sum(s) >= 0
  {
    if s != [] {
      SumNonNegative(s[1..]);
    }
  }

  /** Durations that are never negative (as time.Since gives) have a non-negative average. */
  lemma AverageNonNegative(s: seq<int>)
    requires forall i :: 0 <= i < |s| ==> s[i] >= 0
    ensures Average(s) >= 0
  {
    SumNonNegative(s);
  }

  lemma {:induction false} CountAppend(a: seq<int>, b: seq<int>, threshold: int)
    ensures CountAtMost(a + b, threshold) == CountAtMost(a, threshold) + CountAtMost(b, threshold)
  {
    if a == [] {
      assert a + b == b;
    } else {
      assert (a + b)[1..] == a[1..] + b;
      CountAppend(a[1..], b, threshold);
    }
  }

  lemma {:induction false} CountBound(s: seq<int>, threshold: int)
    ensures CountAtMost(s, threshold) <= |s|
  {
    if s != [] {
      CountBound(s[1..], threshold);
    }
  }

  lemma {:induction false} NonZeroAppend(a: seq<real>, b: seq<real>)
    ensures NonZeroSum(a + b) == NonZeroSum(a) + NonZeroSum(b)
    ensures NonZeroCount(a + b) == NonZeroCount(a) + NonZeroCount(b)
  {
    if a == [] {
      assert a + b == b;
    } else {
      assert (a + b)[1..] == a[1..] + b;
      NonZeroAppend(a[1..], b);
    }
  }

  lemma {:induction false} NonZeroOfZeros(z: seq<real>)
    requires forall i :: 0 <= i < |z| ==> z[i] == 0.0
    ensures NonZeroSum(z) == 0.0 && NonZeroCount(z) == 0
  {
    if z != [] {
      NonZeroOfZeros(z[1..]);
    }
  }

  lemma RatioAtMostOne(a: real, b: real)
    requires 0.0 <= a <= b && 0.0 < b
    ensures 0.0 <= a / b <= 1.0
  {
    assert a / b * b == a;
  }

  /**
   * The history a ring of slots holds, oldest first: from `index` round to
   * just before it once the index has wrapped, else the slots before `index`.
   */
  function Held<T>(slots: seq<T>, index: nat, full: bool): seq<T>
    requires index <= |slots|
  {
    if full then slots[index..] + slots[..index] else slots[..index]
  }

  /**
   * How one circular write changes the held history: `samples` before the
   * write held `old` from slot `i` (full) or up to slot `i` (not full).
   */
  lemma RingWrite<T>(before: seq<T>, i: nat, x: T, full: bool)
    requires |before| == MAX_SAMPLES && i < MAX_SAMPLES
    ensures var after := before[i := x];
            var j := (i + 1) % MAX_SAMPLES;
            Held(after, j, full || j == 0) == Recent(Held(before, i, full) + [x])
  {
    var after := before[i := x];
    var j := (i + 1) % MAX_SAMPLES;
    if !full {
      if j != 0 {
        assert after[..j] == before[..i] + [x];
      } else {
        assert after[j..] + after[..j] == before[..i] + [x];
      }
    } else {
      var held := before[i..] + before[..i];
      if j != 0 {
        assert after[j..] + after[..j] == (held + [x])[1..];
      } else {
        assert after[j..] + after[..j] == (held + [x])[1..];
      }
    }
  }

  /**
   * RTTWindow: MAX_SAMPLES slots written circularly at `index`; `full`
   * records that the index has wrapped once. Contents is the history the
   * window still holds, oldest first.
   */
  class RttWindow {
    const samples: array<int>
    /** The node the window belongs to (bookkeeping for the proofs only). */
    ghost const node: string
    var index: nat
    var full: bool
    ghost var Contents: seq<int>

    ghost predicate Valid()
      reads this, samples
    {
      && samples.Length == MAX_SAMPLES
      && index < MAX_SAMPLES
      && Contents == (if full then samples[index..] + samples[..index] else samples[..index])
    }

    /** The window RecordRTT creates for a node it has not seen: all slots zero, nothing held. */
    constructor (ghost name: string)
      ensures Valid() && fresh(samples)
      ensures node == name && index == 0 && !full && Contents == []
    {
      samples := new int[MAX_SAMPLES](_ => 0);
      node := name;
      index := 0;
      full := false;
      Contents := [];
    }

    /** Overwrite the oldest slot and advance the index mod 100, setting `full` on the wrap. */
    method Record(x: int)
      requires Valid()
      modifies this, samples
      ensures Valid()
      ensures Contents == Recent(old(Contents) + [x])
      ensures index == (old(index) + 1) % MAX_SAMPLES
      ensures full <==> old(full) || index == 0
    {
      ghost var before := samples[..];
      var i := index;
      RingWrite(before, i, x, full);
      samples[i] := x;
      assert samples[..] == before[i := x];
      index := (i + 1) % MAX_SAMPLES;
      if index == 0 {
        full := true;
      }
      Contents := Recent(Contents + [x]);
    }

    /** The copy GetRTTs returns: the held samples, oldest first. */
    method Snapshot() returns (r: seq<int>)
      requires Valid()
      ensures r == Contents
    {
      r := Held(samples[..], index, full);
    }
  }

  /**
   * UtilityWindow: the same ring of MAX_SAMPLES slots over utilities.
   * Slots not yet written hold 0, which the utility report relies on.
   */
  class UtilityWindow {
    const samples: array<real>
    var index: nat
    var full: bool
    ghost var Contents: seq<real>

    ghost predicate Valid()
      reads this, samples
    {
      && samples.Length == MAX_SAMPLES
      && index < MAX_SAMPLES
      && Contents == (if full then samples[index..] + samples[..index] else samples[..index])
      && (!full ==> forall k :: index <= k < MAX_SAMPLES ==> samples[k] == 0.0)
    }

    constructor ()
      ensures Valid() && fresh(samples)
      ensures index == 0 && !full && Contents == []
    {
      samples := new real[MAX_SAMPLES](_ => 0.0);
      index := 0;
      full := false;
      Contents := [];
    }

    /** RecordUtility on the window: overwrite the oldest slot, advance the index mod 100. */
    method Record(x: real)
      requires Valid()
      modifies this, samples
      ensures Valid()
      ensures Contents == Recent(old(Contents) + [x])
      ensures index == (old(index) + 1) % MAX_SAMPLES
      ensures full <==> old(full) || index == 0
    {
      ghost var before := samples[..];
      var i := index;
      RingWrite(before, i, x, full);
      samples[i] := x;
      assert samples[..] == before[i := x];
      index := (i + 1) % MAX_SAMPLES;
      if index == 0 {
        full := true;
      } else if !full {
        assert forall k :: index <= k < MAX_SAMPLES ==> samples[k] == before[k];
      }
      Contents := Recent(Contents + [x]);
    }

    /** The copy GetUtilities returns: the held utilities, oldest first. */
    method Snapshot() returns (r: seq<real>)
      requires Valid()
      ensures r == Contents
    {
      r := Held(samples[..], index, full);
    }
  }

  lemma UpdateTwice<K, V>(m: map<K, V>, k: K, a: V, b: V)
    ensures m[k := a][k := b] == m[k := b]
  {
  }

  /** Sum of a window's valid slots (the whole array when full, else the first `index`). */
  method SumWindow(w: RttWindow) returns (total: int, count: nat)
    requires w.Valid()
    ensures total == Sum(w.Contents) && count == |w.Contents|
  {
    var limit := if w.full then MAX_SAMPLES else w.index;
    total := 0;
    for i := 0 to limit
      invariant total == Sum(w.samples[..i])
    {
      SumAppend(w.samples[..i], [w.samples[i]]);
      assert w.samples[..i + 1] == w.samples[..i] + [w.samples[i]];
      total := total + w.samples[i];
    }
    count := limit;
    if w.full {
      SumAppend(w.samples[w.index..], w.samples[..w.index]);
      SumAppend(w.samples[..w.index], w.samples[w.index..]);
      assert w.samples[..w.index] + w.samples[w.index..] == w.samples[..MAX_SAMPLES];
    }
  }

  /** The number of a window's valid slots at or under the threshold, and the number of valid slots. */
  method CountWindow(w: RttWindow, threshold: int) returns (count: nat, total: nat)
    requires w.Valid()
    ensures count == CountAtMost(w.Contents, threshold) && total == |w.Contents|
    ensures count <= total
  {
    var limit := if w.full then MAX_SAMPLES else w.index;
    count, total := 0, 0;
    for i := 0 to limit
      invariant total == i && count == CountAtMost(w.samples[..i], threshold)
    {
      CountAppend(w.samples[..i], [w.samples[i]], threshold);
      assert w.samples[..i + 1] == w.samples[..i] + [w.samples[i]];
      if w.samples[i] <= threshold {
        count := count + 1;
      }
      total := total + 1;
    }
    if w.full {
      CountAppend(w.samples[w.index..], w.samples[..w.index], threshold);
      CountAppend(w.samples[..w.index], w.samples[w.index..], threshold);
      assert w.samples[..w.index] + w.samples[w.index..] == w.samples[..MAX_SAMPLES];
    }
    CountBound(w.Contents, threshold);
  }

  /**
   * The loop of GetLowestAvgRTTNode over the node windows (`view` names
   * what each window holds), in whatever order the map yields its keys.
   */
  method LowestAverage(windows: map<string, RttWindow>, ghost view: map<string, seq<int>>)
    returns (minNode: string, minRtt: int)
    requires view.Keys == windows.Keys
    requires forall n :: n in windows ==> windows[n].Valid() && windows[n].Contents == view[n]
    ensures (forall n :: n in view ==> |view[n]| == 0) ==> minNode == "" && minRtt == -1
    ensures minNode != "" || minRtt != -1 ==>
      minNode in view && |view[minNode]| > 0 && minRtt == Average(view[minNode])
    ensures (exists n :: n in view && |view[n]| > 0) ==>
      minNode in view && |view[minNode]| > 0 && minRtt == Average(view[minNode])
    ensures (forall n :: n in view && |view[n]| > 0 ==> Average(view[n]) >= 0) ==>
      && (minRtt == -1 <==> forall n :: n in view ==> |view[n]| == 0)
      && (minRtt != -1 ==> forall n :: n in view && |view[n]| > 0 ==> minRtt <= Average(view[n]))
  {
    ghost var nonNegative := forall n :: n in view && |view[n]| > 0 ==> Average(view[n]) >= 0;
    minNode, minRtt := "", -1;
    ghost var seen := false;
    var remaining := windows.Keys;
    while remaining != {}
      invariant remaining <= view.Keys
      invariant !seen ==> minNode == "" && minRtt == -1
      invariant !seen ==> forall n :: n in view && n !in remaining ==> |view[n]| == 0
      invariant seen ==> minNode in view && |view[minNode]| > 0 && minRtt == Average(view[minNode])
      invariant seen && nonNegative ==>
        && minRtt >= 0
        && forall n :: n in view && n !in remaining && |view[n]| > 0 ==> minRtt <= Average(view[n])
      decreases remaining
    {
      var node :| node in remaining;
      var total, count := SumWindow(windows[node]);
      remaining := remaining - {node};
      if count == 0 {
        continue;
      }
      var avg := Quot(total, count);
      if minRtt < 0 || avg < minRtt {
        minRtt := avg;
        minNode := node;
      }
      seen := true;
    }
  }

  /** The client's global monitor: RTT windows by node, high timestamps by node, one utility window. */
  class Monitor {
    var nodeRtts: map<string, RttWindow>
    var nodeHts: map<string, int>
    const utilities: UtilityWindow
    /** Each known node's RTT history, oldest first. */
    ghost var Rtts: map<string, seq<int>>
    ghost var Repr: set<object>
    /** Which node each RTT array belongs to; keeps the windows' arrays apart. */
    ghost var owner: map<array<int>, string>

    ghost predicate Valid()
      reads this, Repr
    {
      && this in Repr
      && utilities in Repr && utilities.samples in Repr && utilities.Valid()
      && Rtts.Keys == nodeRtts.Keys
      && (forall n {:trigger nodeRtts[n]} :: n in nodeRtts ==>
            && nodeRtts[n] in Repr && nodeRtts[n].samples in Repr
            && nodeRtts[n].Valid() && Rtts[n] == nodeRtts[n].Contents
            && nodeRtts[n].node == n
            && nodeRtts[n].samples in owner && owner[nodeRtts[n].samples] == n)
    }

    /** globalMonitor as the program starts: no node windows, an empty utility window. */
    constructor ()
      ensures Valid() && fresh(Repr)
      ensures Rtts == map[] && nodeHts == map[] && utilities.Contents == []
    {
      nodeRtts := map[];
      nodeHts := map[];
      var u := new UtilityWindow();
      utilities := u;
      Repr := {this, u, u.samples};
      owner := map[];
      Rtts := map[];
    }

    /** The first half of RecordRTT for a node never seen: give it an empty window. */
    method AddWindow(node: string)
      requires Valid() && node !in nodeRtts
      modifies this
      ensures Valid() && fresh(Repr - old(Repr))
      ensures node in nodeRtts && Rtts == old(Rtts)[node := []]
      ensures nodeHts == old(nodeHts) && utilities.Contents == old(utilities.Contents)
    {
      var w := new RttWindow(node);
      nodeRtts, Repr, owner, Rtts := nodeRtts[node := w], Repr + {w, w.samples}, owner[w.samples := node], Rtts[node := []];
    }

    /** The second half of RecordRTT: record into the node's existing window; other nodes are untouched. */
    method AppendRtt(node: string, rtt: int)
      requires Valid() && node in nodeRtts
      modifies Repr
      ensures Valid() && Repr == old(Repr)
      ensures Rtts == old(Rtts)[node := Recent(old(Rtts)[node] + [rtt])]
      ensures nodeHts == old(nodeHts) && utilities.Contents == old(utilities.Contents)
    {
      var w := nodeRtts[node];
      w.Record(rtt);
      Rtts := Rtts[node := w.Contents];
    }

    /** RecordRTT: create the node's window on first use, then record into it; other nodes are untouched. */
    method RecordRtt(node: string, rtt: int)
      requires Valid()
      modifies Repr
      ensures Valid() && fresh(Repr - old(Repr))
      ensures node in old(Rtts) ==> Rtts == old(Rtts)[node := Recent(old(Rtts)[node] + [rtt])]
      ensures node !in old(Rtts) ==> Rtts == old(Rtts)[node := [rtt]]
      ensures nodeHts == old(nodeHts) && utilities.Contents == old(utilities.Contents)
    {
      if node in nodeRtts {
        AppendRtt(node, rtt);
      } else {
        ghost var before := Rtts;
        AddWindow(node);
        AppendRtt(node, rtt);
        assert Recent([] + [rtt]) == [rtt];
        UpdateTwice(before, node, [], [rtt]);
      }
    }

    /** RecordHTS: overwrite the node's high timestamp. */
    method RecordHts(node: string, hts: int)
      requires Valid()
      modifies this
      ensures Valid() && Repr == old(Repr)
      ensures nodeHts == old(nodeHts)[node := hts] && GetHts(node) == hts
      ensures Rtts == old(Rtts) && utilities.Contents == old(utilities.Contents)
    {
      nodeHts := nodeHts[node := hts];
    }

    /** GetHTS: the recorded high timestamp, 0 for a node never recorded. */
    function GetHts(node: string): (hts: int)
      reads this
      ensures node !in nodeHts ==> hts == 0
    {
      if node in nodeHts then nodeHts[node] else 0
    }

    /** RecordUtility: append to the single utility window. */
    method RecordUtility(u: real)
      requires Valid()
      modifies Repr
      ensures Valid() && Repr == old(Repr)
      ensures utilities.Contents == Recent(old(utilities.Contents) + [u])
      ensures Rtts == old(Rtts) && nodeHts == old(nodeHts)
    {
      utilities.Record(u);
    }

    /** GetRTTs: the node's samples oldest first, or nil (None) for a node without a window. */
    method GetRtts(node: string) returns (r: Option<seq<int>>)
      requires Valid()
      ensures node in Rtts <==> r.Some?
      ensures r.Some? ==> r.value == Rtts[node]
    {
      if node !in nodeRtts {
        return None;
      }
      var s := nodeRtts[node].Snapshot();
      r := Some(s);
    }

    /** GetUtilities: the last min(n, 100) utilities, oldest first. */
    method GetUtilities() returns (r: seq<real>)
      requires Valid()
      ensures r == utilities.Contents
    {
      r := utilities.Snapshot();
    }

    /** GetAvgRTT: truncated mean of the node's samples; 0 for an unknown node or no samples. */
    method GetAvgRtt(node: string) returns (avg: int)
      requires Valid()
      ensures avg == if node in Rtts then Average(Rtts[node]) else 0
    {
      if node !in nodeRtts {
        return 0;
      }
      var total, count := SumWindow(nodeRtts[node]);
      avg := 0;
      if count != 0 {
        avg := Quot(total, count);
      }
    }

    /**
     * GetLowestAvgRTTNode: ("", -1) when no node holds samples; otherwise a
     * node holding samples. When no such node has a negative average (as
     * with durations measured by time.Since), the node has the least
     * average, any of them on a tie, and -1 is returned only for no data.
     */
    method GetLowestAvgRttNode() returns (minNode: string, minRtt: int)
      requires Valid()
      ensures (forall n :: n in Rtts ==> |Rtts[n]| == 0) ==> minNode == "" && minRtt == -1
      ensures minNode != "" || minRtt != -1 ==>
        minNode in Rtts && |Rtts[minNode]| > 0 && minRtt == Average(Rtts[minNode])
      ensures (exists n :: n in Rtts && |Rtts[n]| > 0) ==>
        minNode in Rtts && |Rtts[minNode]| > 0 && minRtt == Average(Rtts[minNode])
      ensures (forall n :: n in Rtts && |Rtts[n]| > 0 ==> Average(Rtts[n]) >= 0) ==>
        && (minRtt == -1 <==> forall n :: n in Rtts ==> |Rtts[n]| == 0)
        && (minRtt != -1 ==> forall n :: n in Rtts && |Rtts[n]| > 0 ==> minRtt <= Average(Rtts[n]))
    {
      minNode, minRtt := LowestAverage(nodeRtts, Rtts);
    }

    /**
     * ProbabilityOfRTTBelow: the share of the node's samples at or under the
     * threshold; with no window or no samples, 1 when optimistic and 0 otherwise.
     */
    method ProbabilityOfRttBelow(node: string, threshold: int, optimistic: bool) returns (p: real)
      requires Valid()
      ensures node !in Rtts || |Rtts[node]| == 0 ==> p == if optimistic then 1.0 else 0.0
      ensures node in Rtts && |Rtts[node]| > 0 ==>
        p == (CountAtMost(Rtts[node], threshold) as real) / (|Rtts[node]| as real)
      ensures 0.0 <= p <= 1.0
    {
      if node !in nodeRtts {
        return if optimistic then 1.0 else 0.0;
      }
      var count, total := CountWindow(nodeRtts[node], threshold);
      if total == 0 {
        return if optimistic then 1.0 else 0.0;
      }
      p := (count as real) / (total as real);
      RatioAtMostOne(count as real, total as real);
    }

    /**
     * The average SendUtilityReport puts in its report: over all slots of the
     * utility window, the mean of the non-zero values. Unwritten slots hold 0,
     * so this is the mean of the non-zero utilities the window holds.
     */
    method UtilityReportAverage() returns (avg: real)
      requires Valid()
      ensures avg == NonZeroMean(utilities.Contents)
    {
      var w := utilities;
      var sum, count := 0.0, 0;
      for i := 0 to MAX_SAMPLES
        invariant sum == NonZeroSum(w.samples[..i]) && count == NonZeroCount(w.samples[..i])
      {
        NonZeroAppend(w.samples[..i], [w.samples[i]]);
        assert w.samples[..i + 1] == w.samples[..i] + [w.samples[i]];
        if w.samples[i] != 0.0 {
          sum := sum + w.samples[i];
          count := count + 1;
        }
      }
      assert w.samples[..MAX_SAMPLES] == w.samples[..w.index] + w.samples[w.index..];
      NonZeroAppend(w.samples[..w.index], w.samples[w.index..]);
      if w.full {
        NonZeroAppend(w.samples[w.index..], w.samples[..w.index]);
      } else {
        NonZeroOfZeros(w.samples[w.index..]);
      }
      avg := 0.0;
      if count > 0 {
        avg := sum / (count as real);
      }
    }
  }
}
