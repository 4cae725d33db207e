/**
 * Client-side configuration types and SLA loading (client/util/util.go).
 * Reading the file and decoding its JSON are outside the model: the loader
 * receives the decoded entries of the "subSLAs" array.
 */
module ClientUtil {
  import opened Wrappers
  import opened Text
  import opened Sorting
  import opened Consistency
  import opened Topology

  /** One decoded entry of an SLA file; latency and staleness are whole milliseconds. */
  datatype RawSubSla = RawSubSla(rank: int, consistency: string, latencyBound: int, stalenessBound: Option<int>, utility: real)

  /** A shard of the key space: keys RangeStart..RangeEnd inclusive, one primary, its secondaries. */
  datatype Shard = Shard(shardId: int, rangeStart: int, rangeEnd: int, primary: string,
                         secondaryIds: seq<string>, secondaries: seq<string>, highTs: int)

  datatype ReplicationConfig = ReplicationConfig(nodes: seq<StorageNode>, shards: seq<Shard>)

  /** ServerSelectionPolicy values, numbered by iota. */
  const PRIMARY: int := 0
  const RANDOM: int := 1
  const CLOSEST: int := 2
  const PILEUS: int := 3

  /**
   * Go's unicode.ToLower, as far as a comparison with a lower-case ASCII word
   * can observe it: ASCII capitals fold to their lower case, and so do the two
   * non-ASCII runes whose lower case is ASCII (U+0130 to 'i', the Kelvin sign
   * U+212A to 'k'). Every other rune has a non-ASCII lower case (or none), so
   * leaving it as it is cannot turn a mismatch into a match or back.
   */
  function FoldLower(c: char): char {
    if 'A' <= c <= 'Z' then (c as int + 32) as char
    else if c == '\U{130}' then 'i'
    else if c == '\U{212A}' then 'k'
    else c
  }

  function Lower(s: string): (r: string)
    ensures |r| == |s| && forall i :: 0 <= i < |s| ==> r[i] == FoldLower(s[i])
  {
    if s == [] then [] else [FoldLower(s[0])] + Lower(s[1..])
  }

  /** The accepted spellings, indexed by the level they denote. */
  const LEVEL_NAMES: seq<string> := ["eventual", "monotonicreads", "readmywrites", "bounded", "strong"]

  /** parseConsistency: a case-insensitive lookup of the level name; anything else is an error. */
  function ParseConsistency(s: string): (r: Result<Level>)
    ensures r.Ok? <==> Lower(s) in LEVEL_NAMES
    ensures r.Ok? ==> 0 <= r.value < |LEVEL_NAMES| && LEVEL_NAMES[r.value] == Lower(s)
    ensures r.Err? ==> r.message == "unknown consistency level: " + s
  {
    var l := Lower(s);
    if l == "eventual" then Ok(EVENTUAL)
    else if l == "monotonicreads" then Ok(MONOTONIC_READS)
    else if l == "readmywrites" then Ok(READ_MY_WRITES)
    else if l == "bounded" then Ok(BOUNDED)
    else if l == "strong" then Ok(STRONG)
    else Err("unknown consistency level: " + s)
  }

  /** Upper-case and mixed-case spellings parse to the same level as the lower-case name. */
  lemma ParseConsistencyIgnoresCase(s: string, i: nat)
    requires i < |LEVEL_NAMES| && |s| == |LEVEL_NAMES[i]|
    requires forall k :: 0 <= k < |s| ==> s[k] == LEVEL_NAMES[i][k] || s[k] as int == LEVEL_NAMES[i][k] as int - 32
    ensures ParseConsistency(s) == Ok(i)
  {
    var name := LEVEL_NAMES[i];
    if i == 0 { assert name == "eventual"; }
    else if i == 1 { assert name == "monotonicreads"; }
    else if i == 2 { assert name == "readmywrites"; }
    else if i == 3 { assert name == "bounded"; }
    else { assert name == "strong"; }
    LowerMatchesName(s, name);
    assert forall j :: 0 <= j < |LEVEL_NAMES| && LEVEL_NAMES[j] == name ==> j == i;
  }

  lemma LowerMatchesName(s: string, name: string)
    requires |s| == |name| && forall k :: 0 <= k < |name| ==> 'a' <= name[k] <= 'z'
    requires forall k :: 0 <= k < |s| ==> s[k] == name[k] || s[k] as int == name[k] as int - 32
    ensures Lower(s) == name
  {
    forall k | 0 <= k < |s|
      ensures Lower(s)[k] == name[k]
    {
    }
  }

  /** One entry as the loader builds it: milliseconds become a duration, staleness only for Bounded. */
  function ToSubSla(raw: RawSubSla, level: Level): SubSla {
    SubSla(level, LatencyBound(raw.latencyBound * MILLISECOND),
           if level == BOUNDED && raw.stalenessBound.Some? then Some(raw.stalenessBound.value * MILLISECOND) else None,
           raw.utility)
  }

  /** A converted sub-SLA together with the rank its file entry carried. */
  datatype RankedSubSla = Ranked(rank: int, sub: SubSla)

  function RankOf(r: RankedSubSla): int { r.rank }

  predicate AllKnown(raws: seq<RawSubSla>) {
    forall i :: 0 <= i < |raws| ==> ParseConsistency(raws[i].consistency).Ok?
  }

  predicate RanksNonDecreasing(raws: seq<RawSubSla>) {
    forall i, j :: 0 <= i < j < |raws| ==> raws[i].rank <= raws[j].rank
  }

  /** The converted entries in file order, each with its rank. */
  function FileOrder(raws: seq<RawSubSla>): (r: seq<RankedSubSla>)
    requires AllKnown(raws)
    ensures |r| == |raws|
  {
    if raws == [] then []
    else
      var last := raws[|raws| - 1];
      FileOrder(raws[..|raws| - 1]) + [Ranked(last.rank, ToSubSla(last, ParseConsistency(last.consistency).value))]
  }

  function SubSlasOf(rs: seq<RankedSubSla>): (r: seq<SubSla>)
    ensures |r| == |rs| && forall i :: 0 <= i < |rs| ==> r[i] == rs[i].sub
  {
    if rs == [] then [] else [rs[0].sub] + SubSlasOf(rs[1..])
  }

  /** The order the loader gives the sub-SLAs: the file's entries sorted stably by rank. */
  function RankOrder(raws: seq<RawSubSla>): seq<RankedSubSla>
    requires AllKnown(raws)
  {
    SortBy(FileOrder(raws), RankOf)
  }

  /**
   * LoadSLAFromFile after decoding: converts every entry, failing on the first
   * unknown consistency name, then orders the sub-SLAs by rank.
   */
  method LoadSla(raws: seq<RawSubSla>, id: string) returns (r: Result<Sla>)
    ensures r.Err? <==> !AllKnown(raws)
    ensures r.Err? ==> exists i :: 0 <= i < |raws| && ParseConsistency(raws[i].consistency).Err?
                          && AllKnown(raws[..i])
                          && r.message == "unknown consistency level: " + raws[i].consistency
    ensures r.Ok? ==> r.value == Sla(id, SubSlasOf(RankOrder(raws)))
  {
    var subs: seq<RankedSubSla> := [];
    for i := 0 to |raws|
      invariant AllKnown(raws[..i])
      invariant subs == FileOrder(raws[..i])
    {
      var level := ParseConsistency(raws[i].consistency);
      if level.Err? {
        return Err(level.message);
      }
      assert raws[..i + 1][..i] == raws[..i];
      subs := subs + [Ranked(raws[i].rank, ToSubSla(raws[i], level.value))];
    }
    assert raws[..|raws|] == raws;
    subs := SortBy(subs, RankOf);
    r := Ok(Sla(id, SubSlasOf(subs)));
  }

  /**
   * What a loaded SLA holds: one sub-SLA per file entry, ordered by rank,
   * entries of equal rank in file order, and exactly the file order when the
   * file's ranks are already non-decreasing.
   */
  lemma {:induction false} LoadedSlaOrder(raws: seq<RawSubSla>)
    requires AllKnown(raws)
    ensures |SubSlasOf(RankOrder(raws))| == |raws|
    ensures SortedBy(RankOrder(raws), RankOf)
    ensures multiset(RankOrder(raws)) == multiset(FileOrder(raws))
    ensures forall v :: WithKey(RankOrder(raws), RankOf, v) == WithKey(FileOrder(raws), RankOf, v)
    ensures RanksNonDecreasing(raws) ==> RankOrder(raws) == FileOrder(raws)
  {
    SortBySortedPermutation(FileOrder(raws), RankOf);
    forall v ensures WithKey(RankOrder(raws), RankOf, v) == WithKey(FileOrder(raws), RankOf, v) {
      SortByStable(FileOrder(raws), RankOf, v);
    }
    if RanksNonDecreasing(raws) {
      FileOrderRanks(raws);
      SortByKeepsSorted(FileOrder(raws), RankOf);
    }
  }

  lemma {:induction false} FileOrderRanks(raws: seq<RawSubSla>)
    requires AllKnown(raws)
    ensures forall i :: 0 <= i < |raws| ==> FileOrder(raws)[i].rank == raws[i].rank
  {
    if raws != [] {
      FileOrderRanks(raws[..|raws| - 1]);
    }
  }

  // ---------------------------------------------------------------------
  // The comparator as written: sort.SliceStable(subSLAs, less) with
  // less(i, j) = raw.SubSLAs[i].Rank < raw.SubSLAs[j].Rank. For up to 20
  // elements Go's stable sort is one insertion sort,
  //   for i := 1; i < n; i++ { for j := i; j > 0 && less(j, j-1); j-- { swap(j, j-1) } }
  // and less reads the FILE's ranks at the slot indices while swap moves
  // the sub-SLAs, so the ranks no longer travel with their entries.
  // ---------------------------------------------------------------------

  function SwapAdjacent<T>(s: seq<T>, j: nat): (r: seq<T>)
    requires 0 < j < |s|
    ensures |r| == |s|
  {
    s[j - 1 := s[j]][j := s[j - 1]]
  }

  /** The inner loop: move the element at slot j down while the file rank at j is below the one at j-1. */
  function SinkAsWritten<T>(s: seq<T>, ranks: seq<int>, j: nat): (r: seq<T>)
    requires |s| == |ranks| && j < |s|
    ensures |r| == |s|
    decreases j
  {
    if j > 0 && ranks[j] < ranks[j - 1] then SinkAsWritten(SwapAdjacent(s, j), ranks, j - 1) else s
  }

  function InsertionAsWritten<T>(s: seq<T>, ranks: seq<int>, i: nat): (r: seq<T>)
    requires |s| == |ranks|
    ensures |r| == |s|
    decreases |s| - i
  {
    if i >= |s| then s else InsertionAsWritten(SinkAsWritten(s, ranks, i), ranks, i + 1)
  }

  /** The order util.go's sort call produces, given the file's ranks in file order. */
  function RankSortAsWritten<T>(s: seq<T>, ranks: seq<int>): (r: seq<T>)
    requires |s| == |ranks|
    ensures |r| == |s|
  {
    InsertionAsWritten(s, ranks, 1)
  }

  /** With ranks already non-decreasing no swap ever happens: file order is kept. */
  lemma {:induction false} RankSortAsWrittenKeepsSorted<T>(s: seq<T>, ranks: seq<int>, i: nat)
    requires |s| == |ranks|
    requires forall a, b :: 0 <= a < b < |ranks| ==> ranks[a] <= ranks[b]
    ensures InsertionAsWritten(s, ranks, i) == s
    decreases |s| - i
  {
    if i < |s| {
      RankSortAsWrittenKeepsSorted(s, ranks, i + 1);
    }
  }

  /** File ranks 3, 1, 2: the written sort yields ranks 1, 3, 2, where sorting by rank yields 1, 2, 3. */
  lemma RankSortAsWrittenMisorders(a: SubSla, b: SubSla, c: SubSla)
    ensures var s := [Ranked(3, a), Ranked(1, b), Ranked(2, c)];
            && RankSortAsWritten(s, [3, 1, 2]) == [Ranked(1, b), Ranked(3, a), Ranked(2, c)]
            && !SortedBy(RankSortAsWritten(s, [3, 1, 2]), RankOf)
            && SortBy(s, RankOf) == [Ranked(1, b), Ranked(2, c), Ranked(3, a)]
  {
    var s := [Ranked(3, a), Ranked(1, b), Ranked(2, c)];
    var ranks := [3, 1, 2];
    var s1 := SwapAdjacent(s, 1);
    assert s1 == [Ranked(1, b), Ranked(3, a), Ranked(2, c)];
    assert SinkAsWritten(s1, ranks, 0) == s1;
    assert SinkAsWritten(s, ranks, 1) == s1;
    assert SinkAsWritten(s1, ranks, 2) == s1;
    assert InsertionAsWritten(s1, ranks, 3) == s1;
    assert InsertionAsWritten(s1, ranks, 2) == s1;
    assert InsertionAsWritten(s, ranks, 1) == s1;
    assert RankOf(s1[1]) > RankOf(s1[2]);
    assert s[..2][..1] == s[..1] == [Ranked(3, a)];
    assert s[..2] == [Ranked(3, a), Ranked(1, b)];
    assert SortBy(s[..1], RankOf) == [Ranked(3, a)];
    assert SortBy(s[..2], RankOf) == [Ranked(1, b), Ranked(3, a)];
    assert InsertBy(Ranked(2, c), [Ranked(3, a)], RankOf) == [Ranked(2, c), Ranked(3, a)];
  }

  /**
   * The per-session state (util.Session). BeginSession in client/api/api.go is
   * the constructor; the API operations update the maps and the utility list.
   */
  class Session {
    var defaultSla: Option<Sla>
    var policy: int
    var objectsWritten: map<string, int>
    var objectsRead: map<string, int>
    var utilities: seq<real>

    /** BeginSession: the given SLA and policy, no objects seen, no utilities. */
    constructor Begin(sla: Option<Sla>, serverSelectionPolicy: int)
      ensures defaultSla == sla && policy == serverSelectionPolicy
      ensures objectsWritten == map[] && objectsRead == map[] && utilities == []
    {
      defaultSla := sla;
      policy := serverSelectionPolicy;
      objectsWritten := map[];
      objectsRead := map[];
      utilities := [];
    }

    /** `s.ObjectsWritten[key] = ts`: a successful write's timestamp; nothing else changes. */
    method RecordWrite(key: string, ts: int)
      modifies this
      ensures objectsWritten == old(objectsWritten)[key := ts]
      ensures objectsRead == old(objectsRead) && utilities == old(utilities)
      ensures defaultSla == old(defaultSla) && policy == old(policy)
    {
      objectsWritten := objectsWritten[key := ts];
    }
  }
}
