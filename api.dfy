/*
 * The client API (client/api/api.go): sub-SLA hit detection, shard routing,
 * secondary-address resolution, the artificial-lag table, the retrying read
 * and the per-policy reads that score a session's utility.
 *
 * The HTTP round trips are replaced by their outcomes, supplied as
 * parameters: a Put gets the storage node's reply, a read gets the outcome
 * each of its attempts would have. The optimizer's FindNodeToRead is an
 * oracle whose answer (node, target sub-SLA, minimum read timestamps) is a
 * parameter, and so is the random draw of the random policy.
 */
module Api {
  import opened Wrappers
  import opened Text
  import opened Consistency
  import opened Topology
  import opened ClientUtil
  import opened Monitor
  import opened FirstMatch

  /*** Shard routing (determineShardForKey) ***/

  predicate Covers(shard: Shard, key: int) {
    shard.rangeStart <= key <= shard.rangeEnd
  }

  /** The first shard at or after i whose inclusive range holds the key. */
  function ShardFrom(shards: seq<Shard>, key: int, i: nat): Option<nat>
    decreases |shards| - i
  {
    if i >= |shards| then None
    else if Covers(shards[i], key) then Some(i)
    else ShardFrom(shards, key, i + 1)
  }

  /** Index of the first shard whose inclusive range holds the key. */
  function ShardOf(shards: seq<Shard>, key: int): Option<nat> {
    ShardFrom(shards, key, 0)
  }

  /** ShardFrom finds the first covering shard from i on, and only misses when there is none. */
  lemma {:induction false} ShardFromMeans(shards: seq<Shard>, key: int, i: nat)
    ensures ShardFrom(shards, key, i).Some? ==>
      var j := ShardFrom(shards, key, i).value;
      i <= j < |shards| && Covers(shards[j], key) && forall m :: i <= m < j ==> !Covers(shards[m], key)
    ensures ShardFrom(shards, key, i).None? ==> forall m :: i <= m < |shards| ==> !Covers(shards[m], key)
    decreases |shards| - i
  {
    if i < |shards| && !Covers(shards[i], key) {
      ShardFromMeans(shards, key, i + 1);
    }
  }

  const NO_SHARD: string := "no shard found for key"

  /**
   * What determineShardForKey returns: -1 for a key that is not an integer,
   * the index of the first covering shard otherwise; the panic when no shard
   * covers the key is the error outcome.
   */
  function ShardForKey(shards: seq<Shard>, key: string): Result<int> {
    match Atoi(key)
    case None => Ok(-1)
    case Some(k) =>
      match ShardOf(shards, k)
      case Some(i) => Ok(i as int)
      case None => Err(NO_SHARD)
  }

  lemma {:induction false} ShardForKeyMeans(shards: seq<Shard>, key: string)
    ensures Atoi(key).None? ==> ShardForKey(shards, key) == Ok(-1)
    ensures Atoi(key).Some? ==>
      var k := Atoi(key).value;
      && (ShardForKey(shards, key).Ok? <==> exists i :: 0 <= i < |shards| && Covers(shards[i], k))
      && (ShardForKey(shards, key).Ok? ==>
            var i := ShardForKey(shards, key).value;
            0 <= i < |shards| && Covers(shards[i], k) && forall j :: 0 <= j < i ==> !Covers(shards[j], k))
  {
    if Atoi(key).Some? {
      ShardFromMeans(shards, Atoi(key).value, 0);
    }
  }

  /** The key routes to a shard: otherwise the source indexes the shard list out of range or panics. */
  predicate Routes(shards: seq<Shard>, key: string) {
    ShardForKey(shards, key).Ok? && 0 <= ShardForKey(shards, key).value < |shards|
  }

  /** The primary of the shard the key routes to. */
  function PrimaryFor(shards: seq<Shard>, key: string): string
    requires Routes(shards, key)
  {
    shards[ShardForKey(shards, key).value].primary
  }

  /** determineShardForKey, as the loop over the shards. */
  method DetermineShardForKey(key: string, shards: seq<Shard>) returns (r: Result<int>)
    ensures r == ShardForKey(shards, key)
  {
    var parsed := Atoi(key);
    if parsed.None? {
      return Ok(-1);
    }
    var k := parsed.value;
    var i := 0;
    while i < |shards|
      invariant 0 <= i <= |shards|
      invariant ShardFrom(shards, k, i) == ShardOf(shards, k)
    {
      if shards[i].rangeStart <= k && k <= shards[i].rangeEnd {
        return Ok(i);
      }
      i := i + 1;
    }
    return Err(NO_SHARD);
  }

  /*** Secondary addresses (LoadReplicationConfig) ***/

  predicate SecondariesKnown(config: ReplicationConfig) {
    var book := AddressBook(config.nodes);
    forall i, j :: 0 <= i < |config.shards| && 0 <= j < |config.shards[i].secondaryIds| ==>
      config.shards[i].secondaryIds[j] in book
  }

  /**
   * Fills each shard's secondaries from its secondary ids; an id missing
   * from the node table is an error.
   */
  method PopulateSecondaries(config: ReplicationConfig) returns (r: Result<ReplicationConfig>)
    ensures r.Ok? <==> SecondariesKnown(config)
    ensures r.Ok? ==> r.value.nodes == config.nodes && |r.value.shards| == |config.shards|
    ensures r.Ok? ==> forall i :: 0 <= i < |config.shards| ==>
      r.value.shards[i] == config.shards[i].(secondaries := r.value.shards[i].secondaries) &&
      Resolved(AddressBook(config.nodes), config.shards[i].secondaryIds, r.value.shards[i].secondaries)
  {
    var book := BuildAddressBook(config.nodes);
    var shards := config.shards;
    var i := 0;
    while i < |shards|
      invariant 0 <= i <= |shards| == |config.shards|
      invariant forall m :: 0 <= m < |shards| ==> shards[m] == config.shards[m].(secondaries := shards[m].secondaries)
      invariant forall m :: 0 <= m < i ==> Resolved(book, config.shards[m].secondaryIds, shards[m].secondaries)
    {
      var ids := shards[i].secondaryIds;
      var addrs: seq<string> := [];
      var j := 0;
      while j < |ids|
        invariant 0 <= j <= |ids|
        invariant Resolved(book, ids[..j], addrs)
      {
        if ids[j] !in book {
          assert !SecondariesKnown(config) by {
            assert config.shards[i].secondaryIds[j] !in AddressBook(config.nodes);
          }
          return Err("could not find address for secondary ID " + ids[j]);
        }
        addrs := addrs + [book[ids[j]]];
        j := j + 1;
      }
      assert ids[..j] == ids;
      shards := shards[i := shards[i].(secondaries := addrs)];
      i := i + 1;
    }
    r := Ok(config.(shards := shards));
  }

  /*** Sub-SLA hit detection (detectSubSLAHit) ***/

  /** How detectSubSLAHit treats an SLA, by its id. */
  datatype SlaKind = Password | Cart | Unrecognised

  function KindOf(id: string): SlaKind {
    if id == "psw_sla" then Password
    else if id == "cart_sla" || id == "dynamic_cart_sla" || id == "new_sla" then Cart
    else Unrecognised
  }

  /** The status recorded for one sub-SLA examined. */
  datatype Status = NA | Met | LatNotMet | ConsistencyNotMet

  datatype SubSlaStatus = SubSlaStatus(sub: SubSla, status: Status)

  /** The i-th minimum read timestamp (0 past the end, where nothing reads it). */
  function MinAt(minReadTs: seq<int>, i: nat): int {
    if i < |minReadTs| then minReadTs[i] else 0
  }

  /**
   * The status of one sub-SLA. Cart SLAs test latency before freshness;
   * the password SLA looks only at latency, and at Eventual sub-SLAs alone
   * when the target is Eventual.
   */
  function Verdict(kind: SlaKind, target: Level, sub: SubSla, nodeHts: int, rtt: int, minTs: int): (s: Status)
    ensures kind == Cart ==> (s == LatNotMet <==> rtt > sub.latency.duration)
    ensures kind == Cart ==> (s == Met <==> rtt <= sub.latency.duration && nodeHts >= minTs)
    ensures kind == Password && target == STRONG ==> (s == Met <==> rtt <= sub.latency.duration)
    ensures kind == Password && target == EVENTUAL ==>
      (s == Met <==> sub.consistency == EVENTUAL && rtt <= sub.latency.duration)
    ensures kind == Password && target != STRONG && target != EVENTUAL ==> s == NA
    ensures kind == Unrecognised ==> s == NA
  {
    match kind
    case Password =>
      if target == STRONG then
        if rtt <= sub.latency.duration then Met else LatNotMet
      else if target == EVENTUAL && sub.consistency == EVENTUAL then
        if rtt <= sub.latency.duration then Met else LatNotMet
      else NA
    case Cart =>
      if rtt > sub.latency.duration then LatNotMet
      else if nodeHts < minTs then ConsistencyNotMet
      else Met
    case Unrecognised => NA
  }

  function VerdictAt(sla: Sla, target: SubSla, nodeHts: int, rtt: int, minReadTs: seq<int>, j: nat): Status
    requires j < |sla.subSlas|
  {
    Verdict(KindOf(sla.id), target.consistency, sla.subSlas[j], nodeHts, rtt, MinAt(minReadTs, j))
  }

  /** The statuses of the first n sub-SLAs. */
  function Trace(sla: Sla, target: SubSla, nodeHts: int, rtt: int, minReadTs: seq<int>, n: nat): (t: seq<SubSlaStatus>)
    requires n <= |sla.subSlas|
    ensures |t| == n
    ensures forall j :: 0 <= j < n ==> t[j] == SubSlaStatus(sla.subSlas[j], VerdictAt(sla, target, nodeHts, rtt, minReadTs, j))
  {
    seq(n, j requires 0 <= j < n => SubSlaStatus(sla.subSlas[j], VerdictAt(sla, target, nodeHts, rtt, minReadTs, j)))
  }

  function MetAt(sla: Sla, target: SubSla, nodeHts: int, rtt: int, minReadTs: seq<int>): nat -> bool {
    (j: nat) => j < |sla.subSlas| && VerdictAt(sla, target, nodeHts, rtt, minReadTs, j) == Met
  }

  lemma MetAtMeans(sla: Sla, target: SubSla, nodeHts: int, rtt: int, minReadTs: seq<int>)
    ensures forall j :: 0 <= j < |sla.subSlas| ==>
      (MetAt(sla, target, nodeHts, rtt, minReadTs)(j) <==> VerdictAt(sla, target, nodeHts, rtt, minReadTs, j) == Met)
  {
  }

  function FirstMet(sla: Sla, target: SubSla, nodeHts: int, rtt: int, minReadTs: seq<int>): Option<nat> {
    First(|sla.subSlas|, MetAt(sla, target, nodeHts, rtt, minReadTs))
  }

  /**
   * What detectSubSLAHit returns: the first sub-SLA that is met and the
   * statuses of the sub-SLAs examined, up to and including it.
   */
  function Detection(nodeHts: int, rtt: int, target: SubSla, sla: Sla, minReadTs: seq<int>)
    : (r: (Option<SubSla>, seq<SubSlaStatus>))
    ensures KindOf(sla.id) == Unrecognised ==> r == (None, [])
    ensures |r.1| <= |sla.subSlas|
    ensures forall j :: 0 <= j < |r.1| ==> r.1[j].sub == sla.subSlas[j]
    ensures r.0.Some? ==> |r.1| > 0 && r.1[|r.1| - 1] == SubSlaStatus(r.0.value, Met)
    ensures r.0.Some? ==> forall j :: 0 <= j < |r.1| - 1 ==> r.1[j].status != Met
    ensures r.0.None? ==> forall j :: 0 <= j < |r.1| ==> r.1[j].status != Met
    ensures r.0.None? && KindOf(sla.id) != Unrecognised ==> |r.1| == |sla.subSlas|
  {
    MetAtMeans(sla, target, nodeHts, rtt, minReadTs);
    if KindOf(sla.id) == Unrecognised then (None, [])
    else match FirstMet(sla, target, nodeHts, rtt, minReadTs)
      case Some(k) => (Some(sla.subSlas[k]), Trace(sla, target, nodeHts, rtt, minReadTs, k + 1))
      case None => (None, Trace(sla, target, nodeHts, rtt, minReadTs, |sla.subSlas|))
  }

  /** A cart SLA needs a minimum read timestamp per sub-SLA. */
  predicate TimestampsFor(sla: Sla, minReadTs: seq<int>) {
    KindOf(sla.id) == Cart ==> |minReadTs| >= |sla.subSlas|
  }

  method DetectSubSlaHit(objTs: int, nodeHts: int, rtt: int, target: SubSla, sla: Sla, minReadTs: seq<int>)
    returns (hit: Option<SubSla>, statuses: seq<SubSlaStatus>)
    requires TimestampsFor(sla, minReadTs)
    ensures (hit, statuses) == Detection(nodeHts, rtt, target, sla, minReadTs)
  {
    var kind := KindOf(sla.id);
    statuses := [];
    if kind == Unrecognised {
      return None, statuses;
    }
    var subs := sla.subSlas;
    var i := 0;
    while i < |subs|
      invariant 0 <= i <= |subs|
      invariant statuses == Trace(sla, target, nodeHts, rtt, minReadTs, i)
      invariant forall j :: 0 <= j < i ==> VerdictAt(sla, target, nodeHts, rtt, minReadTs, j) != Met
    {
      var sub := subs[i];
      var status := NA;
      if kind == Password {
        if target.consistency == STRONG {
          status := if rtt <= sub.latency.duration then Met else LatNotMet;
        } else if target.consistency == EVENTUAL && sub.consistency == EVENTUAL {
          status := if rtt <= sub.latency.duration then Met else LatNotMet;
        }
      } else if rtt > sub.latency.duration {
        status := LatNotMet;
      } else if nodeHts < minReadTs[i] {
        status := ConsistencyNotMet;
      } else {
        status := Met;
      }
      assert status == VerdictAt(sla, target, nodeHts, rtt, minReadTs, i);
      statuses := statuses + [SubSlaStatus(sub, status)];
      if status == Met {
        assert statuses == Trace(sla, target, nodeHts, rtt, minReadTs, i + 1);
        FirstIs(|subs|, MetAt(sla, target, nodeHts, rtt, minReadTs), i);
        return Some(sub), statuses;
      }
      i := i + 1;
    }
    FirstNone(|subs|, MetAt(sla, target, nodeHts, rtt, minReadTs));
    return None, statuses;
  }

  /** Cart SLAs: the hit is the first sub-SLA within latency whose minimum read timestamp the node has reached. */
  lemma CartHit(nodeHts: int, rtt: int, target: SubSla, sla: Sla, minReadTs: seq<int>)
    requires KindOf(sla.id) == Cart && |minReadTs| >= |sla.subSlas|
    ensures var (hit, statuses) := Detection(nodeHts, rtt, target, sla, minReadTs);
      && (hit.Some? <==> exists j :: 0 <= j < |sla.subSlas| && rtt <= sla.subSlas[j].latency.duration && nodeHts >= minReadTs[j])
      && (hit.Some? ==>
            var k := |statuses| - 1;
            && rtt <= sla.subSlas[k].latency.duration && nodeHts >= minReadTs[k]
            && forall j :: 0 <= j < k ==> rtt > sla.subSlas[j].latency.duration || nodeHts < minReadTs[j])
      && forall j :: 0 <= j < |statuses| ==> (statuses[j].status == LatNotMet <==> rtt > sla.subSlas[j].latency.duration)
  {
    var (hit, statuses) := Detection(nodeHts, rtt, target, sla, minReadTs);
    MetAtMeans(sla, target, nodeHts, rtt, minReadTs);
    forall j | 0 <= j < |statuses|
      ensures statuses[j].status == VerdictAt(sla, target, nodeHts, rtt, minReadTs, j)
    {
    }
    if hit.None? {
      forall j | 0 <= j < |sla.subSlas|
        ensures !(rtt <= sla.subSlas[j].latency.duration && nodeHts >= minReadTs[j])
      {
        assert VerdictAt(sla, target, nodeHts, rtt, minReadTs, j) != Met;
      }
    }
  }

  /** The password SLA with a Strong target: the hit is the first sub-SLA within latency. */
  lemma PasswordStrongHit(nodeHts: int, rtt: int, target: SubSla, sla: Sla, minReadTs: seq<int>)
    requires KindOf(sla.id) == Password && target.consistency == STRONG
    ensures var (hit, statuses) := Detection(nodeHts, rtt, target, sla, minReadTs);
      && (hit.Some? <==> exists j :: 0 <= j < |sla.subSlas| && rtt <= sla.subSlas[j].latency.duration)
      && (hit.Some? ==>
            var k := |statuses| - 1;
            rtt <= sla.subSlas[k].latency.duration &&
            forall j :: 0 <= j < k ==> rtt > sla.subSlas[j].latency.duration)
  {
    var (hit, statuses) := Detection(nodeHts, rtt, target, sla, minReadTs);
    MetAtMeans(sla, target, nodeHts, rtt, minReadTs);
    forall j | 0 <= j < |statuses|
      ensures statuses[j].status == VerdictAt(sla, target, nodeHts, rtt, minReadTs, j)
    {
    }
    if hit.None? {
      forall j | 0 <= j < |sla.subSlas|
        ensures rtt > sla.subSlas[j].latency.duration
      {
        assert VerdictAt(sla, target, nodeHts, rtt, minReadTs, j) != Met;
      }
    }
  }

  /**
   * The password SLA with an Eventual target: only Eventual sub-SLAs are
   * considered; the others keep the status NA.
   */
  lemma PasswordEventualHit(nodeHts: int, rtt: int, target: SubSla, sla: Sla, minReadTs: seq<int>)
    requires KindOf(sla.id) == Password && target.consistency == EVENTUAL
    ensures var (hit, statuses) := Detection(nodeHts, rtt, target, sla, minReadTs);
      && (hit.Some? <==> exists j :: (0 <= j < |sla.subSlas| &&
            sla.subSlas[j].consistency == EVENTUAL && rtt <= sla.subSlas[j].latency.duration))
      && (hit.Some? ==> hit.value.consistency == EVENTUAL && rtt <= hit.value.latency.duration)
      && forall j :: 0 <= j < |statuses| && sla.subSlas[j].consistency != EVENTUAL ==> statuses[j].status == NA
  {
    var (hit, statuses) := Detection(nodeHts, rtt, target, sla, minReadTs);
    MetAtMeans(sla, target, nodeHts, rtt, minReadTs);
    forall j | 0 <= j < |statuses|
      ensures statuses[j].status == VerdictAt(sla, target, nodeHts, rtt, minReadTs, j)
    {
    }
    if hit.None? {
      forall j | 0 <= j < |sla.subSlas|
        ensures !(sla.subSlas[j].consistency == EVENTUAL && rtt <= sla.subSlas[j].latency.duration)
      {
        assert VerdictAt(sla, target, nodeHts, rtt, minReadTs, j) != Met;
      }
    }
  }

  /** The password SLA with any other target never hits, and every sub-SLA stays NA. */
  lemma PasswordOtherTargetMisses(nodeHts: int, rtt: int, target: SubSla, sla: Sla, minReadTs: seq<int>)
    requires KindOf(sla.id) == Password && target.consistency != STRONG && target.consistency != EVENTUAL
    ensures var (hit, statuses) := Detection(nodeHts, rtt, target, sla, minReadTs);
      hit.None? && |statuses| == |sla.subSlas| && forall j :: 0 <= j < |statuses| ==> statuses[j].status == NA
  {
    var (hit, statuses) := Detection(nodeHts, rtt, target, sla, minReadTs);
    MetAtMeans(sla, target, nodeHts, rtt, minReadTs);
    forall j | 0 <= j < |statuses|
      ensures statuses[j].status == VerdictAt(sla, target, nodeHts, rtt, minReadTs, j)
    {
    }
  }

  /*** Sub-SLA selection in the evaluation reads ***/

  /**
   * What the primary-only, random and closest reads accept: a sub-SLA within
   * latency that, for a cart SLA, the node is fresh enough for and, for the
   * password SLA, is Eventual unless the node read is the key's primary.
   */
  datatype Rule = WithinLatency | FreshEnough(nodeHts: int, minReadTs: seq<int>) | PrimaryOrEventual(atPrimary: bool)

  predicate Accepts(rule: Rule, sub: SubSla, i: nat, rtt: int) {
    && rtt <= sub.latency.duration
    && match rule
       case WithinLatency => true
       case FreshEnough(nodeHts, minReadTs) => nodeHts >= MinAt(minReadTs, i)
       case PrimaryOrEventual(atPrimary) => atPrimary || sub.consistency == EVENTUAL
  }

  predicate RuleFits(rule: Rule, subs: seq<SubSla>) {
    rule.FreshEnough? ==> |rule.minReadTs| >= |subs|
  }

  function AcceptedAt(subs: seq<SubSla>, rtt: int, rule: Rule): nat -> bool {
    (j: nat) => j < |subs| && Accepts(rule, subs[j], j, rtt)
  }

  /** The index of the first accepted sub-SLA. */
  function Selected(subs: seq<SubSla>, rtt: int, rule: Rule): Option<nat> {
    First(|subs|, AcceptedAt(subs, rtt, rule))
  }

  method SelectSub(subs: seq<SubSla>, rtt: int, rule: Rule) returns (r: Option<nat>)
    requires RuleFits(rule, subs)
    ensures r == Selected(subs, rtt, rule)
  {
    var i := 0;
    while i < |subs|
      invariant 0 <= i <= |subs|
      invariant forall j :: 0 <= j < i ==> !Accepts(rule, subs[j], j, rtt)
    {
      var sub := subs[i];
      if rtt <= sub.latency.duration {
        var ok := match rule
          case WithinLatency => true
          case FreshEnough(nodeHts, minReadTs) => nodeHts >= minReadTs[i]
          case PrimaryOrEventual(atPrimary) => atPrimary || sub.consistency == EVENTUAL;
        if ok {
          FirstIs(|subs|, AcceptedAt(subs, rtt, rule), i);
          return Some(i);
        }
      }
      i := i + 1;
    }
    FirstNone(|subs|, AcceptedAt(subs, rtt, rule));
    return None;
  }

  /** The cart rule of the random and closest reads picks the sub-SLA detectSubSLAHit reports. */
  lemma FreshEnoughMatchesDetection(nodeHts: int, rtt: int, target: SubSla, sla: Sla, minReadTs: seq<int>)
    requires KindOf(sla.id) == Cart && |minReadTs| >= |sla.subSlas|
    ensures Detection(nodeHts, rtt, target, sla, minReadTs).0 ==
      match Selected(sla.subSlas, rtt, FreshEnough(nodeHts, minReadTs))
      case Some(k) => Some(sla.subSlas[k])
      case None => None
  {
    var subs := sla.subSlas;
    FirstAgrees(|subs|, MetAt(sla, target, nodeHts, rtt, minReadTs), AcceptedAt(subs, rtt, FreshEnough(nodeHts, minReadTs)));
  }

  /**
   * The password rule at the primary is plain latency, which detectSubSLAHit
   * applies for a Strong target; away from the primary it is what it applies
   * for an Eventual target.
   */
  lemma PrimaryOrEventualMatchesDetection(nodeHts: int, rtt: int, target: SubSla, sla: Sla, minReadTs: seq<int>, atPrimary: bool)
    requires KindOf(sla.id) == Password
    requires atPrimary ==> target.consistency == STRONG
    requires !atPrimary ==> target.consistency == EVENTUAL
    ensures Detection(nodeHts, rtt, target, sla, minReadTs).0 ==
      match Selected(sla.subSlas, rtt, PrimaryOrEventual(atPrimary))
      case Some(k) => Some(sla.subSlas[k])
      case None => None
  {
    var subs := sla.subSlas;
    FirstAgrees(|subs|, MetAt(sla, target, nodeHts, rtt, minReadTs), AcceptedAt(subs, rtt, PrimaryOrEventual(atPrimary)));
  }

  /** The rule randomGet applies to a SLA id: cart_sla and psw_sla only. */
  function RandomRule(id: string, atPrimary: bool, nodeHts: int, minReadTs: seq<int>): Option<Rule> {
    if id == "cart_sla" then Some(FreshEnough(nodeHts, minReadTs))
    else if id == "psw_sla" then Some(PrimaryOrEventual(atPrimary))
    else None
  }

  /** The rule closestGet applies to a SLA id: cart_sla, new_sla and psw_sla. */
  function ClosestRule(id: string, atPrimary: bool, nodeHts: int, minReadTs: seq<int>): Option<Rule> {
    if id == "cart_sla" || id == "new_sla" then Some(FreshEnough(nodeHts, minReadTs))
    else if id == "psw_sla" then Some(PrimaryOrEventual(atPrimary))
    else None
  }

  /** The sub-SLA a rule scores, or the zero sub-SLA when none is accepted. */
  function Scored(subs: seq<SubSla>, rtt: int, rule: Option<Rule>): (s: SubSla)
    ensures rule.None? ==> s == ZERO_SUB_SLA
    ensures rule.Some? && Selected(subs, rtt, rule.value).Some? ==>
      var k := Selected(subs, rtt, rule.value).value;
      s == subs[k] && Accepts(rule.value, subs[k], k, rtt)
  {
    if rule.None? then ZERO_SUB_SLA
    else match Selected(subs, rtt, rule.value)
      case Some(k) => subs[k]
      case None => ZERO_SUB_SLA
  }

  function Hit(subs: seq<SubSla>, rtt: int, rule: Option<Rule>): bool {
    rule.Some? && Selected(subs, rtt, rule.value).Some?
  }

  /*** The retrying read (readFromNode) ***/

  const MAX_ATTEMPTS: nat := 3

  /** What one GET attempt yields: a failure (HTTP or decoding) or the node's reply. */
  datatype Attempt = Failed(error: string) | Reply(value: string, timestamp: int, highTs: int, elapsed: int)

  /** readFromNode's results: value, object timestamp, node high timestamp, RTT and error. */
  datatype ReadReply = ReadReply(value: string, objTs: int, nodeHts: int, rtt: int, err: Option<string>)

  function RepliedAt(outcomes: seq<Attempt>): nat -> bool {
    (j: nat) => j < |outcomes| && outcomes[j].Reply?
  }

  lemma RepliedAtMeans(outcomes: seq<Attempt>)
    ensures forall j :: 0 <= j < |outcomes| ==> (RepliedAt(outcomes)(j) <==> outcomes[j].Reply?)
  {
  }

  /** The first of the three attempts that gets a reply. */
  function Answered(outcomes: seq<Attempt>): Option<nat> {
    First(MAX_ATTEMPTS, RepliedAt(outcomes))
  }

  /**
   * The read: the first reply among the first three attempts, its RTT
   * raised by the node's artificial lag; ("", -1, -1, 0) and the last
   * attempt's error when all three fail.
   */
  function ReadOutcome(outcomes: seq<Attempt>, lag: int): (r: ReadReply)
    requires |outcomes| >= MAX_ATTEMPTS
    ensures r.err.None? <==> exists j :: 0 <= j < MAX_ATTEMPTS && outcomes[j].Reply?
    ensures r.err.Some? ==> r == ReadReply("", -1, -1, 0, Some(outcomes[MAX_ATTEMPTS - 1].error))
    ensures r.err.None? ==> exists k :: (0 <= k < MAX_ATTEMPTS && outcomes[k].Reply? &&
      (forall j :: 0 <= j < k ==> outcomes[j].Failed?) &&
      r == ReadReply(outcomes[k].value, outcomes[k].timestamp, outcomes[k].highTs, outcomes[k].elapsed + lag, None))
  {
    RepliedAtMeans(outcomes);
    match Answered(outcomes)
    case Some(k) =>
      var a := outcomes[k];
      ReadReply(a.value, a.timestamp, a.highTs, a.elapsed + lag, None)
    case None => ReadReply("", -1, -1, 0, Some(outcomes[MAX_ATTEMPTS - 1].error))
  }

  /** The node's RTT window after one more sample. */
  function RttsAfter(rtts: map<string, seq<int>>, node: string, rtt: int): map<string, seq<int>> {
    rtts[node := Recent((if node in rtts then rtts[node] else []) + [rtt])]
  }

  /** The RTT windows once the cold-start counter has reached count: past five, the sample is kept. */
  function RttsAfterCount(rtts: map<string, seq<int>>, count: int, node: string, rtt: int): map<string, seq<int>> {
    if count > 5 then RttsAfter(rtts, node, rtt) else rtts
  }

  /** The cold-start counter after a read: it counts successful reads only. */
  function CountAfterRead(count: int, r: ReadReply): int {
    if r.err.None? then count + 1 else count
  }

  /** The RTT windows after a read: a successful read past the cold start adds its RTT. */
  function RttsAfterRead(rtts: map<string, seq<int>>, count: int, node: string, r: ReadReply): map<string, seq<int>> {
    if r.err.None? && count + 1 > 5 then RttsAfter(rtts, node, r.rtt) else rtts
  }

  /*** Session bookkeeping ***/

  /** The SLA of a read: the one given, else the session's default. */
  function ActiveSla(defaultSla: Option<Sla>, sla: Option<Sla>): Option<Sla> {
    if sla.Some? then sla else defaultSla
  }

  /**
   * What GetLowestAvgRTTNode promises of the node it names: "" when no node
   * has samples, otherwise a node with samples; and when no average is
   * negative (as with durations measured by time.Since), one whose average
   * is least.
   */
  ghost predicate LowestNode(rtts: map<string, seq<int>>, node: string) {
    && (!HasSamples(rtts) ==> node == "")
    && (HasSamples(rtts) ==> node in rtts && |rtts[node]| > 0)
    && (HasSamples(rtts) && NonNegativeAverages(rtts) ==>
          forall n :: n in rtts && |rtts[n]| > 0 ==> Average(rtts[node]) <= Average(rtts[n]))
  }

  /** Some node holds samples. */
  ghost predicate HasSamples(rtts: map<string, seq<int>>) {
    exists n :: n in rtts && |rtts[n]| > 0
  }

  /** No node's average is negative, as with durations measured by time.Since. */
  ghost predicate NonNegativeAverages(rtts: map<string, seq<int>>) {
    forall n :: n in rtts && |rtts[n]| > 0 ==> Average(rtts[n]) >= 0
  }

    function RealSum(s: seq<real>): real {
    if s == [] then 0.0 else RealSum(s[..|s| - 1]) + s[|s| - 1]
  }

  /** The session's average utility, 0 with no reads. */
  function Mean(s: seq<real>): real {
    if |s| == 0 then 0.0 else RealSum(s) / (|s| as real)
  }

  lemma {:induction false} RealSumBounds(s: seq<real>, hi: real)
    requires forall i :: 0 <= i < |s| ==> 0.0 <= s[i] <= hi
    ensures 0.0 <= RealSum(s) <= (|s| as real) * hi
  {
    if s != [] {
      RealSumBounds(s[..|s| - 1], hi);
    }
  }

  /** Utilities in [0, hi] average to a value in [0, hi]. */
  lemma MeanBounds(s: seq<real>, hi: real)
    requires 0.0 <= hi
    requires forall i :: 0 <= i < |s| ==> 0.0 <= s[i] <= hi
    ensures 0.0 <= Mean(s) <= hi
  {
    if |s| > 0 {
      RealSumBounds(s, hi);
      var n := |s| as real;
      var m := RealSum(s) / n;
      assert m * n == RealSum(s);
      if m > hi {
        assert m * n > hi * n;
      }
    }
  }

  /** EndSession: the average utility and the numbers of keys read and written; the session is emptied. */
  method EndSession(s: Session) returns (avgUtility: real, numReads: nat, numWrites: nat)
    modifies s
    ensures avgUtility == Mean(old(s.utilities))
    ensures numReads == |old(s.objectsRead)| && numWrites == |old(s.objectsWritten)|
    ensures s.objectsRead == map[] && s.objectsWritten == map[] && s.utilities == []
    ensures s.defaultSla == old(s.defaultSla) && s.policy == old(s.policy)
  {
    var us := s.utilities;
    var total := 0.0;
    var i := 0;
    while i < |us|
      invariant 0 <= i <= |us|
      invariant total == RealSum(us[..i])
    {
      assert us[..i + 1][..i] == us[..i];
      total := total + us[i];
      i := i + 1;
    }
    assert us[..i] == us;
    avgUtility := 0.0;
    if |us| > 0 {
      avgUtility := total / (|us| as real);
    }
    numReads := |s.objectsRead|;
    numWrites := |s.objectsWritten|;
    s.objectsRead, s.objectsWritten, s.utilities := map[], map[], [];
  }

  /*** The client's global state ***/

  /** The optimizer's answer for a read: node, target sub-SLA and minimum read timestamps. */
  datatype Choice = Choice(node: string, target: SubSla, minReadTs: seq<int>)

  /** The reply to a Put: an HTTP or decoding failure, or the write timestamp. */
  datatype PutReply = PutError(message: string) | PutOk(setTimestamp: int, elapsed: int)

  /** What a Get returns: the value, the sub-SLA gained (zero if none) and the error. */
  datatype GetResult = GetResult(value: string, sub: SubSla, err: Option<string>)

  const NO_SUB_SLA: string := "No subSLA met"

  /**
   * Scores an evaluation read under a rule (none after a failed read) and
   * appends the utility gained, 0 when no sub-SLA is accepted.
   */
  method ScoreRead(s: Session, subs: seq<SubSla>, rd: ReadReply, rule: Option<Rule>) returns (r: GetResult)
    requires rule.Some? ==> RuleFits(rule.value, subs)
    modifies s
    ensures r.value == rd.value && r.sub == Scored(subs, rd.rtt, rule)
    ensures r.err == if Hit(subs, rd.rtt, rule) then rd.err else Some(NO_SUB_SLA)
    ensures s.utilities == old(s.utilities) + [r.sub.utility]
    ensures s.objectsRead == old(s.objectsRead) && s.objectsWritten == old(s.objectsWritten)
    ensures s.defaultSla == old(s.defaultSla) && s.policy == old(s.policy)
  {
    if rule.Some? {
      var k := SelectSub(subs, rd.rtt, rule.value);
      if k.Some? {
        s.utilities := s.utilities + [subs[k.value].utility];
        return GetResult(rd.value, subs[k.value], rd.err);
      }
    }
    s.utilities := s.utilities + [0.0];
    return GetResult(rd.value, ZERO_SUB_SLA, Some(NO_SUB_SLA));
  }

  /**
   * PileusGet's session bookkeeping: the hit's utility, or 0, is appended;
   * the object's read timestamp is recorded only on a hit.
   */
  method ScoreDetection(s: Session, key: string, rd: ReadReply, hit: Option<SubSla>) returns (r: GetResult)
    modifies s
    ensures r.value == rd.value
    ensures hit.Some? ==> r.sub == hit.value && r.err == rd.err && s.objectsRead == old(s.objectsRead)[key := rd.objTs]
    ensures hit.None? ==> r.sub == ZERO_SUB_SLA && r.err.Some? && s.objectsRead == old(s.objectsRead)
    ensures s.utilities == old(s.utilities) + [r.sub.utility]
    ensures s.objectsWritten == old(s.objectsWritten)
    ensures s.defaultSla == old(s.defaultSla) && s.policy == old(s.policy)
  {
    if hit.None? {
      s.utilities := s.utilities + [0.0];
      return GetResult(rd.value, ZERO_SUB_SLA, Some("no utility could be computed"));
    }
    s.utilities := s.utilities + [hit.value.utility];
    s.objectsRead := s.objectsRead[key := rd.objTs];
    return GetResult(rd.value, hit.value, rd.err);
  }

  /**
   * The package-level state of the API: the replication configuration, the
   * artificial-lag table, the cold-start counter and the monitor.
   */
  class Client {
    var config: ReplicationConfig
    var artificialLags: map<string, int>
    var coldStart: int
    const monitor: Monitor

    ghost predicate Valid()
      reads this, monitor, monitor.Repr
    {
      monitor.Valid() && this !in monitor.Repr
    }

    constructor (m: Monitor)
      requires m.Valid()
      ensures Valid() && monitor == m
      ensures config == ReplicationConfig([], []) && artificialLags == map[] && coldStart == 0
    {
      config := ReplicationConfig([], []);
      artificialLags := map[];
      coldStart := 0;
      monitor := m;
    }

    /** getArtificialLag: 0 for an address no lag was set for. */
    function Lag(address: string): (d: int)
      reads this
      ensures address !in artificialLags ==> d == 0
      ensures address in artificialLags ==> d == artificialLags[address]
    {
      if address in artificialLags then artificialLags[address] else 0
    }

    /** SetArtificialLat: the lag goes to the address of the first node with the id; an unknown id changes nothing. */
    method SetArtificialLat(nodeId: string, lag: int)
      modifies this
      ensures config == old(config) && coldStart == old(coldStart)
      ensures artificialLags == match NodeWithId(config.nodes, nodeId)
                                case Some(k) => old(artificialLags)[config.nodes[k].address := lag]
                                case None => old(artificialLags)
    {
      var nodes := config.nodes;
      var i := 0;
      while i < |nodes|
        invariant 0 <= i <= |nodes|
        invariant forall j :: 0 <= j < i ==> nodes[j].id != nodeId
      {
        if nodes[i].id == nodeId {
          FirstIs(|nodes|, IdAt(nodes, nodeId), i);
          artificialLags := artificialLags[nodes[i].address := lag];
          return;
        }
        i := i + 1;
      }
      FirstNone(|nodes|, IdAt(nodes, nodeId));
    }

    /** LoadReplicationConfig: installs the parsed configuration once every secondary id resolves. */
    method LoadReplicationConfig(parsed: ReplicationConfig) returns (err: Option<string>)
      modifies this
      ensures err.None? <==> SecondariesKnown(parsed)
      ensures err.None? ==> config.nodes == parsed.nodes && |config.shards| == |parsed.shards|
      ensures err.None? ==> forall i :: 0 <= i < |parsed.shards| ==>
        config.shards[i] == parsed.shards[i].(secondaries := config.shards[i].secondaries) &&
        Resolved(AddressBook(parsed.nodes), parsed.shards[i].secondaryIds, config.shards[i].secondaries)
      ensures err.Some? ==> config == old(config)
      ensures artificialLags == old(artificialLags) && coldStart == old(coldStart)
    {
      var r := PopulateSecondaries(parsed);
      if r.Err? {
        return Some(r.message);
      }
      config := r.value;
      return None;
    }

    /** A successful request counts towards the cold start; past five, its RTT is recorded. */
    method CountRtt(node: string, rtt: int)
      requires Valid()
      modifies this, monitor.Repr
      ensures Valid() && fresh(monitor.Repr - old(monitor.Repr))
      ensures config == old(config) && artificialLags == old(artificialLags)
      ensures coldStart == old(coldStart) + 1
      ensures monitor.Rtts == RttsAfterCount(old(monitor.Rtts), coldStart, node, rtt)
      ensures monitor.nodeHts == old(monitor.nodeHts) && monitor.utilities.Contents == old(monitor.utilities.Contents)
    {
      coldStart := coldStart + 1;
      if coldStart > 5 {
        monitor.RecordRtt(node, rtt);
        assert Recent([] + [rtt]) == [rtt];
      }
    }

    /**
     * readFromNode: at most three attempts; the first reply is the result,
     * counted and recorded with the node's high timestamp.
     */
    method ReadFromNode(key: string, node: string, outcomes: seq<Attempt>) returns (r: ReadReply)
      requires Valid() && |outcomes| >= MAX_ATTEMPTS
      modifies this, monitor.Repr
      ensures Valid() && fresh(monitor.Repr - old(monitor.Repr))
      ensures config == old(config) && artificialLags == old(artificialLags)
      ensures r == ReadOutcome(outcomes, Lag(node))
      ensures coldStart == CountAfterRead(old(coldStart), r)
      ensures monitor.Rtts == RttsAfterRead(old(monitor.Rtts), old(coldStart), node, r)
      ensures monitor.nodeHts == if r.err.None? then old(monitor.nodeHts)[node := r.nodeHts] else old(monitor.nodeHts)
      ensures monitor.utilities.Contents == old(monitor.utilities.Contents)
    {
      var lastErr := "";
      var attempt := 0;
      while attempt < MAX_ATTEMPTS
        invariant 0 <= attempt <= MAX_ATTEMPTS
        invariant forall j :: 0 <= j < attempt ==> outcomes[j].Failed?
        invariant attempt > 0 ==> lastErr == outcomes[attempt - 1].error
      {
        var a := outcomes[attempt];
        if a.Failed? {
          lastErr := a.error;
          attempt := attempt + 1;
        } else {
          FirstIs(MAX_ATTEMPTS, RepliedAt(outcomes), attempt);
          var rtt := a.elapsed + Lag(node);
          CountRtt(node, rtt);
          monitor.RecordHts(node, a.highTs);
          return ReadReply(a.value, a.timestamp, a.highTs, rtt, None);
        }
      }
      FirstNone(MAX_ATTEMPTS, RepliedAt(outcomes));
      return ReadReply("", -1, -1, 0, Some(lastErr));
    }

    /**
     * What a successful Put leaves behind: the RTT with the primary's lag
     * counted, the write timestamp recorded in the session, nothing else changed.
     */
    twostate predicate PutRecorded(s: Session, key: string, primary: string, reply: PutReply)
      requires reply.PutOk?
      reads this, monitor, monitor.utilities, s
    {
      && config == old(config) && artificialLags == old(artificialLags)
      && coldStart == old(coldStart) + 1
      && monitor.Rtts == RttsAfterCount(old(monitor.Rtts), old(coldStart) + 1, primary, reply.elapsed + old(Lag(primary)))
      && s.objectsWritten == old(s.objectsWritten)[key := reply.setTimestamp]
      && s.objectsRead == old(s.objectsRead) && s.utilities == old(s.utilities)
      && s.defaultSla == old(s.defaultSla) && s.policy == old(s.policy)
      && monitor.utilities.Contents == old(monitor.utilities.Contents)
    }

    /** The end of a successful Put: the RTT is counted, then the write timestamp recorded. */
    method CompletePut(s: Session, key: string, primary: string, reply: PutReply)
      requires Valid() && s !in monitor.Repr && reply.PutOk?
      modifies this, monitor.Repr, s
      ensures Valid() && fresh(monitor.Repr - old(monitor.Repr))
      ensures PutRecorded(s, key, primary, reply)
    {
      var rtt := reply.elapsed + Lag(primary);
      CountRtt(primary, rtt);
      ghost var rtts := monitor.Rtts;
      s.RecordWrite(key, reply.setTimestamp);
      assert monitor.Rtts == rtts;
    }

    /**
     * Put: routed to the key's primary; a failed request changes nothing, and
     * the write timestamp is recorded only after a successful reply.
     */
    method Put(s: Session, key: string, value: string, reply: PutReply) returns (err: Option<string>)
      requires Valid() && s !in monitor.Repr && Routes(config.shards, key)
      modifies this, monitor.Repr, s
      ensures Valid() && fresh(monitor.Repr - old(monitor.Repr))
      ensures err.None? <==> reply.PutOk?
      ensures reply.PutOk? ==> PutRecorded(s, key, old(PrimaryFor(config.shards, key)), reply)
      ensures reply.PutError? ==>
        && unchanged(this, s)
        && monitor.Rtts == old(monitor.Rtts) && monitor.utilities.Contents == old(monitor.utilities.Contents)
    {
      var primary := PrimaryFor(config.shards, key);
      if reply.PutError? {
        return Some("HTTP error: " + reply.message);
      }
      CompletePut(s, key, primary, reply);
      return None;
    }

    /**
     * What PileusGet leaves behind: the optimizer's node is read, the hit
     * detected against the active SLA decides the utility appended to the
     * session and to the monitor, and the read timestamp is recorded only on a hit.
     */
    twostate predicate PileusRead(s: Session, key: string, sla: Option<Sla>, choice: Choice, outcomes: seq<Attempt>,
                                  r: GetResult)
      reads this, monitor, monitor.utilities, s
    {
      && |outcomes| >= MAX_ATTEMPTS
      && ActiveSla(old(s.defaultSla), sla).Some?
      && config == old(config) && artificialLags == old(artificialLags)
      && s.utilities == old(s.utilities) + [r.sub.utility]
      && monitor.utilities.Contents == Recent(old(monitor.utilities.Contents) + [r.sub.utility])
      && s.objectsWritten == old(s.objectsWritten)
      && s.defaultSla == old(s.defaultSla) && s.policy == old(s.policy)
      && (var rd := ReadOutcome(outcomes, Lag(choice.node));
          var hit := Detection(rd.nodeHts, rd.rtt, choice.target, ActiveSla(old(s.defaultSla), sla).value, choice.minReadTs).0;
          && r.value == rd.value
          && (hit.Some? ==> r.sub == hit.value && r.err == rd.err && s.objectsRead == old(s.objectsRead)[key := rd.objTs])
          && (hit.None? ==> r.sub == ZERO_SUB_SLA && r.err.Some? && s.objectsRead == old(s.objectsRead))
          && coldStart == CountAfterRead(old(coldStart), rd)
          && monitor.Rtts == RttsAfterRead(old(monitor.Rtts), old(coldStart), choice.node, rd))
    }

    /** PileusGet: reads the optimizer's node and scores the read against the SLA. */
    method PileusGet(s: Session, key: string, sla: Option<Sla>, choice: Choice, outcomes: seq<Attempt>)
      returns (r: GetResult)
      requires Valid() && s !in monitor.Repr && |outcomes| >= MAX_ATTEMPTS
      requires ActiveSla(s.defaultSla, sla).Some?
      requires TimestampsFor(ActiveSla(s.defaultSla, sla).value, choice.minReadTs)
      modifies this, monitor.Repr, s
      ensures Valid() && fresh(monitor.Repr - old(monitor.Repr))
      ensures PileusRead(s, key, sla, choice, outcomes, r)
    {
      var active := ActiveSla(s.defaultSla, sla).value;
      var rd := ReadFromNode(key, choice.node, outcomes);
      var hit, statuses := DetectSubSlaHit(rd.objTs, rd.nodeHts, rd.rtt, choice.target, active, choice.minReadTs);
      r := ScoreDetection(s, key, rd, hit);
      monitor.RecordUtility(r.sub.utility);
    }

    /**
     * What primaryOnlyGet leaves behind: the key's primary is read. Without
     * an SLA nothing is scored; otherwise the first sub-SLA within latency is
     * gained, and one utility (it, or 0) is appended.
     */
    twostate predicate PrimaryOnlyRead(s: Session, key: string, sla: Option<Sla>, outcomes: seq<Attempt>, r: GetResult)
      requires Routes(config.shards, key)
      reads this, monitor, monitor.utilities, s
    {
      && |outcomes| >= MAX_ATTEMPTS
      && config == old(config) && artificialLags == old(artificialLags)
      && s.objectsRead == old(s.objectsRead) && s.objectsWritten == old(s.objectsWritten)
      && s.defaultSla == old(s.defaultSla) && s.policy == old(s.policy)
      && monitor.utilities.Contents == old(monitor.utilities.Contents)
      && (var primary := PrimaryFor(config.shards, key);
          var rd := ReadOutcome(outcomes, Lag(primary));
          var active := ActiveSla(old(s.defaultSla), sla);
          && (active.None? ==> r == GetResult(rd.value, ZERO_SUB_SLA, rd.err) && s.utilities == old(s.utilities))
          && (active.Some? && rd.err.Some? ==> r == GetResult(rd.value, ZERO_SUB_SLA, Some(NO_SUB_SLA)))
          && (active.Some? && rd.err.None? ==>
                var rule := Some(WithinLatency);
                r.value == rd.value && r.sub == Scored(active.value.subSlas, rd.rtt, rule) &&
                r.err == if Hit(active.value.subSlas, rd.rtt, rule) then None else Some(NO_SUB_SLA))
          && (active.Some? ==> s.utilities == old(s.utilities) + [r.sub.utility])
          && coldStart == CountAfterRead(old(coldStart), rd)
          && monitor.Rtts == RttsAfterRead(old(monitor.Rtts), old(coldStart), primary, rd))
    }

    /** primaryOnlyGet: reads the key's primary. */
    method PrimaryOnlyGet(s: Session, key: string, sla: Option<Sla>, outcomes: seq<Attempt>)
      returns (r: GetResult)
      requires Valid() && s !in monitor.Repr && |outcomes| >= MAX_ATTEMPTS && Routes(config.shards, key)
      modifies this, monitor.Repr, s
      ensures Valid() && fresh(monitor.Repr - old(monitor.Repr))
      ensures Routes(config.shards, key) && PrimaryOnlyRead(s, key, sla, outcomes, r)
    {
      var active := ActiveSla(s.defaultSla, sla);
      var shard := DetermineShardForKey(key, config.shards);
      var primary := config.shards[shard.value].primary;
      var rd := ReadFromNode(key, primary, outcomes);
      if active.None? {
        return GetResult(rd.value, ZERO_SUB_SLA, rd.err);
      }
      if rd.err.Some? {
        r := ScoreRead(s, [], rd, None);
      } else {
        r := ScoreRead(s, active.value.subSlas, rd, Some(WithinLatency));
      }
    }

    /**
     * What randomGet leaves behind: the node the draw picks is read;
     * cart_sla and psw_sla are scored by their rules, any other SLA gains
     * nothing, and one utility is appended.
     */
    twostate predicate RandomRead(s: Session, key: string, sla: Option<Sla>, draw: nat, minReadTs: seq<int>,
                                  outcomes: seq<Attempt>, r: GetResult)
      requires Routes(config.shards, key) && |config.nodes| > 0
      reads this, monitor, monitor.utilities, s
    {
      && |outcomes| >= MAX_ATTEMPTS
      && config == old(config) && artificialLags == old(artificialLags)
      && s.utilities == old(s.utilities) + [r.sub.utility]
      && s.objectsRead == old(s.objectsRead) && s.objectsWritten == old(s.objectsWritten)
      && s.defaultSla == old(s.defaultSla) && s.policy == old(s.policy)
      && monitor.utilities.Contents == old(monitor.utilities.Contents)
      && (var node := config.nodes[draw % |config.nodes|].address;
          var rd := ReadOutcome(outcomes, Lag(node));
          && (rd.err.Some? ==> r == GetResult(rd.value, ZERO_SUB_SLA, Some(NO_SUB_SLA)))
          && (rd.err.None? ==>
                && ActiveSla(old(s.defaultSla), sla).Some?
                && (var active := ActiveSla(old(s.defaultSla), sla).value;
                    var rule := RandomRule(active.id, node == PrimaryFor(config.shards, key), rd.nodeHts, minReadTs);
                    r.value == rd.value && r.sub == Scored(active.subSlas, rd.rtt, rule) &&
                    r.err == if Hit(active.subSlas, rd.rtt, rule) then None else Some(NO_SUB_SLA)))
          && coldStart == CountAfterRead(old(coldStart), rd)
          && monitor.Rtts == RttsAfterRead(old(monitor.Rtts), old(coldStart), node, rd))
    }

    /** randomGet: reads the node the draw picks. */
    method RandomGet(s: Session, key: string, sla: Option<Sla>, draw: nat, minReadTs: seq<int>, outcomes: seq<Attempt>)
      returns (r: GetResult)
      requires Valid() && s !in monitor.Repr && |outcomes| >= MAX_ATTEMPTS && Routes(config.shards, key)
      requires |config.nodes| > 0
      requires Answered(outcomes).Some? ==> ActiveSla(s.defaultSla, sla).Some?
      requires (Answered(outcomes).Some? && ActiveSla(s.defaultSla, sla).Some? &&
        ActiveSla(s.defaultSla, sla).value.id == "cart_sla") ==>
        |minReadTs| >= |ActiveSla(s.defaultSla, sla).value.subSlas|
      modifies this, monitor.Repr, s
      ensures Valid() && fresh(monitor.Repr - old(monitor.Repr))
      ensures Routes(config.shards, key) && |config.nodes| > 0
      ensures RandomRead(s, key, sla, draw, minReadTs, outcomes, r)
    {
      var active := ActiveSla(s.defaultSla, sla);
      var node := config.nodes[draw % |config.nodes|];
      var shard := DetermineShardForKey(key, config.shards);
      var primary := config.shards[shard.value].primary;
      var rd := ReadFromNode(key, node.address, outcomes);
      if rd.err.Some? {
        r := ScoreRead(s, [], rd, None);
      } else {
        var rule := RandomRule(active.value.id, node.address == primary, rd.nodeHts, minReadTs);
        r := ScoreRead(s, active.value.subSlas, rd, rule);
      }
    }

    /** The node with the lowest average RTT, "" when no node has samples. */
    method ClosestNode() returns (node: string)
      requires Valid()
      ensures LowestNode(monitor.Rtts, node)
    {
      var minRtt;
      node, minRtt := monitor.GetLowestAvgRttNode();
    }

    /**
     * What closestGet leaves behind: the node with the lowest average RTT
     * before the read is read; cart_sla, new_sla and psw_sla are scored by
     * their rules, any other SLA gains nothing, and one utility is appended.
     */
    twostate predicate ClosestRead(s: Session, key: string, sla: Option<Sla>, minReadTs: seq<int>,
                                   outcomes: seq<Attempt>, r: GetResult, closest: string)
      requires Routes(config.shards, key)
      reads this, monitor, monitor.utilities, s
    {
      && LowestNode(old(monitor.Rtts), closest)
      && ClosestScored(s, key, sla, minReadTs, outcomes, r, closest)
    }

    /** What closestGet leaves behind once it has picked `node`. */
    twostate predicate ClosestScored(s: Session, key: string, sla: Option<Sla>, minReadTs: seq<int>,
                                     outcomes: seq<Attempt>, r: GetResult, node: string)
      requires Routes(config.shards, key)
      reads this, monitor, monitor.utilities, s
    {
      && |outcomes| >= MAX_ATTEMPTS
      && config == old(config) && artificialLags == old(artificialLags)
      && s.utilities == old(s.utilities) + [r.sub.utility]
      && s.objectsRead == old(s.objectsRead) && s.objectsWritten == old(s.objectsWritten)
      && s.defaultSla == old(s.defaultSla) && s.policy == old(s.policy)
      && monitor.utilities.Contents == old(monitor.utilities.Contents)
      && (var rd := ReadOutcome(outcomes, Lag(node));
          && (rd.err.Some? ==> r == GetResult(rd.value, ZERO_SUB_SLA, Some(NO_SUB_SLA)))
          && (rd.err.None? ==>
                && ActiveSla(old(s.defaultSla), sla).Some?
                && (var active := ActiveSla(old(s.defaultSla), sla).value;
                    var rule := ClosestRule(active.id, node == PrimaryFor(config.shards, key), rd.nodeHts, minReadTs);
                    r.value == rd.value && r.sub == Scored(active.subSlas, rd.rtt, rule) &&
                    r.err == if Hit(active.subSlas, rd.rtt, rule) then None else Some(NO_SUB_SLA)))
          && coldStart == CountAfterRead(old(coldStart), rd)
          && monitor.Rtts == RttsAfterRead(old(monitor.Rtts), old(coldStart), node, rd))
    }

    /** The read and scoring half of closestGet, at the node it picked. */
    method ReadClosest(s: Session, key: string, sla: Option<Sla>, minReadTs: seq<int>, outcomes: seq<Attempt>,
                       node: string)
      returns (r: GetResult)
      requires Valid() && s !in monitor.Repr && |outcomes| >= MAX_ATTEMPTS && Routes(config.shards, key)
      requires Answered(outcomes).Some? ==> ActiveSla(s.defaultSla, sla).Some?
      requires (Answered(outcomes).Some? && ActiveSla(s.defaultSla, sla).Some? &&
        ActiveSla(s.defaultSla, sla).value.id in {"cart_sla", "new_sla"}) ==>
        |minReadTs| >= |ActiveSla(s.defaultSla, sla).value.subSlas|
      modifies this, monitor.Repr, s
      ensures Valid() && fresh(monitor.Repr - old(monitor.Repr))
      ensures Routes(config.shards, key) && ClosestScored(s, key, sla, minReadTs, outcomes, r, node)
    {
      var active := ActiveSla(s.defaultSla, sla);
      var shard := DetermineShardForKey(key, config.shards);
      var primary := config.shards[shard.value].primary;
      var rd := ReadFromNode(key, node, outcomes);
      if rd.err.Some? {
        r := ScoreRead(s, [], rd, None);
      } else {
        var rule := ClosestRule(active.value.id, node == primary, rd.nodeHts, minReadTs);
        r := ScoreRead(s, active.value.subSlas, rd, rule);
      }
    }

    /** closestGet: reads the node with the lowest average RTT. */
    method ClosestGet(s: Session, key: string, sla: Option<Sla>, minReadTs: seq<int>, outcomes: seq<Attempt>)
      returns (r: GetResult, ghost closest: string)
      requires Valid() && s !in monitor.Repr && |outcomes| >= MAX_ATTEMPTS && Routes(config.shards, key)
      requires Answered(outcomes).Some? ==> ActiveSla(s.defaultSla, sla).Some?
      requires (Answered(outcomes).Some? && ActiveSla(s.defaultSla, sla).Some? &&
        ActiveSla(s.defaultSla, sla).value.id in {"cart_sla", "new_sla"}) ==>
        |minReadTs| >= |ActiveSla(s.defaultSla, sla).value.subSlas|
      modifies this, monitor.Repr, s
      ensures Valid() && fresh(monitor.Repr - old(monitor.Repr))
      ensures Routes(config.shards, key) && ClosestRead(s, key, sla, minReadTs, outcomes, r, closest)
    {
      var node := ClosestNode();
      closest := node;
      r := ReadClosest(s, key, sla, minReadTs, outcomes, node);
    }

    /**
     * Get: dispatches on the session's server selection policy, Pileus
     * being the default, and leaves behind what the selected read does.
     * `closest` is the node a closest read picked.
     */
    method Get(s: Session, key: string, sla: Option<Sla>, choice: Choice, draw: nat, outcomes: seq<Attempt>)
      returns (r: GetResult, ghost closest: string)
      requires Valid() && s !in monitor.Repr && |outcomes| >= MAX_ATTEMPTS
      requires s.policy in {RANDOM, PRIMARY, CLOSEST} ==> Routes(config.shards, key)
      requires s.policy == RANDOM ==> |config.nodes| > 0
      requires s.policy in {RANDOM, CLOSEST} && Answered(outcomes).Some? ==> ActiveSla(s.defaultSla, sla).Some?
      requires (s.policy in {RANDOM, CLOSEST} && Answered(outcomes).Some? && ActiveSla(s.defaultSla, sla).Some? &&
        ActiveSla(s.defaultSla, sla).value.id in {"cart_sla", "new_sla"}) ==>
        |choice.minReadTs| >= |ActiveSla(s.defaultSla, sla).value.subSlas|
      requires s.policy !in {RANDOM, PRIMARY, CLOSEST} ==>
        ActiveSla(s.defaultSla, sla).Some? && TimestampsFor(ActiveSla(s.defaultSla, sla).value, choice.minReadTs)
      modifies this, monitor.Repr, s
      ensures Valid() && fresh(monitor.Repr - old(monitor.Repr))
      ensures config == old(config) && artificialLags == old(artificialLags)
      ensures s.policy == old(s.policy) && s.defaultSla == old(s.defaultSla)
      ensures old(s.policy) !in {RANDOM, PRIMARY, CLOSEST} ==> PileusRead(s, key, sla, choice, outcomes, r)
      ensures old(s.policy) == RANDOM ==>
        Routes(config.shards, key) && |config.nodes| > 0 && RandomRead(s, key, sla, draw, choice.minReadTs, outcomes, r)
      ensures old(s.policy) == PRIMARY ==> Routes(config.shards, key) && PrimaryOnlyRead(s, key, sla, outcomes, r)
      ensures old(s.policy) == CLOSEST ==>
        Routes(config.shards, key) && ClosestRead(s, key, sla, choice.minReadTs, outcomes, r, closest)
      ensures s.utilities == old(s.utilities) + [r.sub.utility] ||
        (old(s.policy) == PRIMARY && ActiveSla(old(s.defaultSla), sla).None? && s.utilities == old(s.utilities))
    {
      closest := "";
      if s.policy == PILEUS {
        r := PileusGet(s, key, sla, choice, outcomes);
      } else if s.policy == RANDOM {
        r := RandomGet(s, key, sla, draw, choice.minReadTs, outcomes);
      } else if s.policy == PRIMARY {
        r := PrimaryOnlyGet(s, key, sla, outcomes);
      } else if s.policy == CLOSEST {
        r, closest := ClosestGet(s, key, sla, choice.minReadTs, outcomes);
      } else {
        r := PileusGet(s, key, sla, choice, outcomes);
      }
    }
  }

  /** The first node carrying an id. */
  function IdAt(nodes: seq<StorageNode>, id: string): nat -> bool {
    (j: nat) => j < |nodes| && nodes[j].id == id
  }

  function NodeWithId(nodes: seq<StorageNode>, id: string): Option<nat> {
    First(|nodes|, IdAt(nodes, id))
  }
}
