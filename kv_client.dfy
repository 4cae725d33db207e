/**
 * The storage layer's test client (redis_kv_store/client.go): shards from
 * sharding_config.json, each with a Redis client for its primary; puts are
 * routed to the first shard whose inclusive range holds the key.
 *
 * Random keys, uuids, the clock, Redis replies and connection results are
 * parameters. A Go panic (no shard for a key) is the NoShardPanic outcome.
 */
module KvClient {
  import opened Wrappers
  import opened Text
  import opened KvUtil
  import opened RedisStore
  import opened FirstMatch
  import opened Consistency

  /** putWorkload draws keys with rand.Intn(6000). */
  const KEY_SPACE: nat := 6000

  datatype KvRecord = KvRecord(key: int, value: string)

  /** A shard as sharding_config.json gives it. */
  datatype ShardSpec = ShardSpec(rangeStart: int, rangeEnd: int, primaryAddress: string)

  /** A loaded shard: its range and the Redis client of its primary. */
  datatype KvShard = KvShard(rangeStart: int, rangeEnd: int, primaryAddress: string, primary: Client)

  // ---------------------------------------------------------------------------
  // Client options per shard

  /** The options LoadConfig builds: DefaultOptions with the address replaced (range [0, 0]). */
  function OptionsAsWritten(spec: ShardSpec): Options {
    DEFAULT_OPTIONS.(address := spec.primaryAddress)
  }

  /** With the options as written, the client refuses every key whose number is not 0. */
  lemma AsWrittenRefusesShardKeys(spec: ShardSpec, key: nat, value: string)
    requires 0 < key <= MAX_INT64
    ensures var o := WithDefaults(OptionsAsWritten(spec));
      o.shardRangeStart == 0 && o.shardRangeEnd == 0 &&
      SetRefusal(o.shardRangeStart, o.shardRangeEnd, Itoa(key), Some(value)).Some?
  {
    KeyToIntOfItoa(key);
  }

  /** The options with the shard's own range, which the loading below uses. */
  function ShardOptions(spec: ShardSpec): Options {
    DEFAULT_OPTIONS.(address := spec.primaryAddress, shardRangeStart := spec.rangeStart, shardRangeEnd := spec.rangeEnd)
  }

  /** With the shard's range, every key of the shard is accepted. */
  lemma ShardOptionsAcceptShardKeys(spec: ShardSpec, key: nat, value: string)
    requires spec.rangeStart <= key <= spec.rangeEnd && key <= MAX_INT64
    ensures var o := WithDefaults(ShardOptions(spec));
      o.shardRangeStart == spec.rangeStart && o.shardRangeEnd == spec.rangeEnd &&
      SetRefusal(o.shardRangeStart, o.shardRangeEnd, Itoa(key), Some(value)).None?
  {
    KeyToIntOfItoa(key);
  }

  /**
   * LoadConfig after decoding: one client per shard (connected with the
   * shard's own range); the first failed connection is an error.
   */
  method LoadConfig(specs: seq<ShardSpec>, pings: seq<Option<string>>, dbs: seq<map<string, Stored>>)
    returns (r: Result<seq<KvShard>>)
    requires |pings| == |specs| && |dbs| == |specs|
    ensures r.Err? <==> exists i :: 0 <= i < |pings| && pings[i].Some?
    ensures r.Ok? ==> |r.value| == |specs|
    ensures r.Ok? ==> forall i :: 0 <= i < |specs| ==>
      var s, o := r.value[i], WithDefaults(ShardOptions(specs[i]));
      && s.rangeStart == specs[i].rangeStart && s.rangeEnd == specs[i].rangeEnd
      && s.primaryAddress == specs[i].primaryAddress
      && s.primary.address == o.address
      && s.primary.shardRangeStart == specs[i].rangeStart && s.primary.shardRangeEnd == specs[i].rangeEnd
      && s.primary.store == dbs[i] && fresh(s.primary)
    ensures r.Ok? ==> forall i, j :: 0 <= i < j < |specs| ==> r.value[i].primary != r.value[j].primary
  {
    var shards: seq<KvShard> := [];
    for i := 0 to |specs|
      invariant |shards| == i
      invariant forall m :: 0 <= m < i ==> pings[m].None?
      invariant forall m :: 0 <= m < i ==>
        var s, o := shards[m], WithDefaults(ShardOptions(specs[m]));
        && s.rangeStart == specs[m].rangeStart && s.rangeEnd == specs[m].rangeEnd
        && s.primaryAddress == specs[m].primaryAddress
        && s.primary.address == o.address
        && s.primary.shardRangeStart == specs[m].rangeStart && s.primary.shardRangeEnd == specs[m].rangeEnd
        && s.primary.store == dbs[m] && fresh(s.primary)
      invariant forall m, n :: 0 <= m < n < i ==> shards[m].primary != shards[n].primary
    {
      var spec := specs[i];
      var client := NewClient(ShardOptions(spec), pings[i], dbs[i]);
      if client.Err? {
        return Err("failed to connect to redis at " + spec.primaryAddress + ": " + client.message);
      }
      shards := shards + [KvShard(spec.rangeStart, spec.rangeEnd, spec.primaryAddress, client.value)];
    }
    r := Ok(shards);
  }

  // ---------------------------------------------------------------------------
  // Routing and puts

  predicate Covers(shard: KvShard, key: int) {
    shard.rangeStart <= key <= shard.rangeEnd
  }

  function CoversAt(shards: seq<KvShard>, key: int): nat -> bool {
    (j: nat) => j < |shards| && Covers(shards[j], key)
  }

  /** The first shard whose inclusive range holds the key; None where Go panics. */
  function ShardOf(shards: seq<KvShard>, key: int): Option<nat> {
    First(|shards|, CoversAt(shards, key))
  }

  /** determineShardForKey: the first covering shard, or a panic when none covers the key. */
  method DetermineShardForKey(shards: seq<KvShard>, key: int) returns (r: Option<nat>)
    ensures r == ShardOf(shards, key)
    ensures r.Some? ==> (r.value < |shards| && Covers(shards[r.value], key)
      && forall j :: 0 <= j < r.value ==> !Covers(shards[j], key))
    ensures r.None? ==> forall j :: 0 <= j < |shards| ==> !Covers(shards[j], key)
  {
    for i := 0 to |shards|
      invariant forall j :: 0 <= j < i ==> !Covers(shards[j], key)
    {
      if shards[i].rangeStart <= key <= shards[i].rangeEnd {
        FirstIs(|shards|, CoversAt(shards, key), i);
        return Some(i);
      }
    }
    FirstNone(|shards|, CoversAt(shards, key));
    return None;
  }

  datatype PutOutcome = PutOk | PutFailed(message: string) | NoShardPanic

  function Primaries(shards: seq<KvShard>): set<Client> {
    set i | 0 <= i < |shards| :: shards[i].primary
  }

  /** The absolute value of a key: what Set's digit run reads from its decimal spelling. */
  function Magnitude(key: int): (n: nat)
    ensures n == key || n == -key
  {
    if key < 0 then -key else key
  }

  /**
   * Whether sendPut of a key succeeds, given the Redis reply: some shard
   * covers the key, and its primary's Set accepts the key's decimal
   * spelling, whose digits (past a '-') must lie in int64 and in the
   * primary's range.
   */
  predicate PutSucceeds(shards: seq<KvShard>, key: int, redisErr: Option<string>) {
    match ShardOf(shards, key)
    case None => false
    case Some(i) =>
      var c := shards[i].primary;
      Magnitude(key) <= MAX_INT64 && c.shardRangeStart <= Magnitude(key) <= c.shardRangeEnd && redisErr.None?
  }

  /** Set's checks on the decimal spelling of an integer key, stated on the integer. */
  lemma SetAcceptsItoa(start: int, end: int, key: int, value: string)
    ensures SetRefusal(start, end, Itoa(key), Some(value)).None? <==>
            Magnitude(key) <= MAX_INT64 && start <= Magnitude(key) <= end
  {
    FindDigitsOfItoa(key);
  }

  /** sendPut: Set on the chosen shard's primary under the key's decimal string. */
  method SendPut(shards: seq<KvShard>, rec: KvRecord, nowNanos: nat, redisErr: Option<string>) returns (r: PutOutcome)
    modifies Primaries(shards)
    ensures r.NoShardPanic? <==> ShardOf(shards, rec.key).None?
    ensures r.PutOk? <==> PutSucceeds(shards, rec.key, redisErr)
    ensures ShardOf(shards, rec.key).Some? ==>
      var c := shards[ShardOf(shards, rec.key).value].primary;
      && (r.PutOk? ==> c.store == old(c.store)[Itoa(rec.key) := Versioned(VersionedValue(Some(rec.value), nowNanos / MILLISECOND))])
      && (!r.PutOk? ==> c.store == old(c.store))
      && forall d :: d in Primaries(shards) && d != c ==> d.store == old(d.store)
    ensures ShardOf(shards, rec.key).None? ==> forall d :: d in Primaries(shards) ==> d.store == old(d.store)
  {
    var shardId := DetermineShardForKey(shards, rec.key);
    if shardId.None? {
      return NoShardPanic;
    }
    var c := shards[shardId.value].primary;
    SetAcceptsItoa(c.shardRangeStart, c.shardRangeEnd, rec.key, rec.value);
    var err := c.Set(Itoa(rec.key), Some(rec.value), nowNanos, redisErr);
    if err.Some? {
      return PutFailed("failed to store key " + Itoa(rec.key) + ": " + err.value);
    }
    return PutOk;
  }

  /** Whether sendPut of (key, value) succeeds and stores on client d. */
  predicate PutLandsOn(shards: seq<KvShard>, key: int, value: string, redisErr: Option<string>, d: Client) {
    match ShardOf(shards, key)
    case None => false
    case Some(i) => shards[i].primary == d && PutSucceeds(shards, key, redisErr)
  }

  /**
   * What one sendPut of (key, value) leaves in client d's store: the stamped
   * value under the key's decimal string when the put lands on d, the store
   * as it was otherwise.
   */
  function AfterPut(shards: seq<KvShard>, key: int, value: string, nowNanos: nat, redisErr: Option<string>,
                    d: Client, store: map<string, Stored>): map<string, Stored>
  {
    if PutLandsOn(shards, key, value, redisErr, d)
    then store[Itoa(key) := Versioned(VersionedValue(Some(value), nowNanos / MILLISECOND))]
    else store
  }

  /** Client d's store after the first k puts of putWorkload, starting from `store`. */
  function PutsApplied(shards: seq<KvShard>, draws: seq<nat>, values: seq<string>, nows: seq<nat>,
                       redisErrs: seq<Option<string>>, d: Client, store: map<string, Stored>, k: nat)
    : map<string, Stored>
    requires k <= |draws| && k <= |values| && k <= |nows| && k <= |redisErrs|
  {
    if k == 0 then store
    else AfterPut(shards, draws[k - 1] % KEY_SPACE, values[k - 1], nows[k - 1], redisErrs[k - 1], d,
                  PutsApplied(shards, draws, values, nows, redisErrs, d, store, k - 1))
  }

  /** A primary that none of the first k keys routes to keeps its store. */
  lemma {:induction false} PutsAppliedUntouched(shards: seq<KvShard>, draws: seq<nat>, values: seq<string>, nows: seq<nat>,
                                                redisErrs: seq<Option<string>>, d: Client, store: map<string, Stored>, k: nat)
    requires k <= |draws| && k <= |values| && k <= |nows| && k <= |redisErrs|
    requires forall j :: 0 <= j < k ==>
      ShardOf(shards, draws[j] % KEY_SPACE).None? || shards[ShardOf(shards, draws[j] % KEY_SPACE).value].primary != d
    ensures PutsApplied(shards, draws, values, nows, redisErrs, d, store, k) == store
  {
    if k > 0 {
      PutsAppliedUntouched(shards, draws, values, nows, redisErrs, d, store, k - 1);
    }
  }

  /**
   * The last successful put among the first k whose key is stored by d
   * decides what d holds under that key: the later put's value and stamp.
   */
  lemma {:induction false} PutsAppliedLastWins(shards: seq<KvShard>, draws: seq<nat>, values: seq<string>, nows: seq<nat>,
                                               redisErrs: seq<Option<string>>, d: Client, store: map<string, Stored>,
                                               k: nat, j: nat)
    requires k <= |draws| && k <= |values| && k <= |nows| && k <= |redisErrs| && j < k
    requires PutLandsOn(shards, draws[j] % KEY_SPACE, values[j], redisErrs[j], d)
    requires forall m :: j < m < k ==> draws[m] % KEY_SPACE != draws[j] % KEY_SPACE
    ensures var key := Itoa(draws[j] % KEY_SPACE);
            var after := PutsApplied(shards, draws, values, nows, redisErrs, d, store, k);
            key in after && after[key] == Versioned(VersionedValue(Some(values[j]), nows[j] / MILLISECOND))
    decreases k
  {
    var m := k - 1;
    var prev := PutsApplied(shards, draws, values, nows, redisErrs, d, store, m);
    var km := draws[m] % KEY_SPACE;
    AfterPutAt(shards, km, values[m], nows[m], redisErrs[m], d, prev, Itoa(draws[j] % KEY_SPACE));
    if m > j {
      PutsAppliedLastWins(shards, draws, values, nows, redisErrs, d, store, m, j);
      ItoaInjective(km, draws[j] % KEY_SPACE);
    }
  }

  /** One put writes its own key when it lands, and no other key. */
  lemma AfterPutAt(shards: seq<KvShard>, key: int, value: string, nowNanos: nat, redisErr: Option<string>,
                   d: Client, store: map<string, Stored>, k: string)
    ensures var after := AfterPut(shards, key, value, nowNanos, redisErr, d, store);
            && (k == Itoa(key) && PutLandsOn(shards, key, value, redisErr, d) ==>
                  k in after && after[k] == Versioned(VersionedValue(Some(value), nowNanos / MILLISECOND)))
            && (k != Itoa(key) ==> (k in after <==> k in store) && (k in store ==> after[k] == store[k]))
  {
  }

  /** Distinct keys of the key space have distinct decimal spellings. */
  lemma ItoaInjective(a: nat, b: nat)
    requires a < KEY_SPACE && b < KEY_SPACE && a != b
    ensures Itoa(a) != Itoa(b)
  {
    AtoiOfDecimal(a);
    AtoiOfDecimal(b);
  }

  /** Whether the j-th put of putWorkload (key from the j-th draw, value the j-th uuid) fails. */
  predicate NthPutFails(shards: seq<KvShard>, draws: seq<nat>, values: seq<string>, redisErrs: seq<Option<string>>, j: nat) {
    j < |draws| && j < |values| && j < |redisErrs| && !PutSucceeds(shards, draws[j] % KEY_SPACE, redisErrs[j])
  }

  function FailsAt(shards: seq<KvShard>, draws: seq<nat>, values: seq<string>, redisErrs: seq<Option<string>>): nat -> bool {
    (j: nat) => NthPutFails(shards, draws, values, redisErrs, j)
  }

  /** One put of putWorkload: the j-th draw's key with the j-th uuid. */
  method NthPut(shards: seq<KvShard>, draws: seq<nat>, values: seq<string>, nows: seq<nat>,
                redisErrs: seq<Option<string>>, j: nat)
    returns (r: PutOutcome)
    requires j < |draws| && j < |values| && j < |nows| && j < |redisErrs|
    modifies Primaries(shards)
    ensures r.PutOk? <==> !NthPutFails(shards, draws, values, redisErrs, j)
    ensures r.NoShardPanic? <==> ShardOf(shards, draws[j] % KEY_SPACE).None?
    ensures forall d :: d in Primaries(shards) ==>
      d.store == AfterPut(shards, draws[j] % KEY_SPACE, values[j], nows[j], redisErrs[j], d, old(d.store))
  {
    r := SendPut(shards, KvRecord(draws[j] % KEY_SPACE, values[j]), nows[j], redisErrs[j]);
  }

  /** The stores of the shards' primaries. */
  function Stores(shards: seq<KvShard>): map<Client, map<string, Stored>>
    reads Primaries(shards)
  {
    map d | d in Primaries(shards) :: d.store
  }

  /** Each client's store in `start` after the first k puts of putWorkload. */
  function StoresAfter(shards: seq<KvShard>, draws: seq<nat>, values: seq<string>, nows: seq<nat>,
                       redisErrs: seq<Option<string>>, start: map<Client, map<string, Stored>>, k: nat)
    : map<Client, map<string, Stored>>
    requires k <= |draws| && k <= |values| && k <= |nows| && k <= |redisErrs|
  {
    map d | d in start :: PutsApplied(shards, draws, values, nows, redisErrs, d, start[d], k)
  }

  /** One iteration of putWorkload's loop: the k-th put, carrying the stores of the first k puts to k + 1. */
  method PutStep(shards: seq<KvShard>, draws: seq<nat>, values: seq<string>, nows: seq<nat>,
                 redisErrs: seq<Option<string>>, k: nat, ghost start: map<Client, map<string, Stored>>)
    returns (r: PutOutcome)
    requires k < |draws| && k < |values| && k < |nows| && k < |redisErrs|
    requires Stores(shards) == StoresAfter(shards, draws, values, nows, redisErrs, start, k)
    modifies Primaries(shards)
    ensures r.PutOk? <==> !NthPutFails(shards, draws, values, redisErrs, k)
    ensures Stores(shards) == StoresAfter(shards, draws, values, nows, redisErrs, start, k + 1)
  {
    ghost var before := Stores(shards);
    r := NthPut(shards, draws, values, nows, redisErrs, k);
    forall d | d in Primaries(shards)
      ensures d in start && d.store == PutsApplied(shards, draws, values, nows, redisErrs, d, start[d], k + 1)
    {
      assert d in before;
      assert before[d] == StoresAfter(shards, draws, values, nows, redisErrs, start, k)[d];
    }
  }

  /** The error putWorkload returns for a failed put; the panic's own message where Go panics. */
  function PutError(key: int, r: PutOutcome): string {
    match r
    case PutFailed(message) => "failed to sendPut for key %!s(int=" + Itoa(key) + "): " + message
    case _ => "No shard found for key: " + Itoa(key)
  }

  /** putWorkload: count random puts, stopping at the first that fails. */
  method PutWorkload(shards: seq<KvShard>, count: nat, draws: seq<nat>, values: seq<string>,
                     nows: seq<nat>, redisErrs: seq<Option<string>>)
    returns (err: Option<string>, attempts: nat)
    requires |draws| >= count && |values| >= count && |nows| >= count && |redisErrs| >= count
    modifies Primaries(shards)
    ensures err.None? <==> First(count, FailsAt(shards, draws, values, redisErrs)).None?
    ensures attempts == match First(count, FailsAt(shards, draws, values, redisErrs))
                        case Some(j) => j + 1
                        case None => count
    ensures Stores(shards) == StoresAfter(shards, draws, values, nows, redisErrs, old(Stores(shards)), attempts)
  {
    attempts := 0;
    ghost var start := Stores(shards);
    while attempts < count
      invariant attempts <= count
      invariant forall j :: 0 <= j < attempts ==> !NthPutFails(shards, draws, values, redisErrs, j)
      invariant Stores(shards) == StoresAfter(shards, draws, values, nows, redisErrs, start, attempts)
    {
      var key := draws[attempts] % KEY_SPACE;
      var r := PutStep(shards, draws, values, nows, redisErrs, attempts, start);
      if !r.PutOk? {
        FirstIs(count, FailsAt(shards, draws, values, redisErrs), attempts);
        return Some(PutError(key, r)), attempts + 1;
      }
      attempts := attempts + 1;
    }
    FirstNone(count, FailsAt(shards, draws, values, redisErrs));
    err := None;
  }
}
