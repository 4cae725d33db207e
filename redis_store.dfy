/**
 * The storage node's Redis client (redis_kv_store/redis/redis.go). The Redis
 * database is a map from key to what is stored there; the codec's round
 * trip is exact, so a value written by Set or SetVersioned reads back as the
 * same VersionedValue, and anything else under a key does not decode.
 * Redis transport errors and the clock are parameters.
 */
module RedisStore {
  import opened Wrappers
  import opened Consistency
  import opened KvUtil
  import opened Text

  /** A value with its version: milliseconds since the epoch at the write. */
  datatype VersionedValue = VersionedValue(value: Any, timestamp: int)

  /** What Redis holds under a key. */
  datatype Stored = Versioned(vv: VersionedValue) | Unreadable

  datatype Codec = Json | Gob

  datatype Options = Options(address: string, shardRangeStart: int, shardRangeEnd: int,
                             password: string, db: int, timeout: Option<int>, codec: Option<Codec>)

  const DEFAULT_ADDRESS: string := "localhost:6379"
  const DEFAULT_TIMEOUT: int := 2000 * MILLISECOND

  /** DefaultOptions: note the shard range [0, 0]. */
  const DEFAULT_OPTIONS: Options := Options(DEFAULT_ADDRESS, 0, 0, "", 0, Some(DEFAULT_TIMEOUT), Some(Json))

  const DECODE_ERROR: string := "stored data does not decode"

  /**
   * The defaulting step of NewClient. Substituting DefaultOptions' zero
   * range bounds for zero bounds leaves the range as given.
   */
  function WithDefaults(o: Options): (r: Options)
    ensures r.address == (if o.address == "" then DEFAULT_ADDRESS else o.address)
    ensures r.shardRangeStart == o.shardRangeStart && r.shardRangeEnd == o.shardRangeEnd
    ensures r.password == o.password && r.db == o.db
    ensures r.timeout == (if o.timeout.None? then Some(DEFAULT_TIMEOUT) else o.timeout)
    ensures r.codec == (if o.codec.None? then Some(Json) else o.codec)
  {
    var o1 := if o.address == "" then o.(address := DEFAULT_OPTIONS.address) else o;
    var o2 := if o1.shardRangeStart == 0 then o1.(shardRangeStart := DEFAULT_OPTIONS.shardRangeStart) else o1;
    var o3 := if o2.shardRangeEnd == 0 then o2.(shardRangeEnd := DEFAULT_OPTIONS.shardRangeEnd) else o2;
    var o4 := if o3.timeout.None? then o3.(timeout := DEFAULT_OPTIONS.timeout) else o3;
    if o4.codec.None? then o4.(codec := DEFAULT_OPTIONS.codec) else o4
  }

  /** The range check of Set: the key's numeric part lies in [start, end]. */
  predicate InShardRange(start: int, end: int, k: string) {
    KeyToInt(k).Ok? && start <= KeyToInt(k).value <= end
  }

  /** Why Set refuses a key and value, if it does (before Redis is contacted). */
  function SetRefusal(start: int, end: int, k: string, v: Any): (err: Option<string>)
    ensures err.None? <==> k != "" && v.Some? && InShardRange(start, end, k)
    ensures CheckKeyAndValue(k, v).Some? ==> err == CheckKeyAndValue(k, v)
  {
    var checked := CheckKeyAndValue(k, v);
    if checked.Some? then checked
    else match KeyToInt(k)
      case Err(msg) => Some("invalid key format: " + msg)
      case Ok(n) =>
        if n < start || n > end then Some("key '" + k + "' with numeric value " + Itoa(n) + " is out of shard range [" + Itoa(start) + ", " + Itoa(end) + "]")
        else None
  }

  /**
   * A record is reported by a scan when it decodes and is newer than `since`;
   * Get refuses the empty key, so an entry under "" never is.
   */
  predicate UpdatedSince(store: map<string, Stored>, since: int, k: string) {
    k != "" && k in store && store[k].Versioned? && store[k].vv.timestamp > since
  }

  /**
   * A record ScanUpdatedKeys may report: its key was updated after `since`,
   * its Get did not fail, and it carries the stored value and timestamp.
   */
  predicate Reported(store: map<string, Stored>, since: int, getErrs: map<string, string>, r: Record) {
    UpdatedSince(store, since, r.key) && r.key !in getErrs
    && r == Record(r.key, store[r.key].vv.value, store[r.key].vv.timestamp)
  }

  class Client {
    const address: string
    const timeout: int
    const codec: Codec
    const shardRangeStart: int
    const shardRangeEnd: int
    /** The Redis database behind the client. */
    var store: map<string, Stored>

    constructor (o: Options, db: map<string, Stored>)
      requires o.timeout.Some? && o.codec.Some?
      ensures address == o.address && timeout == o.timeout.value && codec == o.codec.value
      ensures shardRangeStart == o.shardRangeStart && shardRangeEnd == o.shardRangeEnd
      ensures store == db
    {
      address := o.address;
      timeout := o.timeout.value;
      codec := o.codec.value;
      shardRangeStart := o.shardRangeStart;
      shardRangeEnd := o.shardRangeEnd;
      store := db;
    }

    /**
     * Set: checks the key and value, then the key's range; a successful write
     * stores the value with the current time in milliseconds.
     */
    method Set(k: string, v: Any, nowNanos: nat, redisErr: Option<string>) returns (err: Option<string>)
      modifies this
      ensures err.None? <==> SetRefusal(shardRangeStart, shardRangeEnd, k, v).None? && redisErr.None?
      ensures SetRefusal(shardRangeStart, shardRangeEnd, k, v).Some? ==> err == SetRefusal(shardRangeStart, shardRangeEnd, k, v)
      ensures err.None? ==> store == old(store)[k := Versioned(VersionedValue(v, nowNanos / MILLISECOND))]
      ensures err.Some? ==> store == old(store)
    {
      err := SetRefusal(shardRangeStart, shardRangeEnd, k, v);
      if err.Some? {
        return;
      }
      var record := VersionedValue(v, nowNanos / MILLISECOND);
      if redisErr.Some? {
        return redisErr;
      }
      store := store[k := Versioned(record)];
    }

    /** SetVersioned: only the key is checked; the version is stored as given. */
    method SetVersioned(k: string, vv: VersionedValue, redisErr: Option<string>) returns (err: Option<string>)
      modifies this
      ensures err.None? <==> k != "" && redisErr.None?
      ensures k == "" ==> err == Some(EMPTY_KEY)
      ensures err.None? ==> store == old(store)[k := Versioned(vv)]
      ensures err.Some? ==> store == old(store)
    {
      err := CheckKey(k);
      if err.Some? {
        return;
      }
      if redisErr.Some? {
        return redisErr;
      }
      store := store[k := Versioned(vv)];
    }

    /**
     * Get into the destination `dest` (nil is refused): an absent key is
     * (false, no error); a present one is found, with a decode error when its
     * data is not a versioned value.
     */
    method Get(k: string, dest: Any, redisErr: Option<string>) returns (found: bool, value: Option<VersionedValue>, err: Option<string>)
      ensures CheckKeyAndValue(k, dest).Some? ==> !found && err == CheckKeyAndValue(k, dest)
      ensures CheckKeyAndValue(k, dest).None? && redisErr.Some? ==> !found && err == redisErr
      ensures CheckKeyAndValue(k, dest).None? && redisErr.None? ==>
        && (found <==> k in store)
        && (k !in store ==> err.None? && value.None?)
        && (k in store && store[k].Versioned? ==> err.None? && value == Some(store[k].vv))
        && (k in store && store[k].Unreadable? ==> err.Some?)
    {
      err := CheckKeyAndValue(k, dest);
      if err.Some? {
        return false, None, err;
      }
      if redisErr.Some? {
        return false, None, redisErr;
      }
      if k !in store {
        return false, None, None;
      }
      match store[k]
      case Versioned(vv) =>
        return true, Some(vv), None;
      case Unreadable =>
        return true, None, Some(DECODE_ERROR);
    }

    /** Delete: only an empty key or a Redis error fails; deleting an absent key is fine. */
    method Delete(k: string, redisErr: Option<string>) returns (err: Option<string>)
      modifies this
      ensures err.None? <==> k != "" && redisErr.None?
      ensures err.None? ==> store == old(store) - {k}
      ensures err.Some? ==> store == old(store)
    {
      err := CheckKey(k);
      if err.Some? {
        return;
      }
      if redisErr.Some? {
        return redisErr;
      }
      store := store - {k};
    }

    /**
     * ScanUpdatedKeys: one record per key whose value decodes and carries a
     * timestamp after `since` (milliseconds), in scan order. `getErrs` holds
     * the Redis error of each key whose Get fails; such a key is skipped.
     * When `iterErrAfter` is Some(n), the scan iterator fails after yielding
     * n keys, and the records gathered so far are returned.
     */
    method ScanUpdatedKeys(since: int, getErrs: map<string, string>, iterErrAfter: Option<nat>)
      returns (updates: seq<Record>)
      ensures forall i :: 0 <= i < |updates| ==> Reported(store, since, getErrs, updates[i])
      ensures iterErrAfter.None? || iterErrAfter.value >= |store| ==>
        forall k :: UpdatedSince(store, since, k) && k !in getErrs ==> exists i :: 0 <= i < |updates| && updates[i].key == k
      ensures iterErrAfter.Some? ==> |updates| <= iterErrAfter.value
      ensures forall i, j :: 0 <= i < j < |updates| ==> updates[i].key != updates[j].key
    {
      updates := [];
      var rest := store.Keys;
      var scanned := 0;
      assert |store.Keys| == |store|;
      while rest != {} && (iterErrAfter.None? || scanned < iterErrAfter.value)
        invariant rest <= store.Keys
        invariant scanned + |rest| == |store| && |updates| <= scanned
        invariant iterErrAfter.Some? ==> scanned <= iterErrAfter.value
        invariant forall i :: 0 <= i < |updates| ==> Reported(store, since, getErrs, updates[i]) && updates[i].key !in rest
        invariant forall k :: UpdatedSince(store, since, k) && k !in getErrs && k !in rest ==>
          exists i :: 0 <= i < |updates| && updates[i].key == k
        invariant forall i, j :: 0 <= i < j < |updates| ==> updates[i].key != updates[j].key
        decreases |rest|
      {
        var key :| key in rest;
        rest := rest - {key};
        scanned := scanned + 1;
        var redisErr := if key in getErrs then Some(getErrs[key]) else None;
        var found, vv, err := Get(key, Some(key), redisErr);
        if err.Some? || !found {
          continue;
        }
        if vv.value.timestamp > since {
          ghost var before := updates;
          updates := updates + [Record(key, vv.value.value, vv.value.timestamp)];
          assert forall i :: 0 <= i < |before| ==> updates[i] == before[i];
          assert updates[|updates| - 1].key == key;
        }
      }
      if iterErrAfter.None? || iterErrAfter.value >= |store| {
        assert |rest| == 0;
        assert rest == {};
      }
    }
  }

  /** NewClient: defaults applied; a failed ping is an error, otherwise a client over `db`. */
  method NewClient(options: Options, pingErr: Option<string>, db: map<string, Stored>) returns (r: Result<Client>)
    ensures r.Err? <==> pingErr.Some?
    ensures r.Ok? ==> fresh(r.value) && r.value.store == db
    ensures r.Ok? ==> var o := WithDefaults(options);
      && r.value.address == o.address && r.value.timeout == o.timeout.value && r.value.codec == o.codec.value
      && r.value.shardRangeStart == o.shardRangeStart && r.value.shardRangeEnd == o.shardRangeEnd
  {
    var o := WithDefaults(options);
    if pingErr.Some? {
      return Err(pingErr.value);
    }
    var c := new Client(o, db);
    return Ok(c);
  }
}
