/**
 * The YCSB-style workload generators (client/ycsb/workload_gen.go). Each
 * generator writes "READ kkkk" and "WRITE kkkk value" lines, where kkkk is a
 * key drawn from the key space and formatted with "%04d", and the value is a
 * fresh uuid.
 *
 * The seeded math/rand source is a finite sequence of draws, and r.Intn(n) is
 * the next draw modulo n. Running out of draws is an outcome of its own: the
 * Go source never runs out. uuid.New() is a numbered supply of uuid strings.
 * The output file is the sequence of lines written to it.
 */
module WorkloadGen {
  import opened Wrappers
  import opened Text
  import opened FirstMatch
  import opened Sorting
  import Replay

  /** One generated operation. */
  datatype Op = ReadOp(key: nat) | WriteOp(key: nat, value: string)

  /** The line an operation is written as: "READ %s" or "WRITE %s %s" with the "%04d" key. */
  function OpLine(op: Op): string {
    match op
    case ReadOp(k) => Unwords(["READ", Pad4(k)])
    case WriteOp(k, v) => Unwords(["WRITE", Pad4(k), v])
  }

  /** A uuid's text form: 36 characters of hex digits and dashes, so one word. */
  predicate UuidText(v: string) {
    v != [] && NoSpace(v)
  }

  lemma DigitsHaveNoSpace(s: string)
    requires AllDigits(s)
    ensures NoSpace(s)
  {
    forall i | 0 <= i < |s|
      ensures !GoSpace(s[i])
    {
      assert IsDigit(s[i]);
    }
  }

  /**
   * Every generated line is read back by the replay client as the operation
   * it was generated from, and the key field converts back to the key.
   */
  lemma OpLineParses(op: Op)
    requires op.WriteOp? ==> UuidText(op.value)
    requires op.key <= MAX_INT64
    ensures Replay.ParseOp(OpLine(op)) == match op
      case ReadOp(k) => Replay.Read(Pad4(k))
      case WriteOp(k, v) => Replay.Write(Pad4(k), v)
    ensures Atoi(Pad4(op.key)) == Some(op.key)
  {
    DigitsHaveNoSpace(Pad4(op.key));
    AtoiOfDecimal(op.key);
    match op
    case ReadOp(k) =>
      assert [Pad4(k)] + [] == [Pad4(k)];
      Replay.ParseReadLine(Pad4(k), []);
      assert ["READ", Pad4(k)] + [] == ["READ", Pad4(k)];
    case WriteOp(k, v) =>
      assert [Pad4(k), v] + [] == [Pad4(k), v];
      Replay.ParseWriteLine(Pad4(k), v, []);
      assert ["WRITE", Pad4(k), v] + [] == ["WRITE", Pad4(k), v];
  }

  // ---------------------------------------------------------------------------
  // YCSB_workload_gen

  /**
   * The i-th operation of YCSB_workload_gen: a READ when the float draw is below
   * the read proportion, otherwise a WRITE of the i-th uuid; the key is the key
   * draw modulo the key space.
   */
  function YcsbOp(keySpace: nat, readProportion: real, keyDraw: nat, floatDraw: real, uuid: string): (op: Op)
    requires keySpace > 0
    ensures op.key < keySpace
    ensures op.ReadOp? <==> floatDraw < readProportion
  {
    var key := keyDraw % keySpace;
    if floatDraw < readProportion then ReadOp(key) else WriteOp(key, uuid)
  }

  predicate WriteFails(writeErrs: seq<Option<string>>, i: nat) {
    i < |writeErrs| && writeErrs[i].Some?
  }

  function WriteFailsAt(writeErrs: seq<Option<string>>): nat -> bool {
    (i: nat) => WriteFails(writeErrs, i)
  }

  /** The lines YCSB_workload_gen writes when no write fails: one per operation. */
  function YcsbLines(size: nat, keySpace: nat, readProportion: real, keyDraws: seq<nat>, floatDraws: seq<real>,
                     uuids: seq<string>): (lines: seq<string>)
    requires size > 0 ==> keySpace > 0
    requires |keyDraws| >= size && |floatDraws| >= size && |uuids| >= size
    ensures |lines| == size
  {
    seq(size, i requires 0 <= i < size => OpLine(YcsbOp(keySpace, readProportion, keyDraws[i], floatDraws[i], uuids[i])))
  }

  /**
   * YCSB_workload_gen: size operations, stopping at the first failed write.
   * A negative size writes nothing; r.Intn panics for a key space that is not
   * positive, so one is needed as soon as an operation is generated.
   */
  method YcsbWorkloadGen(size: int, keySpace: nat, readProportion: real, keyDraws: seq<nat>, floatDraws: seq<real>,
                         uuids: seq<string>, createErr: Option<string>, writeErrs: seq<Option<string>>)
    returns (lines: seq<string>, err: Option<string>)
    requires size > 0 ==> keySpace > 0 && |keyDraws| >= size && |floatDraws| >= size && |uuids| >= size
    ensures createErr.Some? ==> lines == [] && err == Some("could not create workload log file: " + createErr.value)
    ensures createErr.None? ==>
      var n := if size < 0 then 0 else size;
      var all := YcsbLines(n, keySpace, readProportion, keyDraws, floatDraws, uuids);
      match First(n, WriteFailsAt(writeErrs))
      case None => err.None? && lines == all
      case Some(i) =>
        lines == all[..i] &&
        err == Some((if floatDraws[i] < readProportion then "failed to write read op: " else "failed to write write op: ")
                    + writeErrs[i].value)
  {
    if createErr.Some? {
      return [], Some("could not create workload log file: " + createErr.value);
    }
    var n: nat := if size < 0 then 0 else size;
    ghost var all := YcsbLines(n, keySpace, readProportion, keyDraws, floatDraws, uuids);
    lines := [];
    var i := 0;
    while i < n
      invariant i <= n
      invariant lines == all[..i]
      invariant forall j :: 0 <= j < i ==> !WriteFails(writeErrs, j)
    {
      var key := Pad4(keyDraws[i] % keySpace);
      var failed := i < |writeErrs| && writeErrs[i].Some?;
      if floatDraws[i] < readProportion {
        if failed {
          FirstIs(n, WriteFailsAt(writeErrs), i);
          return lines, Some("failed to write read op: " + writeErrs[i].value);
        }
        lines := lines + [Unwords(["READ", key])];
      } else {
        if failed {
          FirstIs(n, WriteFailsAt(writeErrs), i);
          return lines, Some("failed to write write op: " + writeErrs[i].value);
        }
        lines := lines + [Unwords(["WRITE", key, uuids[i]])];
      }
      assert all[..i + 1] == all[..i] + [all[i]];
      i := i + 1;
    }
    FirstNone(n, WriteFailsAt(writeErrs));
    assert all[..n] == all;
    err := None;
  }

  /**
   * Every YCSB line is a READ or WRITE of a "%04d" key below the key space,
   * a READ exactly when its float draw is below the read proportion.
   */
  lemma YcsbLineShape(size: nat, keySpace: nat, readProportion: real, keyDraws: seq<nat>, floatDraws: seq<real>,
                      uuids: seq<string>, i: nat)
    requires size > 0 ==> keySpace > 0
    requires |keyDraws| >= size && |floatDraws| >= size && |uuids| >= size
    requires i < size && UuidText(uuids[i]) && keySpace <= MAX_INT64
    ensures var a := Replay.ParseOp(YcsbLines(size, keySpace, readProportion, keyDraws, floatDraws, uuids)[i]);
      && (a.Read? <==> floatDraws[i] < readProportion)
      && (a.Write? <==> !(floatDraws[i] < readProportion))
      && (a.Read? || a.Write?)
      && Atoi(a.key) == Some(keyDraws[i] % keySpace) && keyDraws[i] % keySpace < keySpace
      && (a.Write? ==> a.value == uuids[i])
  {
    OpLineParses(YcsbOp(keySpace, readProportion, keyDraws[i], floatDraws[i], uuids[i]));
  }

  // ---------------------------------------------------------------------------
  // The random source and the session helpers

  const NUM_OPERATIONS: nat := 2000
  const SESSION_SIZE: nat := 400
  const SESSION_COUNT: nat := NUM_OPERATIONS / SESSION_SIZE
  /** numWrites = sessionSize - sessionSize/2. */
  const NUM_WRITES: nat := SESSION_SIZE - SESSION_SIZE / 2
  /** int(float64(200) * 0.6): the product rounds to exactly 120.0 in float64. */
  const RMW_COUNT: nat := 120
  /** An RMW read goes 1 to 6 slots after its write, with up to 10 tries. */
  const MAX_OFFSET: nat := 6
  const OFFSET_TRIES: nat := 10

  /** The seeded math/rand source (a finite sequence of draws) and the uuid supply. */
  class Randomness {
    const draws: seq<nat>
    const uuids: nat -> string
    /** Draws consumed so far. */
    var used: nat
    /** Uuids handed out so far. */
    var issued: nat

    constructor (draws: seq<nat>, uuids: nat -> string)
      ensures this.draws == draws && this.uuids == uuids && used == 0 && issued == 0
    {
      this.draws := draws;
      this.uuids := uuids;
      used := 0;
      issued := 0;
    }

    /** r.Intn(n): the next draw modulo n; None once the draws are exhausted. */
    method Intn(n: nat) returns (d: Option<nat>)
      requires n > 0
      modifies this
      ensures old(used) < |draws| ==> d == Some(draws[old(used)] % n) && used == old(used) + 1
      ensures old(used) >= |draws| ==> d.None? && used == old(used)
      ensures issued == old(issued)
    {
      if used >= |draws| {
        return None;
      }
      d := Some(draws[used] % n);
      used := used + 1;
    }

    /** uuid.New().String(). */
    method NewUuid() returns (u: string)
      modifies this
      ensures u == uuids(old(issued)) && issued == old(issued) + 1 && used == old(used)
    {
      u := uuids(issued);
      issued := issued + 1;
    }
  }

  predicate Distinct(xs: seq<nat>) {
    forall i, j :: 0 <= i < j < |xs| ==> xs[i] != xs[j]
  }

  /** The retry loop that draws slots until it finds one not yet occupied. */
  method FreeSlot(rnd: Randomness, occupied: array<bool>) returns (index: Option<nat>)
    requires occupied.Length > 0
    modifies rnd
    ensures index.Some? ==> index.value < occupied.Length && !occupied[index.value]
    ensures index.None? ==> rnd.used >= |rnd.draws|
    ensures index.Some? ==> old(rnd.used) < |rnd.draws|
    ensures rnd.issued == old(rnd.issued)
    ensures old(rnd.used) < |rnd.draws| && !occupied[rnd.draws[old(rnd.used)] % occupied.Length] ==>
      index == Some(rnd.draws[old(rnd.used)] % occupied.Length) && rnd.used == old(rnd.used) + 1
  {
    while true
      invariant rnd.issued == old(rnd.issued) && rnd.used >= old(rnd.used)
      invariant rnd.used > old(rnd.used) ==>
        old(rnd.used) < |rnd.draws| && occupied[rnd.draws[old(rnd.used)] % occupied.Length]
      decreases |rnd.draws| - rnd.used
    {
      var d := rnd.Intn(occupied.Length);
      if d.None? {
        return None;
      }
      if !occupied[d.value] {
        return d;
      }
    }
  }

  /** Slots and the occupied flags move together. */
  predicate InStep(ops: array<Option<Op>>, occupied: array<bool>)
    reads ops, occupied
  {
    ops.Length == occupied.Length && forall s :: 0 <= s < ops.Length ==> (occupied[s] <==> ops[s].Some?)
  }

  /** The last step of a session: every free slot gets a READ of a random key. */
  method FillReads(rnd: Randomness, ops: array<Option<Op>>, occupied: array<bool>, keySpace: nat) returns (ok: bool)
    requires InStep(ops, occupied) && keySpace > 0
    modifies rnd, ops, occupied
    ensures InStep(ops, occupied)
    ensures forall s :: 0 <= s < ops.Length && old(ops[s]).Some? ==> ops[s] == old(ops[s])
    ensures forall s :: 0 <= s < ops.Length && old(ops[s]).None? && ops[s].Some? ==>
      ops[s].value.ReadOp? && ops[s].value.key < keySpace
    ensures ok <==> forall s :: 0 <= s < ops.Length ==> ops[s].Some?
    ensures !ok ==> rnd.used >= |rnd.draws|
    ensures rnd.issued == old(rnd.issued)
  {
    for i := 0 to ops.Length
      invariant InStep(ops, occupied)
      invariant forall s :: 0 <= s < ops.Length && old(ops[s]).Some? ==> ops[s] == old(ops[s])
      invariant forall s :: 0 <= s < ops.Length && old(ops[s]).None? && ops[s].Some? ==>
        ops[s].value.ReadOp? && ops[s].value.key < keySpace
      invariant forall s :: 0 <= s < i ==> ops[s].Some?
      invariant forall s :: i <= s < ops.Length ==> ops[s] == old(ops[s])
      invariant rnd.issued == old(rnd.issued)
    {
      if !occupied[i] {
        var key := rnd.Intn(keySpace);
        if key.None? {
          return false;
        }
        ops[i] := Some(ReadOp(key.value));
        occupied[i] := true;
      }
    }
    return true;
  }

  /** The operations of a session once every slot is filled. */
  function Filled(slots: seq<Option<Op>>): (ops: seq<Op>)
    requires forall s :: 0 <= s < |slots| ==> slots[s].Some?
    ensures |ops| == |slots| && forall s :: 0 <= s < |slots| ==> slots[s] == Some(ops[s])
  {
    seq(|slots|, s requires 0 <= s < |slots| && slots[s].Some? => slots[s].value)
  }

  /** The positions of the WRITEs of a session. */
  function WriteSlots(ops: seq<Op>): set<nat> {
    set s: nat | s < |ops| && ops[s].WriteOp?
  }

  /** The elements of a sequence, as a set. */
  function Members(xs: seq<nat>): (m: set<nat>)
    ensures forall x :: x in m <==> x in xs
  {
    if xs == [] then {} else Members(xs[..|xs| - 1]) + {xs[|xs| - 1]}
  }

  /** A sequence without repetitions has as many distinct elements as positions. */
  lemma {:induction false} DistinctCard(xs: seq<nat>)
    requires Distinct(xs)
    ensures |Members(xs)| == |xs|
  {
    if xs != [] {
      var init, last := xs[..|xs| - 1], xs[|xs| - 1];
      assert Distinct(init) by {
        forall i, j | 0 <= i < j < |init|
          ensures init[i] != init[j]
        {
          assert init[i] == xs[i] && init[j] == xs[j];
        }
      }
      DistinctCard(init);
      assert last !in init by {
        forall i | 0 <= i < |init|
          ensures init[i] != last
        {
          assert init[i] == xs[i];
        }
      }
    }
  }

  // ---------------------------------------------------------------------------
  // generateRMWWorkload

  /**
   * count writes at distinct random free slots, with random keys and fresh
   * uuids; the slots already taken keep their operations.
   */
  method PlaceWrites(rnd: Randomness, ops: array<Option<Op>>, occupied: array<bool>, keySpace: nat, count: nat)
    returns (ok: bool, writeIndices: seq<nat>, writeKeys: seq<nat>, writeValues: seq<string>)
    requires ops.Length == SESSION_SIZE && InStep(ops, occupied) && keySpace > 0
    modifies rnd, ops, occupied
    ensures InStep(ops, occupied)
    ensures |writeIndices| == |writeKeys| == |writeValues| <= count
    ensures ok <==> |writeIndices| == count
    ensures !ok ==> rnd.used >= |rnd.draws|
    ensures Distinct(writeIndices)
    ensures forall i :: 0 <= i < |writeIndices| ==>
      writeIndices[i] < SESSION_SIZE && writeKeys[i] < keySpace && old(ops[writeIndices[i]]).None?
      && ops[writeIndices[i]] == Some(WriteOp(writeKeys[i], writeValues[i]))
    ensures forall s :: 0 <= s < SESSION_SIZE && s !in writeIndices ==> ops[s] == old(ops[s])
  {
    writeIndices, writeKeys, writeValues := [], [], [];
    while |writeIndices| < count
      invariant InStep(ops, occupied)
      invariant |writeIndices| == |writeKeys| == |writeValues| <= count
      invariant Distinct(writeIndices)
      invariant forall i :: 0 <= i < |writeIndices| ==>
        writeIndices[i] < SESSION_SIZE && writeKeys[i] < keySpace && old(ops[writeIndices[i]]).None?
        && ops[writeIndices[i]] == Some(WriteOp(writeKeys[i], writeValues[i]))
      invariant forall s :: 0 <= s < SESSION_SIZE && s !in writeIndices ==> ops[s] == old(ops[s])
      decreases count - |writeIndices|
    {
      var index := FreeSlot(rnd, occupied);
      if index.None? {
        return false, writeIndices, writeKeys, writeValues;
      }
      var key := rnd.Intn(keySpace);
      if key.None? {
        return false, writeIndices, writeKeys, writeValues;
      }
      var val := rnd.NewUuid();
      ops[index.value] := Some(WriteOp(key.value, val));
      occupied[index.value] := true;
      writeIndices, writeKeys, writeValues := writeIndices + [index.value], writeKeys + [key.value], writeValues + [val];
    }
    ok := true;
  }

  /**
   * A read placed for a write at slot w: 1 to 6 slots after it, inside the
   * session, on a slot that was free before step 2, reading the write's key.
   */
  predicate RmwRead(before: seq<Option<Op>>, after: seq<Option<Op>>, w: nat, key: nat, s: nat) {
    w < s <= w + MAX_OFFSET && s < |before| == |after| && before[s].None? && after[s] == Some(ReadOp(key))
  }

  /**
   * Step 2: for each of the first RMW_COUNT writes, up to 10 tries at a slot 1
   * to 6 after it; a READ of the same key lands there only if the slot is
   * inside the session and free. readFor records where each one landed.
   */
  method PlaceRmwReads(rnd: Randomness, ops: array<Option<Op>>, occupied: array<bool>,
                       writeIndices: seq<nat>, writeKeys: seq<nat>)
    returns (ok: bool, ghost readFor: seq<Option<nat>>)
    requires ops.Length == SESSION_SIZE && InStep(ops, occupied)
    requires |writeIndices| == |writeKeys| == NUM_WRITES
    modifies rnd, ops, occupied
    ensures InStep(ops, occupied)
    ensures forall s :: 0 <= s < SESSION_SIZE && old(ops[s]).Some? ==> ops[s] == old(ops[s])
    ensures |readFor| <= RMW_COUNT && (ok <==> |readFor| == RMW_COUNT)
    ensures !ok ==> rnd.used >= |rnd.draws|
    ensures forall i :: 0 <= i < |readFor| && readFor[i].Some? ==>
      RmwRead(old(ops[..]), ops[..], writeIndices[i], writeKeys[i], readFor[i].value)
    ensures forall i, j :: 0 <= i < j < |readFor| && readFor[i].Some? && readFor[j].Some? ==>
      readFor[i].value != readFor[j].value
    ensures forall s :: 0 <= s < SESSION_SIZE && old(ops[s]).None? && ops[s].Some? ==>
      exists i :: 0 <= i < |readFor| && readFor[i] == Some(s)
    ensures rnd.issued == old(rnd.issued)
  {
    ghost var before := ops[..];
    readFor := [];
    var usedReadSlots: set<nat> := {};
    for i := 0 to RMW_COUNT
      invariant InStep(ops, occupied)
      invariant forall s :: 0 <= s < SESSION_SIZE && before[s].Some? ==> ops[s] == before[s]
      invariant |readFor| == i
      invariant forall k :: 0 <= k < i && readFor[k].Some? ==>
        RmwRead(before, ops[..], writeIndices[k], writeKeys[k], readFor[k].value)
      invariant forall k, j :: 0 <= k < j < i && readFor[k].Some? && readFor[j].Some? ==>
        readFor[k].value != readFor[j].value
      invariant forall s :: 0 <= s < SESSION_SIZE && before[s].None? && ops[s].Some? ==>
        exists k :: 0 <= k < i && readFor[k] == Some(s)
      invariant rnd.issued == old(rnd.issued)
    {
      var writeIdx := writeIndices[i];
      var key := writeKeys[i];
      var readIdx := 0;
      var attempts := 0;
      while attempts < OFFSET_TRIES
        modifies rnd
        invariant attempts <= OFFSET_TRIES
        invariant attempts > 0 ==> writeIdx < readIdx <= writeIdx + MAX_OFFSET
        invariant rnd.issued == old(rnd.issued)
      {
        var offset := rnd.Intn(MAX_OFFSET);
        if offset.None? {
          return false, readFor;
        }
        readIdx := writeIdx + offset.value + 1;
        if readIdx < SESSION_SIZE && !occupied[readIdx] && readIdx !in usedReadSlots {
          break;
        }
        attempts := attempts + 1;
      }
      if readIdx < SESSION_SIZE && !occupied[readIdx] {
        ops[readIdx] := Some(ReadOp(key));
        occupied[readIdx] := true;
        usedReadSlots := usedReadSlots + {readIdx};
        ghost var prev := readFor;
        readFor := readFor + [Some(readIdx)];
        assert forall k :: 0 <= k < i ==> readFor[k] == prev[k];
        assert readFor[i] == Some(readIdx);
      } else {
        readFor := readFor + [None];
      }
    }
    ok := true;
  }

  /**
   * One session of generateRMWWorkload: SESSION_SIZE operations, exactly
   * NUM_WRITES of them WRITEs at the distinct slots writeIndices, RMW reads of
   * the first RMW_COUNT writes' keys shortly after them, and READs elsewhere.
   */
  method RmwSession(rnd: Randomness, keySpace: nat)
    returns (ok: bool, ops: seq<Op>, writeIndices: seq<nat>, writeKeys: seq<nat>, ghost readFor: seq<Option<nat>>)
    requires keySpace > 0
    modifies rnd
    ensures !ok ==> rnd.used >= |rnd.draws|
    ensures ok ==>
      && |ops| == SESSION_SIZE && |writeIndices| == |writeKeys| == NUM_WRITES && Distinct(writeIndices)
      && |readFor| == RMW_COUNT
      && (forall s :: 0 <= s < SESSION_SIZE ==> (ops[s].WriteOp? <==> s in writeIndices) && ops[s].key < keySpace)
      && (forall i :: 0 <= i < NUM_WRITES ==> writeIndices[i] < SESSION_SIZE && ops[writeIndices[i]].key == writeKeys[i])
      && (forall i :: 0 <= i < RMW_COUNT && readFor[i].Some? ==>
            writeIndices[i] < readFor[i].value <= writeIndices[i] + MAX_OFFSET && readFor[i].value < SESSION_SIZE
            && ops[readFor[i].value] == ReadOp(writeKeys[i]))
      && (forall i, j :: 0 <= i < j < RMW_COUNT && readFor[i].Some? && readFor[j].Some? ==>
            readFor[i].value != readFor[j].value)
  {
    var slots := new Option<Op>[SESSION_SIZE](_ => None);
    var occupied := new bool[SESSION_SIZE](_ => false);
    var writeValues;
    ops, readFor := [], [];
    ok, writeIndices, writeKeys, writeValues := PlaceWrites(rnd, slots, occupied, keySpace, NUM_WRITES);
    if !ok {
      return;
    }
    ghost var afterWrites := slots[..];
    ok, readFor := PlaceRmwReads(rnd, slots, occupied, writeIndices, writeKeys);
    if !ok {
      return;
    }
    ghost var afterReads := slots[..];
    ok := FillReads(rnd, slots, occupied, keySpace);
    if !ok {
      return;
    }
    ops := Filled(slots[..]);
    forall s | 0 <= s < SESSION_SIZE
      ensures (ops[s].WriteOp? <==> s in writeIndices) && ops[s].key < keySpace
    {
      if afterReads[s].None? {
      } else if afterWrites[s].None? {
        var i :| 0 <= i < |readFor| && readFor[i] == Some(s);
        assert RmwRead(afterWrites, afterReads, writeIndices[i], writeKeys[i], s);
      }
    }
  }

  /** The lines of a sequence of sessions, session after session. */
  function SessionLines(sessions: seq<seq<Op>>): (lines: seq<string>) {
    if sessions == [] then []
    else
      var last := sessions[|sessions| - 1];
      SessionLines(sessions[..|sessions| - 1]) + seq(|last|, s requires 0 <= s < |last| => OpLine(last[s]))
  }

  /** A finished RMW session: SESSION_SIZE operations with exactly NUM_WRITES WRITEs, all keys in the key space. */
  ghost predicate RmwShaped(ops: seq<Op>, keySpace: nat) {
    |ops| == SESSION_SIZE && |WriteSlots(ops)| == NUM_WRITES
    && forall s :: 0 <= s < |ops| ==> ops[s].key < keySpace
  }

  lemma RmwSessionShaped(ops: seq<Op>, writeIndices: seq<nat>, keySpace: nat)
    requires |ops| == SESSION_SIZE && |writeIndices| == NUM_WRITES && Distinct(writeIndices)
    requires forall s :: 0 <= s < SESSION_SIZE ==> (ops[s].WriteOp? <==> s in writeIndices) && ops[s].key < keySpace
    requires forall i :: 0 <= i < NUM_WRITES ==> writeIndices[i] < SESSION_SIZE
    ensures RmwShaped(ops, keySpace)
  {
    assert WriteSlots(ops) == Members(writeIndices);
    DistinctCard(writeIndices);
  }

  /**
   * generateRMWWorkload: SESSION_COUNT sessions of SESSION_SIZE lines each;
   * the file is not created when creating it fails. Fewer sessions come out
   * only once the random draws are exhausted.
   */
  method GenerateRmwWorkload(keySpace: nat, rnd: Randomness, createErr: Option<string>)
    returns (lines: seq<string>, sessions: seq<seq<Op>>)
    requires keySpace > 0
    modifies rnd
    ensures createErr.Some? ==> sessions == []
    ensures lines == SessionLines(sessions) && |lines| == SESSION_SIZE * |sessions|
    ensures |sessions| <= SESSION_COUNT
    ensures createErr.None? && |sessions| < SESSION_COUNT ==> rnd.used >= |rnd.draws|
    ensures forall k :: 0 <= k < |sessions| ==> RmwShaped(sessions[k], keySpace)
  {
    lines, sessions := [], [];
    if createErr.Some? {
      return;
    }
    while |sessions| < SESSION_COUNT
      invariant |sessions| <= SESSION_COUNT
      invariant lines == SessionLines(sessions) && |lines| == SESSION_SIZE * |sessions|
      invariant forall k :: 0 <= k < |sessions| ==> RmwShaped(sessions[k], keySpace)
      decreases SESSION_COUNT - |sessions|
    {
      var ok, ops, writeIndices, writeKeys, readFor := RmwSession(rnd, keySpace);
      if !ok {
        return;
      }
      RmwSessionShaped(ops, writeIndices, keySpace);
      ghost var prev := sessions;
      sessions := sessions + [ops];
      assert sessions[..|sessions| - 1] == prev;
      lines := lines + seq(|ops|, s requires 0 <= s < |ops| => OpLine(ops[s]));
    }
  }

  // ---------------------------------------------------------------------------
  // generateMonotonicReadWorkload

  const MONOTONIC_KEY_SPACE: nat := 1000
  /** int(float64(200) * 0.6): the number of slots given to the stressed key. */
  const REPEATED_READ_COUNT: nat := 120

  /**
   * Step 1's choice of slots as written: the retry loop tests occupied, but
   * nothing marks a chosen slot, so every draw is taken as it comes and the
   * same slot can be chosen twice.
   */
  method ChooseIndicesAsWritten(rnd: Randomness, occupied: array<bool>) returns (ok: bool, indices: seq<nat>)
    requires occupied.Length == SESSION_SIZE && forall s :: 0 <= s < SESSION_SIZE ==> !occupied[s]
    modifies rnd
    ensures |indices| <= REPEATED_READ_COUNT && (ok <==> |indices| == REPEATED_READ_COUNT)
    ensures indices != [] ==> old(rnd.used) + |indices| <= |rnd.draws|
    ensures forall i :: 0 <= i < |indices| ==> indices[i] == rnd.draws[old(rnd.used) + i] % SESSION_SIZE
  {
    indices := [];
    while |indices| < REPEATED_READ_COUNT
      invariant |indices| <= REPEATED_READ_COUNT && rnd.used == old(rnd.used) + |indices|
      invariant indices != [] ==> old(rnd.used) + |indices| <= |rnd.draws|
      invariant forall i :: 0 <= i < |indices| ==> indices[i] == rnd.draws[old(rnd.used) + i] % SESSION_SIZE
      decreases REPEATED_READ_COUNT - |indices|
    {
      var idx := FreeSlot(rnd, occupied);
      if idx.None? {
        return false, indices;
      }
      indices := indices + [idx.value];
    }
    ok := true;
  }

  /** Step 1's choice of slots, marking each chosen slot occupied. */
  method ChooseIndices(rnd: Randomness, occupied: array<bool>) returns (ok: bool, indices: seq<nat>)
    requires occupied.Length == SESSION_SIZE && forall s :: 0 <= s < SESSION_SIZE ==> !occupied[s]
    modifies rnd, occupied
    ensures |indices| <= REPEATED_READ_COUNT && (ok <==> |indices| == REPEATED_READ_COUNT)
    ensures !ok ==> rnd.used >= |rnd.draws|
    ensures Distinct(indices) && forall i :: 0 <= i < |indices| ==> indices[i] < SESSION_SIZE
    ensures forall s :: 0 <= s < SESSION_SIZE ==> (occupied[s] <==> s in indices)
    ensures rnd.issued == old(rnd.issued)
  {
    indices := [];
    while |indices| < REPEATED_READ_COUNT
      invariant |indices| <= REPEATED_READ_COUNT
      invariant Distinct(indices) && forall i :: 0 <= i < |indices| ==> indices[i] < SESSION_SIZE
      invariant forall s :: 0 <= s < SESSION_SIZE ==> (occupied[s] <==> s in indices)
      invariant rnd.issued == old(rnd.issued)
      decreases REPEATED_READ_COUNT - |indices|
    {
      var idx := FreeSlot(rnd, occupied);
      if idx.None? {
        return false, indices;
      }
      occupied[idx.value] := true;
      indices := indices + [idx.value];
    }
    ok := true;
  }

  /** The operation for the j-th sorted slot: READs and WRITEs of the key alternate, starting with a READ. */
  function MonotonicOp(j: nat, key: nat, uuids: nat -> string, base: nat): Op {
    if j % 2 == 0 then ReadOp(key) else WriteOp(key, uuids(base + j / 2))
  }

  /** The slots after step 1's assignment loop, one slot after the other. */
  function Alternated(slots: seq<Option<Op>>, indices: seq<nat>, key: nat, uuids: nat -> string, base: nat)
    : (r: seq<Option<Op>>)
    requires forall i :: 0 <= i < |indices| ==> indices[i] < |slots|
    ensures |r| == |slots|
  {
    if indices == [] then slots
    else
      var n := |indices| - 1;
      Alternated(slots, indices[..n], key, uuids, base)[indices[n] := Some(MonotonicOp(n, key, uuids, base))]
  }

  /** With distinct slots, the j-th slot holds the j-th alternating operation and no other slot changes. */
  lemma {:induction false} AlternatedAt(slots: seq<Option<Op>>, indices: seq<nat>, key: nat, uuids: nat -> string, base: nat)
    requires forall i :: 0 <= i < |indices| ==> indices[i] < |slots|
    requires Distinct(indices)
    ensures forall j :: 0 <= j < |indices| ==>
      Alternated(slots, indices, key, uuids, base)[indices[j]] == Some(MonotonicOp(j, key, uuids, base))
    ensures forall s :: 0 <= s < |slots| && s !in indices ==> Alternated(slots, indices, key, uuids, base)[s] == slots[s]
  {
    if indices != [] {
      var n := |indices| - 1;
      var init := indices[..n];
      assert Distinct(init) by {
        forall i, j | 0 <= i < j < |init|
          ensures init[i] != init[j]
        {
          assert init[i] == indices[i] && init[j] == indices[j];
        }
      }
      AlternatedAt(slots, init, key, uuids, base);
      forall j | 0 <= j < n
        ensures indices[j] == init[j] && indices[j] != indices[n]
      {
      }
    }
  }

  /** The assignment loop of step 1 over the sorted slots, marking each of them occupied. */
  method AssignAlternating(rnd: Randomness, ops: array<Option<Op>>, occupied: array<bool>, sorted: seq<nat>, key: nat)
    requires ops.Length == occupied.Length
    requires forall i :: 0 <= i < |sorted| ==> sorted[i] < ops.Length
    modifies rnd, ops, occupied
    ensures ops[..] == Alternated(old(ops[..]), sorted, key, rnd.uuids, old(rnd.issued))
    ensures forall s :: 0 <= s < occupied.Length ==> occupied[s] == (old(occupied[s]) || s in sorted)
    ensures rnd.used == old(rnd.used)
  {
    ghost var before := ops[..];
    ghost var base := rnd.issued;
    var readIsNext := true;
    for j := 0 to |sorted|
      invariant ops[..] == Alternated(before, sorted[..j], key, rnd.uuids, base)
      invariant forall s :: 0 <= s < occupied.Length ==> occupied[s] == (old(occupied[s]) || s in sorted[..j])
      invariant (readIsNext <==> j % 2 == 0) && rnd.issued == base + j / 2 && rnd.used == old(rnd.used)
    {
      var idx := sorted[j];
      if readIsNext {
        ops[idx] := Some(ReadOp(key));
      } else {
        var val := rnd.NewUuid();
        ops[idx] := Some(WriteOp(key, val));
      }
      occupied[idx] := true;
      readIsNext := !readIsNext;
      assert sorted[..j + 1][..j] == sorted[..j];
    }
    assert sorted[..|sorted|] == sorted;
  }

  lemma {:induction false} DistinctOnce(t: seq<nat>)
    requires Distinct(t)
    ensures forall x :: multiset(t)[x] <= 1
  {
    if t != [] {
      var init, last := t[..|t| - 1], t[|t| - 1];
      assert t == init + [last];
      assert Distinct(init) by {
        forall i, j | 0 <= i < j < |init|
          ensures init[i] != init[j]
        {
          assert init[i] == t[i] && init[j] == t[j];
        }
      }
      DistinctOnce(init);
      assert last !in init by {
        forall i | 0 <= i < |init|
          ensures init[i] != last
        {
          assert init[i] == t[i];
        }
      }
    }
  }

  /** A permutation of a sequence without repetitions has none either. */
  lemma DistinctPermutation(s: seq<nat>, t: seq<nat>)
    requires multiset(s) == multiset(t) && Distinct(t)
    ensures Distinct(s)
  {
    DistinctOnce(t);
    forall i, j | 0 <= i < j < |s|
      ensures s[i] != s[j]
    {
      var a, b := s[..j], s[j..];
      assert s == a + b && s[i] == a[i] && b[0] == s[j];
      assert multiset(s)[s[j]] == multiset(a)[s[j]] + multiset(b)[s[j]];
    }
  }

  function SlotNumber(x: nat): int {
    x
  }

  /** sort.Ints on slot numbers. */
  function SortSlots(indices: seq<nat>): (r: seq<nat>)
    ensures |r| == |indices| && multiset(r) == multiset(indices)
    ensures forall x :: x in r <==> x in indices
    ensures forall i, j :: 0 <= i < j < |r| ==> r[i] <= r[j]
  {
    SortBySortedPermutation(indices, SlotNumber);
    var r := SortBy(indices, SlotNumber);
    assert forall x :: x in r <==> x in multiset(r);
    r
  }

  /**
   * A monotonic session: SESSION_SIZE operations, keys in the key space, and
   * at the increasing slots positions, READs and WRITEs of one key that
   * alternate starting with a READ.
   */
  ghost predicate MonotonicShaped(ops: seq<Op>, key: nat, positions: seq<nat>) {
    && |ops| == SESSION_SIZE && key < MONOTONIC_KEY_SPACE && |positions| == REPEATED_READ_COUNT
    && (forall s :: 0 <= s < |ops| ==> ops[s].key < MONOTONIC_KEY_SPACE)
    && (forall i, j :: 0 <= i < j < |positions| ==> positions[i] < positions[j])
    && (forall j :: 0 <= j < |positions| ==>
          positions[j] < SESSION_SIZE && ops[positions[j]].key == key && (ops[positions[j]].ReadOp? <==> j % 2 == 0))
  }

  /** The sorted choice holds the same slots, in strictly increasing order. */
  lemma SortedChoice(chosen: seq<nat>, positions: seq<nat>)
    requires positions == SortSlots(chosen) && Distinct(chosen)
    ensures |positions| == |chosen| && Distinct(positions)
    ensures forall x :: x in positions <==> x in chosen
    ensures forall i, j :: 0 <= i < j < |positions| ==> positions[i] < positions[j]
  {
    DistinctPermutation(positions, chosen);
  }

  /** After the assignment on empty slots, exactly the chosen slots are taken, each by its alternating operation. */
  lemma StressedSlots(before: seq<Option<Op>>, positions: seq<nat>, key: nat, uuids: nat -> string, base: nat)
    requires |before| == SESSION_SIZE && forall s :: 0 <= s < SESSION_SIZE ==> before[s].None?
    requires Distinct(positions) && forall j :: 0 <= j < |positions| ==> positions[j] < SESSION_SIZE
    ensures var after := Alternated(before, positions, key, uuids, base);
      && (forall j :: 0 <= j < |positions| ==> after[positions[j]] == Some(MonotonicOp(j, key, uuids, base)))
      && (forall s :: 0 <= s < SESSION_SIZE ==> (after[s].Some? <==> s in positions))
      && (forall s :: 0 <= s < SESSION_SIZE && after[s].Some? ==> after[s].value.key == key)
  {
    AlternatedAt(before, positions, key, uuids, base);
    var after := Alternated(before, positions, key, uuids, base);
    forall s | 0 <= s < SESSION_SIZE && s in positions
      ensures after[s].Some? && after[s].value.key == key
    {
      var j :| 0 <= j < |positions| && positions[j] == s;
    }
  }

  /**
   * Step 1 of a monotonic session: the stressed key, its slots chosen and
   * marked, sorted, and filled with alternating READs and WRITEs of the key.
   */
  method StressKey(rnd: Randomness, ops: array<Option<Op>>, occupied: array<bool>)
    returns (ok: bool, key: nat, positions: seq<nat>, ghost base: nat)
    requires ops.Length == occupied.Length == SESSION_SIZE
    requires forall s :: 0 <= s < SESSION_SIZE ==> ops[s].None? && !occupied[s]
    modifies rnd, ops, occupied
    ensures !ok ==> rnd.used >= |rnd.draws|
    ensures ok ==> InStep(ops, occupied) && key < MONOTONIC_KEY_SPACE && |positions| == REPEATED_READ_COUNT
    ensures ok ==> forall i, j :: 0 <= i < j < |positions| ==> positions[i] < positions[j]
    ensures ok ==> forall j :: 0 <= j < |positions| ==>
      positions[j] < SESSION_SIZE && ops[positions[j]] == Some(MonotonicOp(j, key, rnd.uuids, base))
    ensures ok ==> forall s :: 0 <= s < SESSION_SIZE && ops[s].Some? ==> ops[s].value.key < MONOTONIC_KEY_SPACE
  {
    key, positions, base := 0, [], 0;
    var k := rnd.Intn(MONOTONIC_KEY_SPACE);
    if k.None? {
      return false, key, positions, base;
    }
    key := k.value;
    var chosen;
    ok, chosen := ChooseIndices(rnd, occupied);
    if !ok {
      return;
    }
    positions := SortSlots(chosen);
    SortedChoice(chosen, positions);
    forall i | 0 <= i < |positions|
      ensures positions[i] < SESSION_SIZE && occupied[positions[i]]
    {
      assert positions[i] in chosen;
    }
    base := rnd.issued;
    ghost var before := ops[..];
    AssignAlternating(rnd, ops, occupied, positions, key);
    StressedSlots(before, positions, key, rnd.uuids, base);
  }

  /**
   * One session of generateMonotonicReadWorkload with the chosen slots marked
   * occupied: the stressed key's alternating operations, then
   * NUM_WRITES - REPEATED_READ_COUNT / 2 random WRITEs and READs elsewhere.
   */
  method MonotonicSession(rnd: Randomness) returns (ok: bool, ops: seq<Op>, key: nat, positions: seq<nat>)
    modifies rnd
    ensures !ok ==> rnd.used >= |rnd.draws|
    ensures ok ==> MonotonicShaped(ops, key, positions)
  {
    var slots := new Option<Op>[SESSION_SIZE](_ => None);
    var occupied := new bool[SESSION_SIZE](_ => false);
    ops := [];
    ghost var base;
    ok, key, positions, base := StressKey(rnd, slots, occupied);
    if !ok {
      return;
    }
    ghost var stressed := slots[..];
    var writeIndices, writeKeys, writeValues;
    ok, writeIndices, writeKeys, writeValues :=
      PlaceWrites(rnd, slots, occupied, MONOTONIC_KEY_SPACE, NUM_WRITES - REPEATED_READ_COUNT / 2);
    if !ok {
      return;
    }
    ghost var placed := slots[..];
    ok := FillReads(rnd, slots, occupied, MONOTONIC_KEY_SPACE);
    if !ok {
      return;
    }
    ops := Filled(slots[..]);
    forall j | 0 <= j < |positions|
      ensures ops[positions[j]] == MonotonicOp(j, key, rnd.uuids, base)
    {
      assert placed[positions[j]] == stressed[positions[j]];
    }
    forall s | 0 <= s < SESSION_SIZE
      ensures ops[s].key < MONOTONIC_KEY_SPACE
    {
      if s in writeIndices {
        var i :| 0 <= i < |writeIndices| && writeIndices[i] == s;
      } else if placed[s].Some? {
        assert placed[s] == stressed[s];
      }
    }
  }

  /**
   * generateMonotonicReadWorkload: SESSION_COUNT monotonic sessions of
   * SESSION_SIZE lines each; fewer only once the random draws are exhausted.
   */
  method GenerateMonotonicWorkload(rnd: Randomness, createErr: Option<string>)
    returns (lines: seq<string>, sessions: seq<seq<Op>>, keys: seq<nat>, ghost positions: seq<seq<nat>>)
    modifies rnd
    ensures createErr.Some? ==> sessions == []
    ensures lines == SessionLines(sessions) && |lines| == SESSION_SIZE * |sessions|
    ensures |sessions| <= SESSION_COUNT && |keys| == |positions| == |sessions|
    ensures createErr.None? && |sessions| < SESSION_COUNT ==> rnd.used >= |rnd.draws|
    ensures forall k :: 0 <= k < |sessions| ==> MonotonicShaped(sessions[k], keys[k], positions[k])
  {
    lines, sessions, keys, positions := [], [], [], [];
    if createErr.Some? {
      return;
    }
    while |sessions| < SESSION_COUNT
      invariant |sessions| <= SESSION_COUNT && |keys| == |positions| == |sessions|
      invariant lines == SessionLines(sessions) && |lines| == SESSION_SIZE * |sessions|
      invariant forall k :: 0 <= k < |sessions| ==> MonotonicShaped(sessions[k], keys[k], positions[k])
      decreases SESSION_COUNT - |sessions|
    {
      var ok, ops, key, pos := MonotonicSession(rnd);
      if !ok {
        return;
      }
      ghost var prev := sessions;
      sessions, keys, positions := sessions + [ops], keys + [key], positions + [pos];
      assert sessions[..|sessions| - 1] == prev;
      lines := lines + seq(|ops|, s requires 0 <= s < |ops| => OpLine(ops[s]));
    }
  }

  /**
   * As written, step 1 can choose one slot for every operation: when each of
   * the 120 draws is 7 modulo SESSION_SIZE, the sorted slots are all 7 and the
   * last assignment leaves a WRITE there, so the stressed key's sequence does
   * not start with a READ and only one slot holds it.
   */
  lemma MonotonicAsWrittenCollides(slots: seq<Option<Op>>, key: nat, uuids: nat -> string, base: nat)
    requires |slots| == SESSION_SIZE
    ensures var chosen: seq<nat> := seq(REPEATED_READ_COUNT, _ => 7);
      var sorted := SortSlots(chosen);
      && sorted == chosen
      && Alternated(slots, sorted, key, uuids, base)[sorted[0]] == Some(WriteOp(key, uuids(base + 59)))
  {
    var chosen: seq<nat> := seq(REPEATED_READ_COUNT, _ => 7);
    var sorted := SortSlots(chosen);
    forall i | 0 <= i < |sorted|
      ensures sorted[i] == 7
    {
      assert sorted[i] in chosen;
    }
    assert sorted == chosen;
  }
}
