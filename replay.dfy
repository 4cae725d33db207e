/**
 * Workload replay (client/client.go): a log of "READ key" / "WRITE key value"
 * lines is cleaned of blank lines, cut into sessions of 400 operations, and
 * each session's average utility is collected. The artificial-latency variant
 * also changes the lag table on a fixed session schedule.
 *
 * The api.Get / api.Put calls a session makes are not composed here: the
 * utilities a session gathers are given by `execute`, from the session's
 * number and its parsed operations.
 */
module Replay {
  import opened Wrappers
  import opened Text
  import opened Consistency
  import opened Topology
  import opened Api

  const OPS_PER_SESSION: nat := 400

  // ---------------------------------------------------------------------------
  // Reading the log

  /** The non-blank lines, in their order. */
  function NonBlank(lines: seq<string>): seq<string> {
    if lines == [] then []
    else
      var last := lines[|lines| - 1];
      NonBlank(lines[..|lines| - 1]) + (if IsBlank(last) then [] else [last])
  }

  /** Filtering distributes over concatenation, so order is kept. */
  lemma {:induction false} NonBlankAppend(a: seq<string>, b: seq<string>)
    ensures NonBlank(a + b) == NonBlank(a) + NonBlank(b)
    decreases |b|
  {
    if b == [] {
      assert a + b == a;
    } else {
      var b' := b[..|b| - 1];
      assert (a + b)[..|a + b| - 1] == a + b';
      NonBlankAppend(a, b');
    }
  }

  /** A line survives exactly when it occurs in the log and is not blank. */
  lemma {:induction false} NonBlankMembers(lines: seq<string>, x: string)
    ensures x in NonBlank(lines) <==> x in lines && !IsBlank(x)
  {
    if lines != [] {
      var init := lines[..|lines| - 1];
      NonBlankMembers(init, x);
      assert lines == init + [lines[|lines| - 1]];
    }
  }

  /** The scanner loop of replay_workload_from_log. */
  method ReadOps(lines: seq<string>) returns (ops: seq<string>)
    ensures ops == NonBlank(lines)
    ensures |ops| <= |lines|
  {
    ops := [];
    var i := 0;
    while i < |lines|
      invariant i <= |lines|
      invariant ops == NonBlank(lines[..i]) && |ops| <= i
    {
      assert lines[..i + 1][..i] == lines[..i];
      if !IsBlank(lines[i]) {
        ops := ops + [lines[i]];
      }
      i := i + 1;
    }
    assert lines[..i] == lines;
  }

  // ---------------------------------------------------------------------------
  // Sessions

  /** Number of sessions: ceil(n / 400). */
  function SessionCount(n: nat): nat {
    (n + OPS_PER_SESSION - 1) / OPS_PER_SESSION
  }

  /** The operations of session k: ops[400k .. min(400k + 400, n)]. */
  function SessionOps(ops: seq<string>, k: nat): (r: seq<string>)
    requires k < SessionCount(|ops|)
    ensures 1 <= |r| <= OPS_PER_SESSION
  {
    var start := OPS_PER_SESSION * k;
    var end := if start + OPS_PER_SESSION > |ops| then |ops| else start + OPS_PER_SESSION;
    ops[start..end]
  }

  /**
   * The sessions partition the operations: operation j is at position j mod 400
   * of session j div 400, and every session but the last is full.
   */
  lemma SessionsPartition(ops: seq<string>)
    ensures SessionCount(|ops|) * OPS_PER_SESSION >= |ops|
    ensures |ops| > 0 ==> (SessionCount(|ops|) - 1) * OPS_PER_SESSION < |ops|
    ensures forall j :: 0 <= j < |ops| ==>
      j / OPS_PER_SESSION < SessionCount(|ops|) && SessionOps(ops, j / OPS_PER_SESSION)[j % OPS_PER_SESSION] == ops[j]
    ensures forall k :: 0 <= k < SessionCount(|ops|) - 1 ==> |SessionOps(ops, k)| == OPS_PER_SESSION
  {
  }

  // ---------------------------------------------------------------------------
  // Operations

  /** What the replay loop does with one line. */
  datatype Action =
    | Malformed               // fewer than two fields
    | MalformedWrite          // a WRITE with fewer than three fields
    | Read(key: string)
    | Write(key: string, value: string)
    | Unknown(verb: string)

  function ParseOp(line: string): (a: Action)
    ensures a == Malformed <==> |Fields(line)| < 2
    ensures a.Read? || a.Write? || a == MalformedWrite ==> Fields(line)[0] in {"READ", "WRITE"}
    ensures a.Unknown? ==> a.verb == Fields(line)[0] && a.verb !in {"READ", "WRITE"}
  {
    var parts := Fields(line);
    if |parts| < 2 then Malformed
    else if parts[0] == "READ" then Read(parts[1])
    else if parts[0] == "WRITE" then
      if |parts| < 3 then MalformedWrite else Write(parts[1], parts[2])
    else Unknown(parts[0])
  }

  /** A READ line reads its second field; further fields are ignored. */
  lemma ParseReadLine(key: string, extra: seq<string>)
    requires Words([key] + extra)
    ensures ParseOp(Unwords(["READ", key] + extra)) == Read(key)
  {
    var ws := ["READ", key] + extra;
    forall k | 0 <= k < |ws|
      ensures ws[k] != [] && NoSpace(ws[k])
    {
      if k > 0 {
        assert ws[k] == ([key] + extra)[k - 1];
      }
    }
    FieldsOfUnwords(ws);
  }

  /** A WRITE line writes its third field under its second; further fields are ignored. */
  lemma ParseWriteLine(key: string, value: string, extra: seq<string>)
    requires Words([key, value] + extra)
    ensures ParseOp(Unwords(["WRITE", key, value] + extra)) == Write(key, value)
  {
    var ws := ["WRITE", key, value] + extra;
    forall k | 0 <= k < |ws|
      ensures ws[k] != [] && NoSpace(ws[k])
    {
      if k > 0 {
        assert ws[k] == ([key, value] + extra)[k - 1];
      }
    }
    FieldsOfUnwords(ws);
  }

  /** A WRITE line without a value is skipped. */
  lemma ParseShortWrite(key: string)
    requires Words([key])
    ensures ParseOp(Unwords(["WRITE", key])) == MalformedWrite
  {
    FieldsOfUnwords(["WRITE", key]);
  }

  function Actions(ops: seq<string>): (r: seq<Action>)
    ensures |r| == |ops|
  {
    seq(|ops|, j requires 0 <= j < |ops| => ParseOp(ops[j]))
  }

  /** The per-line loop of a session: each line becomes one action. */
  method ParseSession(ops: seq<string>) returns (actions: seq<Action>)
    ensures actions == Actions(ops)
  {
    actions := [];
    for j := 0 to |ops|
      invariant actions == Actions(ops[..j])
    {
      actions := actions + [ParseOp(ops[j])];
      assert Actions(ops[..j + 1]) == Actions(ops[..j]) + [ParseOp(ops[j])];
    }
    assert ops[..|ops|] == ops;
  }

  // ---------------------------------------------------------------------------
  // Averages

  /** sum/len accumulated left to right; 0 when there are no samples. */
  method Average(us: seq<real>) returns (avg: real)
    ensures avg == Mean(us)
  {
    var sum := 0.0;
    for j := 0 to |us|
      invariant sum == RealSum(us[..j])
    {
      sum := sum + us[j];
      assert us[..j + 1][..j] == us[..j];
    }
    assert us[..|us|] == us;
    avg := if |us| > 0 then sum / (|us| as real) else 0.0;
  }

  /** The average utility recorded for session k. */
  function SessionAverage(ops: seq<string>, k: nat, execute: (nat, seq<Action>) -> seq<real>): real
    requires k < SessionCount(|ops|)
  {
    Mean(execute(k, Actions(SessionOps(ops, k))))
  }

  function Overall(averages: seq<real>): (r: Option<real>)
    ensures r.Some? <==> averages != []
  {
    if averages == [] then None else Some(Mean(averages))
  }

  /** The session averages and the printed overall average of a replay. */
  predicate Replayed(lines: seq<string>, execute: (nat, seq<Action>) -> seq<real>, averages: seq<real>, overall: Option<real>) {
    var ops := NonBlank(lines);
    && |averages| == SessionCount(|ops|)
    && (forall k :: 0 <= k < |averages| ==> averages[k] == SessionAverage(ops, k, execute))
    && overall == Overall(averages)
  }

  /** Runs one session (i = 400k) and returns its average utility. */
  method RunSession(ops: seq<string>, i: nat, execute: (nat, seq<Action>) -> seq<real>) returns (avg: real)
    requires i % OPS_PER_SESSION == 0 && i < |ops|
    ensures i / OPS_PER_SESSION < SessionCount(|ops|)
    ensures avg == SessionAverage(ops, i / OPS_PER_SESSION, execute)
  {
    var end := i + OPS_PER_SESSION;
    if end > |ops| {
      end := |ops|;
    }
    var actions := ParseSession(ops[i..end]);
    avg := Average(execute(i / OPS_PER_SESSION, actions));
  }

  /** replay_workload_from_log, from the lines of the log. */
  method ReplayWorkload(lines: seq<string>, execute: (nat, seq<Action>) -> seq<real>)
    returns (averages: seq<real>, overall: Option<real>)
    ensures Replayed(lines, execute, averages, overall)
  {
    var ops := ReadOps(lines);
    averages := [];
    var i := 0;
    while i < |ops|
      invariant i == OPS_PER_SESSION * |averages|
      invariant |averages| <= SessionCount(|ops|)
      invariant forall k :: 0 <= k < |averages| ==> averages[k] == SessionAverage(ops, k, execute)
    {
      var avg := RunSession(ops, i, execute);
      averages := averages + [avg];
      i := i + OPS_PER_SESSION;
    }
    overall := None;
    if |averages| > 0 {
      var avg := Average(averages);
      overall := Some(avg);
    }
  }

  // ---------------------------------------------------------------------------
  // Latency-injection schedule

  datatype LagChange = LagChange(nodeId: string, lag: int)

  /** The change made before session n (counting from 1), if any. */
  function ScheduledChange(n: nat): Option<LagChange> {
    if n == 4 then Some(LagChange("clem", 60 * MILLISECOND))
    else if n == 8 then Some(LagChange("utah", 60 * MILLISECOND))
    else if n == 12 then Some(LagChange("utah", 0))
    else if n == 16 then Some(LagChange("clem", 0))
    else None
  }

  /** The lag table after SetArtificialLat applies a change. */
  function ApplyChange(nodes: seq<StorageNode>, lags: map<string, int>, change: Option<LagChange>): map<string, int> {
    match change
    case None => lags
    case Some(c) =>
      match NodeWithId(nodes, c.nodeId)
      case Some(k) => lags[nodes[k].address := c.lag]
      case None => lags
  }

  /** The lag table once sessions 1..n have started. */
  function LagsAfter(nodes: seq<StorageNode>, lags: map<string, int>, n: nat): map<string, int> {
    if n == 0 then lags else ApplyChange(nodes, LagsAfter(nodes, lags, n - 1), ScheduledChange(n))
  }

  /**
   * With clem and utah at different addresses: clem is 60ms slow from session 4
   * through 15, utah from 8 through 11, both are back to 0 from session 16, and
   * nothing changes before session 4.
   */
  lemma {:induction false} LagTimeline(nodes: seq<StorageNode>, lags: map<string, int>, clem: nat, utah: nat, n: nat)
    requires NodeWithId(nodes, "clem") == Some(clem) && NodeWithId(nodes, "utah") == Some(utah)
    requires nodes[clem].address != nodes[utah].address
    ensures n < 4 ==> LagsAfter(nodes, lags, n) == lags
    ensures 4 <= n ==> nodes[clem].address in LagsAfter(nodes, lags, n)
    ensures 8 <= n ==> nodes[utah].address in LagsAfter(nodes, lags, n)
    ensures 4 <= n < 16 ==> LagsAfter(nodes, lags, n)[nodes[clem].address] == 60 * MILLISECOND
    ensures 8 <= n < 12 ==> LagsAfter(nodes, lags, n)[nodes[utah].address] == 60 * MILLISECOND
    ensures 12 <= n ==> LagsAfter(nodes, lags, n)[nodes[utah].address] == 0
    ensures 16 <= n ==> LagsAfter(nodes, lags, n)[nodes[clem].address] == 0
  {
    if n > 0 {
      LagTimeline(nodes, lags, clem, utah, n - 1);
    }
  }

  /** Only the four scheduled sessions touch the table. */
  lemma {:induction false} LagsSettle(nodes: seq<StorageNode>, lags: map<string, int>, n: nat)
    requires n >= 16
    ensures LagsAfter(nodes, lags, n) == LagsAfter(nodes, lags, 16)
  {
    if n > 16 {
      LagsSettle(nodes, lags, n - 1);
    }
  }

  /** replay_workload_with_artificial_latency: the same replay, with the schedule applied to the client's lag table. */
  method ReplayWithArtificialLatency(c: Client, lines: seq<string>, execute: (nat, seq<Action>) -> seq<real>)
    returns (averages: seq<real>, overall: Option<real>)
    modifies c
    ensures Replayed(lines, execute, averages, overall)
    ensures c.config == old(c.config) && c.coldStart == old(c.coldStart)
    ensures c.artificialLags == LagsAfter(c.config.nodes, old(c.artificialLags), |averages|)
  {
    var ops := ReadOps(lines);
    averages := [];
    var sessionCounter := 0;
    var i := 0;
    while i < |ops|
      invariant i == OPS_PER_SESSION * |averages| && sessionCounter == |averages|
      invariant |averages| <= SessionCount(|ops|)
      invariant forall k :: 0 <= k < |averages| ==> averages[k] == SessionAverage(ops, k, execute)
      invariant c.config == old(c.config) && c.coldStart == old(c.coldStart)
      invariant c.artificialLags == LagsAfter(c.config.nodes, old(c.artificialLags), sessionCounter)
    {
      sessionCounter := sessionCounter + 1;
      var change := ScheduledChange(sessionCounter);
      if change.Some? {
        c.SetArtificialLat(change.value.nodeId, change.value.lag);
      }
      var avg := RunSession(ops, i, execute);
      averages := averages + [avg];
      i := i + OPS_PER_SESSION;
    }
    overall := None;
    if |averages| > 0 {
      var avg := Average(averages);
      overall := Some(avg);
    }
  }

  // ---------------------------------------------------------------------------
  // Client configuration

  /** One region's entry of clients_config.json. */
  datatype ReconfigurationConfig = ReconfigurationConfig(clientId: string, region: string, coordinatorUrl: string)

  /** loadClientConfigByRegion after decoding: the region's entry, or an error when it is absent. */
  function ClientConfigByRegion(all: map<string, ReconfigurationConfig>, region: string): (r: Result<ReconfigurationConfig>)
    ensures r.Ok? <==> region in all
    ensures r.Ok? ==> r.value == all[region]
  {
    if region in all then Ok(all[region]) else Err("region \"" + region + "\" not found in config")
  }
}
