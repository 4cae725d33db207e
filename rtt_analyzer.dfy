/**
 * The round-trip-time analyser of the evaluation scripts: it scans a client
 * log for the "node_hts is %d and rtt is %v" lines the client prints after
 * each read, takes every duration written in microseconds or milliseconds,
 * and reports the average in microseconds.
 */
module RttAnalyzer {
  import opened Wrappers
  import opened Text
  import opened FirstMatch
  import Api

  const RTT_IS: string := "rtt is "
  /** The micro sign U+00B5 that Go's time.Duration prints before "s". */
  const MICROS: string := ['\U{B5}', 's']

  /** The alternatives of the unit group ([µu]s|ms). */
  predicate IsUnit(u: string) {
    u == MICROS || u == "us" || u == "ms"
  }

  /** The two groups of one match of `rtt is ([\d.]+)([µu]s|ms)`. */
  datatype Match = Match(number: string, unit: string)

  /** The pattern tried at position p of the line; the number group is greedy. */
  function MatchAt(line: string, p: nat): (m: Option<Match>)
    requires p <= |line|
    ensures m.Some? ==> |m.value.number| >= 1 && NumChars(m.value.number) && IsUnit(m.value.unit)
    ensures m.Some? ==> StartsWith(line[p..], RTT_IS + m.value.number + m.value.unit)
  {
    var rest := line[p..];
    if !StartsWith(rest, RTT_IS) then None
    else
      var tail := rest[|RTT_IS|..];
      var n := NumRun(tail);
      if n == 0 || |tail| < n + 2 || !IsUnit(tail[n..n + 2]) then None
      else
        assert rest[..|RTT_IS| + n + 2] == RTT_IS + tail[..n] + tail[n..n + 2];
        Some(Match(tail[..n], tail[n..n + 2]))
  }

  /**
   * Whatever number and unit the pattern could match at p with backtracking,
   * the greedy match finds exactly those: the number group cannot stop early,
   * because no unit starts with a digit or a dot.
   */
  lemma {:induction false} MatchAtComplete(line: string, p: nat, num: string, u: string)
    requires p <= |line| && |num| >= 1 && NumChars(num) && IsUnit(u)
    requires StartsWith(line[p..], RTT_IS + num + u)
    ensures MatchAt(line, p) == Some(Match(num, u))
  {
    var rest := line[p..];
    var whole := RTT_IS + num + u;
    assert rest[..|RTT_IS|] == whole[..|RTT_IS|] == RTT_IS;
    var tail := rest[|RTT_IS|..];
    assert rest[..|whole|] == whole;
    forall k | 0 <= k < |num| + 2
      ensures tail[k] == (num + u)[k]
    {
      assert tail[k] == rest[|RTT_IS| + k] == whole[|RTT_IS| + k];
    }
    assert tail[..|num| + 2] == num + u;
    assert tail == num + tail[|num|..];
    NumRunOf(num, tail[|num|..]);
    assert tail[..|num|] == num && tail[|num|..|num| + 2] == u;
  }

  predicate MatchesAt(line: string, q: nat) {
    q <= |line| && MatchAt(line, q).Some?
  }

  /** The leftmost position from p on where the pattern matches. */
  function SearchFrom(line: string, p: nat): (r: Option<nat>)
    requires p <= |line| + 1
    ensures r.Some? ==> p <= r.value && MatchesAt(line, r.value)
    ensures r.Some? ==> forall q :: p <= q < r.value ==> !MatchesAt(line, q)
    ensures r.None? ==> forall q :: p <= q <= |line| ==> !MatchesAt(line, q)
    decreases |line| + 1 - p
  {
    if p == |line| + 1 then None
    else if MatchAt(line, p).Some? then Some(p)
    else SearchFrom(line, p + 1)
  }

  /** re.search: the leftmost position where the pattern matches. */
  function Search(line: string): Option<nat> {
    SearchFrom(line, 0)
  }

  /** What one log line contributes: nothing, a round-trip time in microseconds, or a float() error. */
  datatype LineOutcome = NoSample | Sample(us: real) | BadNumber(number: string)

  /** The body of the loop over the log's lines. */
  function LineRtt(line: string): LineOutcome {
    if !HasInfix(line, "and rtt is") then NoSample
    else
      match Search(line)
      case None => NoSample
      case Some(p) => MatchRtt(MatchAt(line, p).value)
  }

  /** float() of the number group, scaled to microseconds by the unit group. */
  function MatchRtt(m: Match): LineOutcome
    requires NumChars(m.number) && IsUnit(m.unit)
  {
    match ParseFloat(m.number)
    case None => BadNumber(m.number)
    case Some(v) =>
      if m.unit == "ms" then Sample(v * 1000.0)
      else if m.unit == MICROS || m.unit == "us" then Sample(v)
      else assert false; NoSample
  }

  /** What a line outcome adds to the list of samples. */
  function Contribution(o: LineOutcome): seq<real> {
    if o.Sample? then [o.us] else []
  }

  /** The outcome of every line of the log, in file order. */
  function Outcomes(lines: seq<string>): (outs: seq<LineOutcome>)
    ensures |outs| == |lines| && forall j :: 0 <= j < |lines| ==> outs[j] == LineRtt(lines[j])
  {
    seq(|lines|, j requires 0 <= j < |lines| => LineRtt(lines[j]))
  }

  /** The round-trip times the lines yield, in file order. */
  function Samples(outs: seq<LineOutcome>): seq<real> {
    if outs == [] then []
    else Samples(outs[..|outs| - 1]) + Contribution(outs[|outs| - 1])
  }

  predicate BadAt(outs: seq<LineOutcome>, i: nat) {
    i < |outs| && outs[i].BadNumber?
  }

  function BadLine(outs: seq<LineOutcome>): nat -> bool {
    (i: nat) => BadAt(outs, i)
  }

  /** The first line whose number float() rejects, which ends the script with an exception. */
  function FirstBad(outs: seq<LineOutcome>): Option<nat> {
    First(|outs|, BadLine(outs))
  }

  /** The script's outcome: no samples, the average over the samples, or the ValueError of float(). */
  datatype Report = NoRtt | AverageRtt(avg: real, samples: nat) | Crashed(number: string)

  function Summary(rtts: seq<real>): Report {
    if rtts == [] then NoRtt else AverageRtt(Api.Mean(rtts), |rtts|)
  }

  /** One pass of the loop body: the regular-expression search, float() and the unit scaling. */
  method ParseLine(line: string) returns (outcome: LineOutcome)
    ensures outcome == LineRtt(line)
  {
    outcome := NoSample;
    if HasInfix(line, "and rtt is") {
      var found := Search(line);
      if found.Some? {
        var m := MatchAt(line, found.value).value;
        var parsed := ParseFloat(m.number);
        if parsed.None? {
          return BadNumber(m.number);
        }
        var value := parsed.value;
        if m.unit == "ms" {
          value := value * 1000.0;
        } else if !(m.unit == MICROS || m.unit == "us") {
          assert false;
        }
        outcome := Sample(value);
      }
    }
  }

  /**
   * The loop over the log as Python runs it: the samples gathered so far, or
   * the number float() rejected, which ends the run at that line.
   */
  function Scan(outs: seq<LineOutcome>): Result<seq<real>> {
    if outs == [] then Ok([])
    else
      match Scan(outs[..|outs| - 1])
      case Err(number) => Err(number)
      case Ok(rtts) =>
        match outs[|outs| - 1]
        case BadNumber(number) => Err(number)
        case Sample(us) => Ok(rtts + [us])
        case NoSample => Ok(rtts)
  }

  /** What the script prints once the loop is over, or the exception that stopped it. */
  function Finish(scan: Result<seq<real>>): Report {
    match scan
    case Err(number) => Crashed(number)
    case Ok(rtts) => Summary(rtts)
  }

  /** parse_log_and_compute_avg_rtt over the log's lines. */
  method ParseLogAndComputeAvgRtt(lines: seq<string>) returns (report: Report)
    ensures report == Finish(Scan(Outcomes(lines)))
  {
    ghost var outs := Outcomes(lines);
    var rttValuesUs: seq<real> := [];
    var i := 0;
    while i < |lines|
      invariant i <= |lines|
      invariant Scan(outs[..i]) == Ok(rttValuesUs)
    {
      var outcome := ParseLine(lines[i]);
      assert outs[..i + 1][..i] == outs[..i];
      match outcome {
        case BadNumber(number) =>
          ScanStops(outs, i + 1);
          return Crashed(number);
        case Sample(value) =>
          rttValuesUs := rttValuesUs + [value];
        case NoSample =>
      }
      i := i + 1;
    }
    assert outs[..i] == outs;
    report := Summary(rttValuesUs);
  }

  /** Once float() has raised, later lines change nothing. */
  lemma {:induction false} ScanStops(outs: seq<LineOutcome>, k: nat)
    requires k <= |outs| && Scan(outs[..k]).Err?
    ensures Scan(outs) == Scan(outs[..k])
    decreases |outs| - k
  {
    if k < |outs| {
      assert outs[..k + 1][..k] == outs[..k];
      ScanStops(outs, k + 1);
    } else {
      assert outs[..k] == outs;
    }
  }

  /** The run stopped by the number at line k, the first line float() rejects. */
  predicate StoppedAt(outs: seq<LineOutcome>, k: nat) {
    && BadAt(outs, k)
    && (forall j :: 0 <= j < k ==> !BadAt(outs, j))
    && Scan(outs) == Err(outs[k].number)
  }

  /**
   * The run completes exactly when no line holds a number float() rejects, and
   * then it has gathered every line's sample in order; otherwise it stops with
   * the number of the first such line.
   */
  lemma {:induction false} ScanMeaning(outs: seq<LineOutcome>)
    ensures Scan(outs).Ok? <==> forall j :: 0 <= j < |outs| ==> !BadAt(outs, j)
    ensures Scan(outs).Ok? ==> Scan(outs).value == Samples(outs)
    ensures Scan(outs).Err? ==> exists k :: StoppedAt(outs, k)
  {
    if outs != [] {
      var init := outs[..|outs| - 1];
      ScanMeaning(init);
      assert forall j :: 0 <= j < |init| ==> outs[j] == init[j];
      if Scan(init).Err? {
        var k :| StoppedAt(init, k);
        assert Scan(outs) == Scan(init);
        forall j | 0 <= j <= k
          ensures BadAt(outs, j) == BadAt(init, j)
        {
        }
        assert StoppedAt(outs, k);
      } else if outs[|outs| - 1].BadNumber? {
        assert Scan(outs) == Err(outs[|outs| - 1].number);
        forall j | 0 <= j < |outs| - 1
          ensures !BadAt(outs, j)
        {
          assert !BadAt(init, j);
        }
        assert StoppedAt(outs, |outs| - 1);
      } else {
        var last := outs[|outs| - 1];
        assert Scan(init) == Ok(Samples(init));
        assert Samples(outs) == Samples(init) + Contribution(last);
        if last.Sample? {
          assert Scan(outs) == Ok(Samples(init) + [last.us]);
        } else {
          assert Scan(outs) == Ok(Samples(init));
        }
        forall j | 0 <= j < |outs|
          ensures !BadAt(outs, j)
        {
          if j < |init| {
            assert !BadAt(init, j);
          }
        }
      }
    }
  }

  /** What the script reports: the first rejected number, or the average of all samples. */
  lemma ReportMeaning(lines: seq<string>)
    ensures var outs := Outcomes(lines);
      FirstBad(outs).Some? ==> Finish(Scan(outs)) == Crashed(LineRtt(lines[FirstBad(outs).value]).number)
    ensures var outs := Outcomes(lines);
      FirstBad(outs).None? ==> Finish(Scan(outs)) == Summary(Samples(outs))
  {
    var outs := Outcomes(lines);
    ScanMeaning(outs);
    if Scan(outs).Err? {
      var k :| StoppedAt(outs, k);
      FirstIs(|outs|, BadLine(outs), k);
    } else {
      FirstNone(|outs|, BadLine(outs));
    }
  }

  /** Samples come out in file order: a log split in two yields the samples of each part in turn. */
  lemma {:induction false} SamplesAppend(a: seq<LineOutcome>, b: seq<LineOutcome>)
    ensures Samples(a + b) == Samples(a) + Samples(b)
    decreases |b|
  {
    if b == [] {
      assert a + b == a;
    } else {
      assert (a + b)[..|a + b| - 1] == a + b[..|b| - 1];
      SamplesAppend(a, b[..|b| - 1]);
    }
  }

  /** Every sample is a line's own round-trip time, and no log yields more samples than lines. */
  lemma {:induction false} SamplesFromLines(outs: seq<LineOutcome>)
    ensures |Samples(outs)| <= |outs|
    ensures forall k :: 0 <= k < |Samples(outs)| ==>
      exists i :: 0 <= i < |outs| && outs[i] == Sample(Samples(outs)[k])
  {
    if outs != [] {
      var init := outs[..|outs| - 1];
      SamplesFromLines(init);
      forall k | 0 <= k < |Samples(outs)|
        ensures exists i :: 0 <= i < |outs| && outs[i] == Sample(Samples(outs)[k])
      {
        if k < |Samples(init)| {
          var i :| 0 <= i < |init| && init[i] == Sample(Samples(init)[k]);
          assert outs[i] == init[i];
        } else {
          assert outs[|outs| - 1] == Sample(Samples(outs)[k]);
        }
      }
    }
  }

  /** A position holding no 'r' cannot start a match. */
  lemma NoMatchWithoutR(line: string, q: nat)
    requires q <= |line| && (q < |line| ==> line[q] != 'r')
    ensures MatchAt(line, q).None?
  {
  }

  /** The text the client prints before the duration: "node_hts is <h> and ". */
  function LogPrefix(h: nat): string {
    "node_hts is " + Decimal(h) + " and "
  }

  lemma LogPrefixHasNoR(h: nat)
    ensures forall q :: 0 <= q < |LogPrefix(h)| ==> LogPrefix(h)[q] != 'r'
  {
    var d := Decimal(h);
    forall q | 0 <= q < |LogPrefix(h)|
      ensures LogPrefix(h)[q] != 'r'
    {
      if 12 <= q < 12 + |d| {
        assert LogPrefix(h)[q] == d[q - 12];
        assert IsDigit(d[q - 12]);
      }
    }
  }

  /** A line the client prints, split at the start of "rtt is". */
  lemma LogLineShape(h: nat, after: string)
    ensures var line := LogPrefix(h) + RTT_IS + after;
      && HasInfix(line, "and rtt is")
      && (forall q :: 0 <= q < |LogPrefix(h)| ==> line[q] != 'r')
      && line[|LogPrefix(h)|..] == RTT_IS + after
  {
    var pre := LogPrefix(h);
    var line := pre + RTT_IS + after;
    LogPrefixHasNoR(h);
    var w := |pre| - 4;
    assert pre[w..] == "and ";
    assert line[w..][..10] == "and rtt is";
    assert StartsWith(line[w..], "and rtt is");
    forall q | 0 <= q < |pre|
      ensures line[q] != 'r'
    {
      assert line[q] == pre[q];
    }
    assert line[|pre|..] == RTT_IS + after;
  }

  /** A line that names "and rtt is" and first matches at p yields that match's outcome. */
  lemma LineRttAt(line: string, p: nat, num: string, u: string)
    requires HasInfix(line, "and rtt is")
    requires p <= |line| && forall q :: 0 <= q < p ==> line[q] != 'r'
    requires |num| >= 1 && NumChars(num) && IsUnit(u)
    requires StartsWith(line[p..], RTT_IS + num + u)
    ensures LineRtt(line) == MatchRtt(Match(num, u))
  {
    MatchAtComplete(line, p, num, u);
    forall q | 0 <= q < p
      ensures !MatchesAt(line, q)
    {
      NoMatchWithoutR(line, q);
    }
    SearchIs(line, p);
  }

  /** The search finds p when the pattern matches there and nowhere before. */
  lemma SearchIs(line: string, p: nat)
    requires MatchesAt(line, p) && forall q :: 0 <= q < p ==> !MatchesAt(line, q)
    ensures Search(line) == Some(p)
  {
  }

  /**
   * A round-trip time printed in microseconds or milliseconds comes back as a
   * sample in microseconds, or as the float() error when the digits do not form
   * a number.
   */
  lemma LogLineOutcome(h: nat, num: string, u: string)
    requires |num| >= 1 && NumChars(num) && IsUnit(u)
    ensures var line := LogPrefix(h) + RTT_IS + num + u + "\n";
      LineRtt(line) == match ParseFloat(num)
        case None => BadNumber(num)
        case Some(v) => Sample(if u == "ms" then v * 1000.0 else v)
  {
    var after := num + u + "\n";
    var line := LogPrefix(h) + RTT_IS + after;
    assert line == LogPrefix(h) + RTT_IS + num + u + "\n";
    LogLineShape(h, after);
    var p := |LogPrefix(h)|;
    assert line[p..][..|RTT_IS + num + u|] == RTT_IS + num + u;
    LineRttAt(line, p, num, u);
  }

  /** Past the start of "rtt is", a seconds duration holds no further 'r'. */
  lemma SecondsTextHasNoR(num: string)
    requires NumChars(num)
    ensures var rest := RTT_IS + num + "s\n";
      forall k :: 1 <= k < |rest| ==> rest[k] != 'r'
  {
    var rest := RTT_IS + num + "s\n";
    forall k | 1 <= k < |rest|
      ensures rest[k] != 'r'
    {
      if k < |RTT_IS| {
        assert rest[k] == RTT_IS[k];
      } else if k < |RTT_IS| + |num| {
        assert rest[k] == num[k - |RTT_IS|];
        assert IsNumChar(num[k - |RTT_IS|]);
      } else {
        assert rest[k] == "s\n"[k - |RTT_IS| - |num|];
      }
    }
  }

  /** A line whose text from p on is "rtt is <num>s", with no 'r' before p, matches nowhere. */
  lemma SecondsMatchNowhere(line: string, p: nat, num: string)
    requires p <= |line| && forall q :: 0 <= q < p ==> line[q] != 'r'
    requires |num| >= 1 && NumChars(num)
    requires line[p..] == RTT_IS + num + "s\n"
    ensures forall q :: 0 <= q <= |line| ==> MatchAt(line, q).None?
  {
    SecondsTextHasNoR(num);
    var tail := line[p..][|RTT_IS|..];
    assert tail == num + "s\n";
    NumRunOf(num, "s\n");
    assert tail[|num|..|num| + 2] == "s\n";
    assert MatchAt(line, p).None?;
    forall q | 0 <= q <= |line| && q != p
      ensures MatchAt(line, q).None?
    {
      if p < q < |line| {
        assert line[q] == line[p..][q - p];
      }
      NoMatchWithoutR(line, q);
    }
  }

  /**
   * A round-trip time of a second or more, which time.Duration prints in
   * seconds ("1.5s"), matches no unit of the pattern and is left out of the
   * average.
   */
  lemma SecondsSkipped(h: nat, num: string)
    requires |num| >= 1 && NumChars(num)
    ensures LineRtt(LogPrefix(h) + RTT_IS + num + "s\n") == NoSample
  {
    var after := num + "s\n";
    var line := LogPrefix(h) + RTT_IS + after;
    assert line == LogPrefix(h) + RTT_IS + num + "s\n";
    LogLineShape(h, after);
    SecondsMatchNowhere(line, |LogPrefix(h)|, num);
  }

  /** "1.2.3" in place of a number makes float() raise, which ends the whole script. */
  lemma TwoDotsCrash(h: nat)
    ensures LineRtt(LogPrefix(h) + RTT_IS + "1.2.3" + "ms" + "\n") == BadNumber("1.2.3")
  {
    var num := "1.2.3";
    assert NumChars(num) by {
      assert forall i :: 0 <= i < |num| ==> IsNumChar(num[i]);
    }
    TwoDotsRejected(num, 1, 3);
    LogLineOutcome(h, num, "ms");
  }
}
