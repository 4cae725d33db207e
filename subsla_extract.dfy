/**
 * The sub-SLA utility extraction of the evaluation scripts: one pass keeps the
 * client log lines about chosen or gained sub-SLAs, stripped; a second pass
 * pulls the utility, the last field of each gained sub-SLA the client prints
 * with "%v", out of every line.
 */
module SubslaExtract {
  import opened Wrappers
  import opened Text

  // ---------------------------------------------------------------------------
  // extract_matching_lines

  const CHOSEN: string := "chosen subsla is"
  const GAINED: string := "subSLAGained"

  /** The test of the line filter: the line names a chosen or a gained sub-SLA. */
  predicate Selected(line: string) {
    HasInfix(line, CHOSEN) || HasInfix(line, GAINED)
  }

  /** What the filter writes for the lines so far: each kept line stripped, then a newline. */
  function MatchingLines(lines: seq<string>): seq<string> {
    if lines == [] then []
    else
      var last := lines[|lines| - 1];
      MatchingLines(lines[..|lines| - 1]) + (if Selected(last) then [PyStrip(last) + "\n"] else [])
  }

  /** extract_matching_lines: the lines written to the output file, in order (the echo to stdout is the same text). */
  method ExtractMatchingLines(lines: seq<string>) returns (written: seq<string>)
    ensures written == MatchingLines(lines)
  {
    written := [];
    var i := 0;
    while i < |lines|
      invariant i <= |lines|
      invariant written == MatchingLines(lines[..i])
    {
      assert lines[..i + 1][..i] == lines[..i];
      var line := lines[i];
      if HasInfix(line, CHOSEN) || HasInfix(line, GAINED) {
        var cleanLine := PyStrip(line);
        written := written + [cleanLine + "\n"];
      }
      i := i + 1;
    }
    assert lines[..i] == lines;
  }

  /** The filter keeps file order: two parts of a log are filtered one after the other. */
  lemma {:induction false} MatchingLinesAppend(a: seq<string>, b: seq<string>)
    ensures MatchingLines(a + b) == MatchingLines(a) + MatchingLines(b)
    decreases |b|
  {
    if b == [] {
      assert a + b == a;
    } else {
      assert (a + b)[..|a + b| - 1] == a + b[..|b| - 1];
      MatchingLinesAppend(a, b[..|b| - 1]);
    }
  }

  /** x is what the filter writes for some selected line of the log. */
  predicate WrittenFrom(lines: seq<string>, x: string) {
    exists i :: 0 <= i < |lines| && Selected(lines[i]) && x == PyStrip(lines[i]) + "\n"
  }

  /** Every written line is a selected line of the log, stripped. */
  lemma {:induction false} MatchingLinesSound(lines: seq<string>)
    ensures |MatchingLines(lines)| <= |lines|
    ensures forall k :: 0 <= k < |MatchingLines(lines)| ==> WrittenFrom(lines, MatchingLines(lines)[k])
  {
    if lines != [] {
      var init := lines[..|lines| - 1];
      MatchingLinesSound(init);
      var out := MatchingLines(lines);
      assert |out| <= |MatchingLines(init)| + 1;
      forall k | 0 <= k < |out|
        ensures WrittenFrom(lines, out[k])
      {
        if k < |MatchingLines(init)| {
          assert out[k] == MatchingLines(init)[k];
          assert WrittenFrom(init, out[k]);
          var i :| 0 <= i < |init| && Selected(init[i]) && out[k] == PyStrip(init[i]) + "\n";
          assert lines[i] == init[i];
        } else {
          assert out[k] == PyStrip(lines[|lines| - 1]) + "\n";
        }
      }
    }
  }

  /** Every selected line of the log is written, stripped. */
  lemma {:induction false} MatchingLinesComplete(lines: seq<string>)
    ensures forall i :: 0 <= i < |lines| && Selected(lines[i]) ==> PyStrip(lines[i]) + "\n" in MatchingLines(lines)
  {
    if lines != [] {
      var init := lines[..|lines| - 1];
      MatchingLinesComplete(init);
      forall i | 0 <= i < |lines| && Selected(lines[i])
        ensures PyStrip(lines[i]) + "\n" in MatchingLines(lines)
      {
        if i < |init| {
          assert init[i] == lines[i];
          assert PyStrip(init[i]) + "\n" in MatchingLines(init);
        }
      }
    }
  }

  /** An occurrence of a pattern with non-space ends lies inside the part strip keeps. */
  lemma InfixInsideStrip(s: string, pat: string, i: nat)
    requires |pat| >= 1 && !PySpace(pat[0]) && !PySpace(pat[|pat| - 1])
    requires i + |pat| <= |s| && s[i..i + |pat|] == pat
    ensures LeadingSpaces(s) <= i && i + |pat| <= |s| - TrailingSpaces(s)
  {
    assert s[i] == pat[0];
    assert s[i + |pat| - 1] == pat[|pat| - 1];
  }

  /** An occurrence inside the bounds of a slice is an occurrence in the slice. */
  lemma InfixOfSlice(s: string, lo: nat, hi: nat, i: nat, pat: string)
    requires lo <= i && i + |pat| <= hi <= |s| && s[i..i + |pat|] == pat
    ensures HasInfix(s[lo..hi], pat)
  {
    SliceOfSlice(s, lo, hi, i - lo, i - lo + |pat|);
    assert s[lo..hi][i - lo..][..|pat|] == s[lo..hi][i - lo..i - lo + |pat|];
    assert StartsWith(s[lo..hi][i - lo..], pat);
  }

  /** Stripping keeps the occurrence of a pattern at i when the pattern starts and ends with a non-space. */
  lemma StripKeepsInfixAt(s: string, pat: string, i: nat)
    requires |pat| >= 1 && !PySpace(pat[0]) && !PySpace(pat[|pat| - 1])
    requires i + |pat| <= |s| && s[i..i + |pat|] == pat
    ensures HasInfix(PyStrip(s), pat)
  {
    InfixInsideStrip(s, pat, i);
    StripIsSlice(s);
    InfixOfSlice(s, LeadingSpaces(s), |s| - TrailingSpaces(s), i, pat);
  }

  /** Stripping cannot cut into a pattern that starts and ends with a non-space. */
  lemma StripKeepsInfix(s: string, pat: string)
    requires |pat| >= 1 && !PySpace(pat[0]) && !PySpace(pat[|pat| - 1])
    requires HasInfix(s, pat)
    ensures HasInfix(PyStrip(s), pat)
  {
    var i :| 0 <= i <= |s| && StartsWith(s[i..], pat);
    assert s[i..i + |pat|] == s[i..][..|pat|];
    StripKeepsInfixAt(s, pat, i);
  }

  /** A written line is selected again: filtering the output a second time keeps all of it. */
  lemma WrittenLinesSelected(line: string)
    requires Selected(line)
    ensures Selected(PyStrip(line))
  {
    if HasInfix(line, CHOSEN) {
      StripKeepsInfix(line, CHOSEN);
    } else {
      StripKeepsInfix(line, GAINED);
    }
  }

  // ---------------------------------------------------------------------------
  // The patterns subSLAGained=\{.*? ([0-9.]+)\} and subSLAGained: \{.*? ([0-9.]+)\}

  const EQ_PREFIX: string := "subSLAGained={"
  const COLON_PREFIX: string := "subSLAGained: {"

  /**
   * The tail ` ([0-9.]+)\}` at the start of rest. The number run is greedy, and
   * no shorter run could be followed by '}', so it is the only way to match.
   */
  predicate TailText(rest: string) {
    && |rest| >= 1 && rest[0] == ' '
    && NumRun(rest[1..]) >= 1
    && NumRun(rest[1..]) + 1 < |rest|
    && rest[NumRun(rest[1..]) + 1] == '}'
  }

  /** The captured group of a tail. */
  function TailGroup(rest: string): (g: string)
    requires TailText(rest)
    ensures |g| >= 1 && NumChars(g)
  {
    var n := NumRun(rest[1..]);
    assert rest[1..1 + n] == rest[1..][..n];
    rest[1..1 + n]
  }

  /** A space, digits and dots, and a brace always form the tail, with exactly those digits captured. */
  lemma TailComplete(rest: string, g: string)
    requires |g| >= 1 && NumChars(g) && StartsWith(rest, " " + g + "}")
    ensures TailText(rest) && TailGroup(rest) == g
  {
    var t := rest[1..];
    assert rest[..|g| + 2] == " " + g + "}";
    forall k | 0 <= k < |g| + 1
      ensures t[k] == (g + "}")[k]
    {
      assert t[k] == rest[..|g| + 2][k + 1];
    }
    assert t[..|g| + 1] == g + "}";
    assert t == g + t[|g|..];
    NumRunOf(g, t[|g|..]);
    assert t[..|g|] == g;
  }

  predicate TailAt(line: string, q: nat) {
    q < |line| && TailText(line[q..])
  }

  predicate NoNewline(line: string, lo: nat, hi: nat)
    requires lo <= hi <= |line|
  {
    forall k :: lo <= k < hi ==> line[k] != '\n'
  }

  /** The lazy `.*?` from q: the nearest tail, reached without crossing a newline. */
  function LazyFrom(line: string, q: nat): (r: Option<nat>)
    requires q <= |line|
    ensures r.Some? ==> q <= r.value < |line| && TailAt(line, r.value) && NoNewline(line, q, r.value)
    ensures r.Some? ==> forall k :: q <= k < r.value ==> !TailAt(line, k)
    ensures r.None? ==> forall k :: q <= k < |line| && NoNewline(line, q, k) ==> !TailAt(line, k)
    decreases |line| - q
  {
    if q == |line| then None
    else if TailAt(line, q) then Some(q)
    else if line[q] == '\n' then None
    else LazyFrom(line, q + 1)
  }

  /** Where the tail of a match starting at p lies, if the pattern with this literal start matches there. */
  function TailFor(line: string, prefix: string, p: nat): (r: Option<nat>)
    requires p <= |line|
    ensures r.Some? ==> StartsWith(line[p..], prefix) && p + |prefix| <= r.value && TailAt(line, r.value)
  {
    if !StartsWith(line[p..], prefix) then None else LazyFrom(line, p + |prefix|)
  }

  predicate MatchesAt(line: string, prefix: string, p: nat) {
    p <= |line| && TailFor(line, prefix, p).Some?
  }

  /** re.search: the leftmost start from p on. */
  function SearchFrom(line: string, prefix: string, p: nat): (r: Option<nat>)
    requires p <= |line| + 1
    ensures r.Some? ==> p <= r.value && MatchesAt(line, prefix, r.value)
    ensures r.Some? ==> forall k :: p <= k < r.value ==> !MatchesAt(line, prefix, k)
    ensures r.None? ==> forall k :: p <= k <= |line| ==> !MatchesAt(line, prefix, k)
    decreases |line| + 1 - p
  {
    if p == |line| + 1 then None
    else if TailFor(line, prefix, p).Some? then Some(p)
    else SearchFrom(line, prefix, p + 1)
  }

  /** match.group(1) of the search, if the pattern matches anywhere in the line. */
  function Group(line: string, prefix: string): (g: Option<string>)
    ensures g.Some? ==> |g.value| >= 1 && NumChars(g.value)
  {
    match SearchFrom(line, prefix, 0)
    case None => None
    case Some(p) => Some(TailGroup(line[TailFor(line, prefix, p).value..]))
  }

  /**
   * The group is found when the literal first occurs at p and the nearest tail
   * after it, on the same line, is at q.
   */
  lemma GroupFound(line: string, prefix: string, p: nat, q: nat, num: string)
    requires |prefix| >= 1 && p + |prefix| <= q < |line|
    requires StartsWith(line[p..], prefix)
    requires forall k :: 0 <= k < p ==> !StartsWith(line[k..], prefix)
    requires NoNewline(line, p + |prefix|, q)
    requires forall k :: p + |prefix| <= k < q ==> !TailAt(line, k)
    requires |num| >= 1 && NumChars(num) && StartsWith(line[q..], " " + num + "}")
    ensures Group(line, prefix) == Some(num)
  {
    TailComplete(line[q..], num);
    assert TailAt(line, q);
    assert LazyFrom(line, p + |prefix|) == Some(q);
    assert MatchesAt(line, prefix, p);
    forall k | 0 <= k < p
      ensures !MatchesAt(line, prefix, k)
    {
    }
    assert SearchFrom(line, prefix, 0) == Some(p);
  }

  // ---------------------------------------------------------------------------
  // extract_subsla_utilities

  /** float() of a found group: no value, the value, or the ValueError that ends the script. */
  function Found(g: Option<string>): Result<seq<real>>
    requires g.Some? ==> NumChars(g.value)
  {
    match g
    case None => Ok([])
    case Some(text) =>
      match ParseFloat(text)
      case None => Err(text)
      case Some(v) => Ok([v])
  }

  /** Values gathered in two steps: the first step's, then the second's; the first error wins. */
  function Then(first: Result<seq<real>>, second: Result<seq<real>>): Result<seq<real>> {
    match first
    case Err(text) => Err(text)
    case Ok(a) =>
      match second
      case Err(text) => Err(text)
      case Ok(b) => Ok(a + b)
  }

  /** The values one line adds: the "=" pattern's first, then the ": " pattern's. */
  function LineUtilities(line: string): Result<seq<real>> {
    Then(Found(Group(line, EQ_PREFIX)), Found(Group(line, COLON_PREFIX)))
  }

  /**
   * Each pattern adds at most one value; a line matching both adds two, the
   * "=" one first; a line matching neither adds nothing.
   */
  lemma LineUtilitiesShape(line: string)
    ensures LineUtilities(line).Ok? ==> |LineUtilities(line).value| <= 2
    ensures Group(line, EQ_PREFIX).None? && Group(line, COLON_PREFIX).None? ==> LineUtilities(line) == Ok([])
    ensures Group(line, EQ_PREFIX).Some? && Group(line, COLON_PREFIX).Some? && LineUtilities(line).Ok? ==>
      LineUtilities(line).value == [ParseFloat(Group(line, EQ_PREFIX).value).value, ParseFloat(Group(line, COLON_PREFIX).value).value]
    ensures LineUtilities(line).Ok? ==>
      |LineUtilities(line).value| == (if Group(line, EQ_PREFIX).Some? then 1 else 0) + (if Group(line, COLON_PREFIX).Some? then 1 else 0)
  {
  }

  /** The outcome of every line of the file, in order. */
  function LineResults(lines: seq<string>): (outs: seq<Result<seq<real>>>)
    ensures |outs| == |lines| && forall j :: 0 <= j < |lines| ==> outs[j] == LineUtilities(lines[j])
  {
    seq(|lines|, j requires 0 <= j < |lines| => LineUtilities(lines[j]))
  }

  /** The loop over the file: the values gathered so far, or the float() error that ended it. */
  function Utilities(outs: seq<Result<seq<real>>>): Result<seq<real>> {
    if outs == [] then Ok([])
    else
      Then(Utilities(outs[..|outs| - 1]), outs[|outs| - 1])
  }

  /** `if m: utilities.append(float(m.group(1)))` for one search result. */
  method AppendFound(utilities: seq<real>, m: Option<string>) returns (r: Result<seq<real>>)
    requires m.Some? ==> NumChars(m.value)
    ensures r == Then(Ok(utilities), Found(m))
  {
    r := Ok(utilities);
    assert utilities + [] == utilities;
    if m.Some? {
      var v := ParseFloat(m.value);
      if v.None? {
        return Err(m.value);
      }
      r := Ok(utilities + [v.value]);
    }
  }

  /** One pass of the loop body: both searches, then the appends in order. */
  method AppendLineUtilities(utilities: seq<real>, line: string) returns (r: Result<seq<real>>)
    ensures r == Then(Ok(utilities), LineUtilities(line))
  {
    var match_ := Group(line, EQ_PREFIX);
    var errMatch := Group(line, COLON_PREFIX);
    r := AppendFound(utilities, match_);
    if r.Ok? {
      var found := r.value;
      r := AppendFound(found, errMatch);
      if r.Ok? {
        assert r.value == utilities + Found(match_).value + Found(errMatch).value;
        assert r.value == utilities + (Found(match_).value + Found(errMatch).value);
      }
    }
  }

  /** extract_subsla_utilities over the lines of the file. */
  method ExtractSubslaUtilities(lines: seq<string>) returns (r: Result<seq<real>>)
    ensures r == Utilities(LineResults(lines))
  {
    ghost var outs := LineResults(lines);
    var utilities: seq<real> := [];
    var i := 0;
    while i < |lines|
      invariant i <= |lines|
      invariant Utilities(outs[..i]) == Ok(utilities)
    {
      assert outs[..i + 1][..i] == outs[..i];
      var next := AppendLineUtilities(utilities, lines[i]);
      if next.Err? {
        UtilitiesStop(outs, i + 1);
        return next;
      }
      utilities := next.value;
      i := i + 1;
    }
    assert outs[..i] == outs;
    r := Ok(utilities);
  }

  /** Once float() has raised, later lines change nothing. */
  lemma {:induction false} UtilitiesStop(outs: seq<Result<seq<real>>>, k: nat)
    requires k <= |outs| && Utilities(outs[..k]).Err?
    ensures Utilities(outs) == Utilities(outs[..k])
    decreases |outs| - k
  {
    if k < |outs| {
      assert outs[..k + 1][..k] == outs[..k];
      UtilitiesStop(outs, k + 1);
    } else {
      assert outs[..k] == outs;
    }
  }

  /** Without a float() error, the values come out in line order: the file's parts one after the other. */
  lemma {:induction false} UtilitiesAppend(a: seq<Result<seq<real>>>, b: seq<Result<seq<real>>>)
    requires Utilities(a).Ok? && Utilities(b).Ok?
    ensures Utilities(a + b) == Ok(Utilities(a).value + Utilities(b).value)
    decreases |b|
  {
    if b == [] {
      assert a + b == a;
      assert Utilities(a).value + [] == Utilities(a).value;
    } else {
      var init := b[..|b| - 1];
      assert (a + b)[..|a + b| - 1] == a + init;
      assert Utilities(init).Ok?;
      UtilitiesAppend(a, init);
      var last := b[|b| - 1];
      assert last.Ok?;
      assert Utilities(b) == Ok(Utilities(init).value + last.value);
      assert (a + b)[|a + b| - 1] == last;
      assert Utilities(a + b) == Ok(Utilities(a + init).value + last.value);
      assert Utilities(a + init).value + last.value == Utilities(a).value + (Utilities(init).value + last.value);
    }
  }

  // ---------------------------------------------------------------------------
  // The lines the client prints

  /**
   * The "%v" spelling of a gained sub-SLA: its consistency level, its latency
   * bound in braces, a nil staleness bound and the utility.
   */
  function SubSlaText(level: nat, latency: string, utility: string): string {
    "{" + Decimal(level) + " {" + latency + "} <nil> " + utility + "}"
  }

  /** In a sub-SLA's fields the first tail is the one before the utility. */
  lemma FieldsFirstTail(level: nat, latency: string, utility: string, post: string)
    requires forall i :: 0 <= i < |latency| ==> latency[i] != ' ' && latency[i] != '\n'
    requires |utility| >= 1 && NumChars(utility)
    ensures var s := SubSlaText(level, latency, utility)[1..] + post;
      var k := |Decimal(level)| + |latency| + 9;
      && k < |s|
      && s[k..][..|utility| + 2] == " " + utility + "}"
      && (forall j :: 0 <= j < k ==> s[j] != '\n' && !TailText(s[j..]))
  {
    var d := Decimal(level);
    var b := d + " {" + latency;
    var c := b + "} <nil> ";
    var s := SubSlaText(level, latency, utility)[1..] + post;
    assert s == c + utility + "}" + post;
    var k := |c| - 1;
    assert k == |d| + |latency| + 9;
    assert s[k..][..|utility| + 2] == " " + utility + "}";
    forall j | 0 <= j < k
      ensures s[j] != '\n' && !TailText(s[j..])
    {
      if j < |d| {
        assert s[j] == d[j] && IsDigit(d[j]);
      } else if j == |d| {
        assert s[j + 1] == '{';
      } else if j < |b| {
        if j > |d| + 1 {
          assert s[j] == latency[j - |d| - 2];
        }
      } else if j == |b| + 1 {
        assert s[j + 1] == '<';
      } else {
        assert s[j] == c[j] == "} <nil> "[j - |b|];
      }
    }
  }

  /** A literal starting with 's' cannot start inside text without an 's'. */
  lemma NoPrefixBefore(pre: string, prefix: string, rest: string)
    requires |prefix| >= 1 && prefix[0] == 's'
    requires forall i :: 0 <= i < |pre| ==> pre[i] != 's'
    ensures forall j :: 0 <= j < |pre| ==> !StartsWith((pre + rest)[j..], prefix)
  {
    forall j | 0 <= j < |pre|
      ensures !StartsWith((pre + rest)[j..], prefix)
    {
      assert (pre + rest)[j] == pre[j];
    }
  }

  /** A pattern whose literal start never occurs finds no group. */
  lemma GroupAbsent(line: string, prefix: string)
    requires !HasInfix(line, prefix)
    ensures Group(line, prefix).None?
  {
  }

  /** The tail facts about the sub-SLA's fields, carried over to the whole line. */
  lemma FieldsInLine(line: string, start: nat, s: string, k: nat, utility: string)
    requires start + |s| == |line| && line[start..] == s
    requires k + |utility| + 2 <= |s| && s[k..][..|utility| + 2] == " " + utility + "}"
    requires forall j :: 0 <= j < k ==> s[j] != '\n' && !TailText(s[j..])
    ensures NoNewline(line, start, start + k)
    ensures forall j :: start <= j < start + k ==> !TailAt(line, j)
    ensures StartsWith(line[start + k..], " " + utility + "}")
  {
    forall j | start <= j < start + k
      ensures line[j] != '\n' && !TailAt(line, j)
    {
      assert line[j] == s[j - start];
      assert line[j..] == s[j - start..];
    }
    assert line[start + k..] == s[k..];
  }

  function Other(prefix: string): string {
    if prefix == EQ_PREFIX then COLON_PREFIX else EQ_PREFIX
  }

  /** The conditions under which one pattern yields exactly the utility at offset k past its literal start. */
  predicate GainedShape(line: string, prefix: string, p: nat, k: nat, utility: string) {
    && p + |prefix| + k < |line|
    && StartsWith(line[p..], prefix)
    && (forall j :: 0 <= j < p ==> !StartsWith(line[j..], prefix))
    && NoNewline(line, p + |prefix|, p + |prefix| + k)
    && (forall j :: p + |prefix| <= j < p + |prefix| + k ==> !TailAt(line, j))
    && StartsWith(line[p + |prefix| + k..], " " + utility + "}")
  }

  lemma GainedAt(line: string, prefix: string, p: nat, k: nat, utility: string)
    requires prefix == EQ_PREFIX || prefix == COLON_PREFIX
    requires |utility| >= 1 && NumChars(utility)
    requires GainedShape(line, prefix, p, k, utility) && !HasInfix(line, Other(prefix))
    ensures LineUtilities(line) == Found(Some(utility))
  {
    GroupFound(line, prefix, p, p + |prefix| + k, utility);
    GroupAbsent(line, Other(prefix));
    SingleGroupUtility(line, prefix, utility);
  }

  /** A label starting with 's' after text without an 's', followed by fields whose first tail is at k. */
  lemma LabelledFields(pre: string, prefix: string, body: string, post: string, k: nat, utility: string)
    requires |prefix| >= 1 && prefix[0] == 's'
    requires forall i :: 0 <= i < |pre| ==> pre[i] != 's'
    requires var s := body + post;
      && k + |utility| + 2 <= |s| && s[k..][..|utility| + 2] == " " + utility + "}"
      && (forall j :: 0 <= j < k ==> s[j] != '\n' && !TailText(s[j..]))
    ensures GainedShape(pre + prefix + body + post, prefix, |pre|, k, utility)
  {
    var s := body + post;
    var line := pre + (prefix + s);
    assert line == pre + prefix + body + post;
    var start := |pre| + |prefix|;
    assert line[start..] == s;
    FieldsInLine(line, start, s, k, utility);
    assert line[|pre|..][..|prefix|] == prefix;
    NoPrefixBefore(pre, prefix, prefix + s);
  }

  /** The client's line has the shape above, with the utility right after the fields' last space. */
  lemma GainedLineFacts(pre: string, prefix: string, level: nat, latency: string, utility: string, post: string)
    requires prefix == EQ_PREFIX || prefix == COLON_PREFIX
    requires forall i :: 0 <= i < |pre| ==> pre[i] != 's'
    requires forall i :: 0 <= i < |latency| ==> latency[i] != ' ' && latency[i] != '\n'
    requires |utility| >= 1 && NumChars(utility)
    ensures GainedShape(pre + prefix + SubSlaText(level, latency, utility)[1..] + post, prefix, |pre|,
      |Decimal(level)| + |latency| + 9, utility)
  {
    FieldsFirstTail(level, latency, utility, post);
    LabelledFields(pre, prefix, SubSlaText(level, latency, utility)[1..], post, |Decimal(level)| + |latency| + 9, utility);
  }

  /**
   * A line holding one gained sub-SLA after the "=" or ": " form of the label,
   * and no other use of the label, yields that sub-SLA's utility, or the
   * float() error when the utility text is not a number.
   */
  lemma GainedLineUtility(pre: string, prefix: string, level: nat, latency: string, utility: string, post: string)
    requires prefix == EQ_PREFIX || prefix == COLON_PREFIX
    requires forall i :: 0 <= i < |pre| ==> pre[i] != 's'
    requires forall i :: 0 <= i < |latency| ==> latency[i] != ' ' && latency[i] != '\n'
    requires |utility| >= 1 && NumChars(utility)
    requires !HasInfix(pre + prefix + SubSlaText(level, latency, utility)[1..] + post, Other(prefix))
    ensures LineUtilities(pre + prefix + SubSlaText(level, latency, utility)[1..] + post) == Found(Some(utility))
  {
    GainedLineFacts(pre, prefix, level, latency, utility, post);
    GainedAt(pre + prefix + SubSlaText(level, latency, utility)[1..] + post, prefix, |pre|,
      |Decimal(level)| + |latency| + 9, utility);
  }

  /** A line where only one of the two patterns matches yields that pattern's value alone. */
  lemma SingleGroupUtility(line: string, prefix: string, g: string)
    requires prefix == EQ_PREFIX || prefix == COLON_PREFIX
    requires NumChars(g) && Group(line, prefix) == Some(g)
    requires Group(line, Other(prefix)).None?
    ensures LineUtilities(line) == Found(Some(g))
  {
    if Found(Some(g)).Ok? {
      assert Found(Some(g)).value + [] == Found(Some(g)).value;
      assert [] + Found(Some(g)).value == Found(Some(g)).value;
    }
  }

  /** "1.2.3" in place of a utility makes float() raise, which ends the whole script. */
  lemma TwoDotsUtilityCrash()
    ensures Found(Some("1.2.3")) == Err("1.2.3")
  {
    TwoDotsRejected("1.2.3", 1, 3);
  }
}
