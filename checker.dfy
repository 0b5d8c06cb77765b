/** `RuleChecker`: the reachability self-check run over the generated rule
    files. What is modelled is the part that does not touch the network:
    pulling domains out of a file's text, choosing the sample to probe,
    turning two probe outcomes into a status, and counting the statuses.
    The probes themselves are a parameter. */
module RuleChecker {
  import opened Strings
  import opened Seqs
  import opened Optional
  import opened Settings

  // ---------------------------------------------------------------------
  // Extracting domains

  /** A stripped line that carries no domain: empty, a `!` or `#` comment,
      or a line starting with `/`. */
  predicate IsSkipped(line: string) {
    |line| == 0 || StartsWith(line, "!") || StartsWith(line, "#") || StartsWith(line, "/")
  }

  /** A candidate is kept only when it is non-empty and contains a dot. */
  function Candidate(d: string): (r: Option<string>)
    ensures r.Some? <==> |d| > 0 && '.' in d
    ensures r.Some? ==> r.value == d
  {
    if |d| > 0 && '.' in d then Some(d) else None
  }

  /** The domain one line of a rule file contributes, if any. The tests
      are tried in order: adblock `||domain^`, then a hosts line, then a
      bare domain with an optional `#` comment. */
  function LineDomain(raw: string): (r: Option<string>)
    ensures r.Some? ==> |r.value| > 0 && '.' in r.value
  {
    var line := Strip(raw);
    if IsSkipped(line) then None
    else if StartsWith(line, "||") && '^' in line then Candidate(Strip(Split(line[2..], '^')[0]))
    else if StartsWith(line, "0.0.0.0") || StartsWith(line, "127.0.0.1") then HostsCandidate(line)
    else if '.' in line && ' ' !in line && !StartsWith(line, "|") && !StartsWith(line, "/") && !StartsWith(line, "*") then
      Candidate(Strip(Split(line, '#')[0]))
    else None
  }

  /** `parts = line.split()`: the stripped second field, if there is one. */
  function HostsCandidate(line: string): Option<string> {
    var parts := Tokens(line);
    if |parts| >= 2 then Candidate(Strip(parts[1])) else None
  }

  /** A line that is empty after stripping or starts with `!`, `#` or `/`
      yields nothing, whatever follows. */
  lemma SkippedLineYieldsNothing(raw: string)
    requires IsSkipped(Strip(raw))
    ensures LineDomain(raw).None?
  {
  }

  /** An adblock line is decided by its own branch: it yields the stripped
      text between `||` and the first `^` when that is a candidate, and
      nothing otherwise, never a domain found by the later tests. */
  lemma AdblockLineDomain(raw: string)
    requires var line := Strip(raw); !IsSkipped(line) && StartsWith(line, "||") && '^' in line
    ensures var line := Strip(raw);
      exists j :: 2 <= j < |line| && line[j] == '^' && '^' !in line[2..j] && LineDomain(raw) == Candidate(Strip(line[2..j]))
    ensures var r := LineDomain(raw); r.Some? ==> '^' !in r.value && forall c :: c in r.value ==> c in Strip(raw)
  {
    var line := Strip(raw);
    var head := Split(line[2..], '^')[0];
    CaretAfterBars(line);
    var j := 2 + |head|;
    assert line[2..j] == head;
    StripKeepsChars(head);
    SliceKeepsElements(line, 2, j);
  }

  /** In a line starting with `||` that has a `^`, the first piece after
      the bars ends at a `^`. */
  lemma CaretAfterBars(line: string)
    requires StartsWith(line, "||") && '^' in line
    ensures var head := Split(line[2..], '^')[0];
      2 + |head| < |line| && line[2 + |head|] == '^' && line[2..2 + |head|] == head && '^' !in head
  {
    var tail := line[2..];
    FirstPiece(tail, '^');
    var i :| 0 <= i < |line| && line[i] == '^';
    assert line[..2] == "||";
    assert i >= 2 && tail[i - 2] == '^';
  }

  /** A hosts line yields its second field, which holds no whitespace. */
  lemma HostsLineDomain(raw: string)
    requires var line := Strip(raw);
      !IsSkipped(line) && !(StartsWith(line, "||") && '^' in line)
      && (StartsWith(line, "0.0.0.0") || StartsWith(line, "127.0.0.1"))
    ensures var r := LineDomain(raw); r.Some? ==> r.value == Tokens(Strip(raw))[1]
    ensures var r := LineDomain(raw); r.Some? ==> forall k :: 0 <= k < |r.value| ==> !IsSpace(r.value[k])
  {
    var parts := Tokens(Strip(raw));
    assert LineDomain(raw) == HostsCandidate(Strip(raw));
    if |parts| >= 2 {
      StripOfWord(parts[1]);
    }
  }

  /** Stripping a string without whitespace leaves it as it is. */
  lemma StripOfWord(s: string)
    requires forall k :: 0 <= k < |s| ==> !IsSpace(s[k])
    ensures Strip(s) == s
  {
    var i, j :| 0 <= i <= j <= |s| && Strip(s) == s[i..j]
      && (forall k :: 0 <= k < i ==> IsSpace(s[k])) && (forall k :: j <= k < |s| ==> IsSpace(s[k]));
    if |s| > 0 {
      assert !IsSpace(s[0]) && !IsSpace(s[|s| - 1]);
    }
  }

  /** A line of no other shape yields the stripped text before its first
      `#`, when the line has a dot, no space and no leading `|`, `/` or `*`
      and that text is a candidate; the text holds neither `#` nor a
      space. */
  lemma PlainLineDomain(raw: string)
    requires var line := Strip(raw);
      !IsSkipped(line) && !(StartsWith(line, "||") && '^' in line)
      && !(StartsWith(line, "0.0.0.0") || StartsWith(line, "127.0.0.1"))
    ensures var line := Strip(raw);
      exists j :: 0 <= j <= |line| && '#' !in line[..j] && (j < |line| ==> line[j] == '#')
        && LineDomain(raw) == (if '.' in line && ' ' !in line && !StartsWith(line, "|") && !StartsWith(line, "/") && !StartsWith(line, "*")
                               then Candidate(Strip(line[..j])) else None)
    ensures var r := LineDomain(raw); r.Some? ==>
      var line := Strip(raw);
      '.' in line && ' ' !in line && !StartsWith(line, "|") && !StartsWith(line, "*")
      && '#' !in r.value && ' ' !in r.value
  {
    var line := Strip(raw);
    var head := Split(line, '#')[0];
    FirstPiece(line, '#');
    var j := |head|;
    assert line[..j] == head;
    StripKeepsChars(head);
  }

  /** The set of values `f` yields on the lines. */
  function Collected(lines: seq<string>, f: string -> Option<string>): set<string> {
    if |lines| == 0 then {}
    else
      var found := Collected(lines[..|lines| - 1], f);
      match f(lines[|lines| - 1])
      case Some(d) => found + {d}
      case None => found
  }

  /** One more line adds what it yields. */
  lemma CollectedSnoc(lines: seq<string>, i: nat, f: string -> Option<string>)
    requires i < |lines|
    ensures Collected(lines[..i + 1], f) == Collected(lines[..i], f) + (if f(lines[i]).Some? then {f(lines[i]).value} else {})
  {
    assert lines[..i + 1][..i] == lines[..i];
  }

  /** A value is collected exactly when some line yields it. */
  lemma {:induction false} CollectedIff(lines: seq<string>, f: string -> Option<string>, d: string)
    ensures d in Collected(lines, f) <==> exists k :: 0 <= k < |lines| && f(lines[k]) == Some(d)
    decreases |lines|
  {
    if |lines| > 0 {
      var init := lines[..|lines| - 1];
      CollectedIff(init, f, d);
      if exists k :: 0 <= k < |init| && f(init[k]) == Some(d) {
        var k :| 0 <= k < |init| && f(init[k]) == Some(d);
        assert lines[k] == init[k];
      }
      if exists k :: 0 <= k < |lines| && f(lines[k]) == Some(d) {
        var k :| 0 <= k < |lines| && f(lines[k]) == Some(d);
        if k < |init| {
          assert init[k] == lines[k];
        }
      }
    }
  }

  /** The domains of a file's text: those its lines yield. */
  function DomainsOf(content: string): set<string> {
    Collected(Split(content, '\n'), LineDomain)
  }

  /** A domain is collected exactly when some line of the text yields it,
      and every collected domain contains a dot. */
  lemma DomainsOfIff(content: string, d: string)
    ensures var lines := Split(content, '\n');
      d in DomainsOf(content) <==> exists k :: 0 <= k < |lines| && LineDomain(lines[k]) == Some(d)
    ensures d in DomainsOf(content) ==> |d| > 0 && '.' in d
  {
    var lines := Split(content, '\n');
    CollectedIff(lines, LineDomain, d);
    if d in DomainsOf(content) {
      var k :| 0 <= k < |lines| && LineDomain(lines[k]) == Some(d);
    }
  }

  /** `list(domains)`: the elements of a set, each once, in an order the
      model leaves open. */
  method ListOf(s: set<string>) returns (xs: seq<string>)
    ensures NoDuplicates(xs) && |xs| == |s|
    ensures forall x :: x in xs <==> x in s
  {
    xs := [];
    var rest := s;
    while rest != {}
      invariant rest <= s
      invariant forall x :: x in xs <==> x in s && x !in rest
      invariant NoDuplicates(xs) && |xs| + |rest| == |s|
      decreases |rest|
    {
      var x :| x in rest;
      xs := xs + [x];
      rest := rest - {x};
    }
  }

  /** The line loop of `extract_domains_from_file`, over the text of the
      file. */
  method ExtractDomains(content: string) returns (domains: seq<string>)
    ensures NoDuplicates(domains)
    ensures |domains| == |DomainsOf(content)|
    ensures forall d :: d in domains <==> d in DomainsOf(content)
    ensures forall k :: 0 <= k < |domains| ==> '.' in domains[k]
  {
    var lines := Split(content, '\n');
    var found: set<string> := {};
    var i := 0;
    while i < |lines|
      invariant 0 <= i <= |lines|
      invariant found == Collected(lines[..i], LineDomain)
    {
      CollectedSnoc(lines, i, LineDomain);
      var d := LineDomain(lines[i]);
      if d.Some? {
        found := found + {d.value};
      }
      i := i + 1;
    }
    assert lines[..|lines|] == lines;
    domains := ListOf(found);
    forall k | 0 <= k < |domains| ensures '.' in domains[k] {
      DomainsOfIff(content, domains[k]);
    }
  }

  // ---------------------------------------------------------------------
  // Sampling

  function Min(a: int, b: int): int { if a <= b then a else b }

  function Max(a: int, b: int): int { if a >= b then a else b }

  /** How many domains `sample_domains` picks from `total`: the configured
      percentage, rounded down, clamped to the maximum and then raised to
      the minimum. */
  function SampleSize(cfg: Config, total: nat): (n: nat)
    ensures n >= cfg.ruleCheckMinSample
    ensures n == cfg.ruleCheckMinSample || (n <= cfg.ruleCheckMaxSample && n * 100 <= total * cfg.ruleCheckSamplePercent)
  {
    Max(cfg.ruleCheckMinSample, Min(cfg.ruleCheckMaxSample, total * cfg.ruleCheckSamplePercent / 100))
  }

  /** A larger file never gets a smaller sample. */
  lemma SampleSizeMonotone(cfg: Config, t1: nat, t2: nat)
    requires t1 <= t2
    ensures SampleSize(cfg, t1) <= SampleSize(cfg, t2)
  {
    var p := cfg.ruleCheckSamplePercent;
    assert t1 * p <= t2 * p by {
      MultiplyMonotone(t1, t2, p);
    }
    DivideMonotone(t1 * p, t2 * p, 100);
  }

  lemma MultiplyMonotone(a: nat, b: nat, c: nat)
    requires a <= b
    ensures a * c <= b * c
  {
  }

  lemma DivideMonotone(a: nat, b: nat, d: nat)
    requires a <= b && d > 0
    ensures a / d <= b / d
  {
    var qa, qb := a / d, b / d;
    assert d * qa <= a;
    assert b < d * qb + d;
    if qa > qb {
      MultiplyMonotone(qb + 1, qa, d);
      assert false;
    }
  }

  /** `sample_domains`: nothing for no domains, all of them when there are
      no more than the sample size, and otherwise that many domains drawn
      from distinct positions. `picks` are the positions drawn; the random
      draw is a choice the model leaves open. */
  method SampleDomains(cfg: Config, domains: seq<string>) returns (sample: seq<string>, picks: seq<nat>)
    ensures |domains| == 0 ==> sample == []
    ensures |domains| <= SampleSize(cfg, |domains|) ==> sample == domains
    ensures |domains| > SampleSize(cfg, |domains|) ==>
      |sample| == SampleSize(cfg, |domains|) && |picks| == |sample| && NoDuplicates(picks)
      && forall k :: 0 <= k < |picks| ==> picks[k] < |domains| && sample[k] == domains[picks[k]]
    ensures forall k :: 0 <= k < |sample| ==> sample[k] in domains
    ensures |sample| == Min(|domains|, SampleSize(cfg, |domains|))
    ensures NoDuplicates(domains) ==> NoDuplicates(sample)
  {
    if |domains| == 0 {
      return [], [];
    }
    var n := SampleSize(cfg, |domains|);
    if |domains| <= n {
      return domains, [];
    }
    var unpicked: seq<nat> := seq(|domains|, i => i);
    sample := [];
    picks := [];
    while |sample| < n
      invariant |picks| == |sample| <= n
      invariant |unpicked| == |domains| - |picks|
      invariant NoDuplicates(picks) && NoDuplicates(unpicked)
      invariant forall k :: 0 <= k < |unpicked| ==> unpicked[k] < |domains| && unpicked[k] !in picks
      invariant forall k :: 0 <= k < |picks| ==> picks[k] < |domains| && sample[k] == domains[picks[k]]
      decreases n - |sample|
    {
      var j :| 0 <= j < |unpicked|;
      var i := unpicked[j];
      sample := sample + [domains[i]];
      picks := picks + [i];
      unpicked := unpicked[..j] + unpicked[j + 1..];
    }
    if NoDuplicates(domains) {
      SampleDistinct(domains, sample, picks);
    }
  }

  /** Two samples are distinct domains when the domains are. */
  lemma SampleDistinct(domains: seq<string>, sample: seq<string>, picks: seq<nat>)
    requires NoDuplicates(domains) && NoDuplicates(picks) && |picks| == |sample|
    requires forall k :: 0 <= k < |picks| ==> picks[k] < |domains| && sample[k] == domains[picks[k]]
    ensures NoDuplicates(sample)
  {
  }

  // ---------------------------------------------------------------------
  // Status and counts

  /** What the probes of one domain report: whether the name resolved and
      whether port 80 accepted a connection, or that the check raised. */
  datatype Probe = Probe(dnsResolved: bool, tcpConnects: bool) | Raised

  datatype Status = Reachable | Unreachable | Failed

  datatype CheckResult = CheckResult(domain: string, status: Status, dnsResolved: bool, tcpReachable: bool)

  /** `check_domain_reachability`, with the network replaced by `probe`.
      The connection is only tried after a successful lookup. */
  function CheckDomain(domain: string, probe: Probe): (r: CheckResult)
    ensures r.domain == domain
    ensures r.tcpReachable ==> r.dnsResolved
    ensures r.status == Failed <==> probe.Raised?
  {
    match probe
    case Raised => CheckResult(domain, Failed, false, false)
    case Probe(dns, connects) =>
      var tcpReachable := dns && connects;
      CheckResult(domain, if dns || tcpReachable then Reachable else Unreachable, dns, tcpReachable)
  }

  /** The TCP probe never changes the verdict: a domain is reachable
      exactly when its name resolved. */
  lemma ReachableIffResolved(domain: string, probe: Probe)
    ensures CheckDomain(domain, probe).status == Reachable <==> probe.Probe? && probe.dnsResolved
  {
  }

  predicate IsReachable(r: CheckResult) { r.status == Reachable }

  predicate IsUnreachable(r: CheckResult) { r.status == Unreachable }

  /** The counts `check_rules_file` reports for one file. */
  datatype FileSummary = FileSummary(totalDomains: nat, checkedDomains: nat, reachable: nat, unreachable: nat)

  function Summarize(total: nat, results: seq<CheckResult>): (s: FileSummary)
    ensures s.totalDomains == total && s.checkedDomains == |results|
    ensures s.reachable + s.unreachable <= s.checkedDomains
  {
    FilterDisjointCount(results, IsReachable, IsUnreachable);
    FileSummary(total, |results|, |Filter(results, IsReachable)|, |Filter(results, IsUnreachable)|)
  }

  /** Every result that did not raise is counted once. */
  lemma {:induction false} CountsCoverProbed(results: seq<CheckResult>)
    requires forall k :: 0 <= k < |results| ==> results[k].status != Failed
    ensures |Filter(results, IsReachable)| + |Filter(results, IsUnreachable)| == |results|
    decreases |results|
  {
    if |results| > 0 {
      CountsCoverProbed(results[..|results| - 1]);
    }
  }

  /** The probes of the sampled domains, one result per domain. */
  method ProbeAll(sampled: seq<string>, probe: string -> Probe) returns (results: seq<CheckResult>)
    ensures |results| == |sampled|
    ensures forall k :: 0 <= k < |sampled| ==> results[k] == CheckDomain(sampled[k], probe(sampled[k]))
  {
    results := [];
    for k := 0 to |sampled|
      invariant |results| == k
      invariant forall j :: 0 <= j < k ==> results[j] == CheckDomain(sampled[j], probe(sampled[j]))
    {
      results := results + [CheckDomain(sampled[k], probe(sampled[k]))];
    }
  }

  /** The domains whose lookup succeeded, and those that were probed
      without raising but did not resolve. */
  function Resolved(probe: string -> Probe): string -> bool {
    d => probe(d).Probe? && probe(d).dnsResolved
  }

  function Unresolved(probe: string -> Probe): string -> bool {
    d => probe(d).Probe? && !probe(d).dnsResolved
  }

  /** The reachable results are exactly the sampled domains that resolved,
      and the unreachable ones those that were probed and did not. */
  lemma {:induction false} ProbedCounts(sampled: seq<string>, probe: string -> Probe, results: seq<CheckResult>)
    requires |results| == |sampled|
    requires forall k :: 0 <= k < |sampled| ==> results[k] == CheckDomain(sampled[k], probe(sampled[k]))
    ensures |Filter(results, IsReachable)| == |Filter(sampled, Resolved(probe))|
    ensures |Filter(results, IsUnreachable)| == |Filter(sampled, Unresolved(probe))|
    decreases |sampled|
  {
    var n := |sampled|;
    if n > 0 {
      ProbedCounts(sampled[..n - 1], probe, results[..n - 1]);
      var r := results[n - 1];
      assert IsReachable(r) <==> Resolved(probe)(sampled[n - 1]);
      assert IsUnreachable(r) <==> Unresolved(probe)(sampled[n - 1]);
    }
  }

  /** A sample `check_rules_file` may probe: distinct domains of the file,
      as many as the sample size allows. */
  ghost predicate IsSampleOf(cfg: Config, content: string, sampled: seq<string>) {
    && NoDuplicates(sampled)
    && (forall k :: 0 <= k < |sampled| ==> sampled[k] in DomainsOf(content))
    && |sampled| == Min(|DomainsOf(content)|, SampleSize(cfg, |DomainsOf(content)|))
  }

  /** `s` is what `check_rules_file` reports for `content`: the number of
      distinct domains, the size of some sample of them, and how many of
      the sampled domains did and did not resolve. */
  ghost predicate FileChecked(cfg: Config, content: string, probe: string -> Probe, s: FileSummary) {
    exists sampled :: IsSampleOf(cfg, content, sampled)
      && s == FileSummary(|DomainsOf(content)|, |sampled|, |Filter(sampled, Resolved(probe))|, |Filter(sampled, Unresolved(probe))|)
  }

  /** `check_rules_file` over the text of one file, with the network
      replaced by `probe`. `sampled` is the sample it probed. */
  method CheckRulesFile(cfg: Config, content: string, probe: string -> Probe) returns (summary: FileSummary, ghost sampled: seq<string>)
    ensures IsSampleOf(cfg, content, sampled)
    ensures summary.totalDomains == |DomainsOf(content)|
    ensures summary.checkedDomains == |sampled| == Min(summary.totalDomains, SampleSize(cfg, summary.totalDomains))
    ensures summary.reachable == |Filter(sampled, Resolved(probe))|
    ensures summary.unreachable == |Filter(sampled, Unresolved(probe))|
    ensures FileChecked(cfg, content, probe, summary)
    ensures summary.reachable + summary.unreachable <= summary.checkedDomains
    ensures summary.checkedDomains <= summary.totalDomains
    ensures (forall d :: d in DomainsOf(content) ==> probe(d).Probe?) ==>
      summary.reachable + summary.unreachable == summary.checkedDomains
  {
    var domains := ExtractDomains(content);
    if |domains| == 0 {
      sampled := [];
      return FileSummary(0, 0, 0, 0), sampled;
    }
    var sample, picks := SampleDomains(cfg, domains);
    forall k | 0 <= k < |sample| ensures sample[k] in DomainsOf(content) {
      assert sample[k] in domains;
    }
    sampled := sample;
    var results := ProbeAll(sample, probe);
    summary := Summarize(|domains|, results);
    ProbedCounts(sample, probe, results);
    if forall d :: d in DomainsOf(content) ==> probe(d).Probe? {
      forall k | 0 <= k < |results| ensures results[k].status != Failed {
        assert sample[k] in domains;
      }
      CountsCoverProbed(results);
    }
  }

  // ---------------------------------------------------------------------
  // Running the checks

  /** The running totals `run_checks` keeps across files. `recorded` is
      the ghost list of the summaries added so far; each total is the sum
      of its field over that list. */
  class CheckStats {
    var totalChecked: nat
    var reachable: nat
    var unreachable: nat
    ghost var recorded: seq<FileSummary>

    ghost predicate Valid()
      reads this
    {
      && reachable + unreachable <= totalChecked
      && totalChecked == SumChecked(recorded)
      && reachable == SumReachable(recorded)
      && unreachable == SumUnreachable(recorded)
    }

    constructor ()
      ensures Valid()
      ensures totalChecked == 0 && reachable == 0 && unreachable == 0
      ensures recorded == []
    {
      totalChecked := 0;
      reachable := 0;
      unreachable := 0;
      recorded := [];
    }

    /** Adds the counts of one checked file. */
    method Record(s: FileSummary)
      requires Valid() && s.reachable + s.unreachable <= s.checkedDomains
      modifies this
      ensures Valid()
      ensures recorded == old(recorded) + [s]
      ensures totalChecked == old(totalChecked) + s.checkedDomains
      ensures reachable == old(reachable) + s.reachable
      ensures unreachable == old(unreachable) + s.unreachable
    {
      SumsSnoc(recorded, s);
      totalChecked := totalChecked + s.checkedDomains;
      reachable := reachable + s.reachable;
      unreachable := unreachable + s.unreachable;
      recorded := recorded + [s];
    }
  }

  function SumChecked(summaries: seq<FileSummary>): nat {
    if |summaries| == 0 then 0 else SumChecked(summaries[..|summaries| - 1]) + summaries[|summaries| - 1].checkedDomains
  }

  function SumReachable(summaries: seq<FileSummary>): nat {
    if |summaries| == 0 then 0 else SumReachable(summaries[..|summaries| - 1]) + summaries[|summaries| - 1].reachable
  }

  function SumUnreachable(summaries: seq<FileSummary>): nat {
    if |summaries| == 0 then 0 else SumUnreachable(summaries[..|summaries| - 1]) + summaries[|summaries| - 1].unreachable
  }

  /** One more file adds its counts to the three sums. */
  lemma SumsSnoc(summaries: seq<FileSummary>, s: FileSummary)
    ensures SumChecked(summaries + [s]) == SumChecked(summaries) + s.checkedDomains
    ensures SumReachable(summaries + [s]) == SumReachable(summaries) + s.reachable
    ensures SumUnreachable(summaries + [s]) == SumUnreachable(summaries) + s.unreachable
  {
    assert (summaries + [s])[..|summaries|] == summaries;
  }

  /** One iteration of the loop in `run_checks`: check one file and add its
      counts to the totals. */
  method CheckFile(cfg: Config, content: string, probe: string -> Probe, stats: CheckStats) returns (s: FileSummary)
    requires stats.Valid()
    modifies stats
    ensures stats.Valid()
    ensures FileChecked(cfg, content, probe, s)
    ensures stats.recorded == old(stats.recorded) + [s]
  {
    ghost var sampled;
    s, sampled := CheckRulesFile(cfg, content, probe);
    stats.Record(s);
  }

  /** A summary for the next file keeps every summary matched with its
      file. */
  lemma TotalsExtend(cfg: Config, files: seq<string>, probe: string -> Probe, summaries: seq<FileSummary>, s: FileSummary)
    requires |summaries| < |files|
    requires forall k :: 0 <= k < |summaries| ==> FileChecked(cfg, files[k], probe, summaries[k])
    requires FileChecked(cfg, files[|summaries|], probe, s)
    ensures forall k :: 0 <= k < |summaries| + 1 ==> FileChecked(cfg, files[k], probe, (summaries + [s])[k])
  {
  }

  /** The per-file loop of `run_checks` over the texts of the rule files:
      it reports failure when there is no file, and otherwise one summary
      per file and totals that add them up. */
  method RunChecks(cfg: Config, files: seq<string>, probe: string -> Probe)
    returns (ok: bool, summaries: seq<FileSummary>, stats: CheckStats)
    ensures fresh(stats) && stats.Valid()
    ensures ok <==> |files| > 0
    ensures |summaries| == |files|
    ensures forall k :: 0 <= k < |files| ==> FileChecked(cfg, files[k], probe, summaries[k])
    ensures stats.totalChecked == SumChecked(summaries)
    ensures stats.reachable == SumReachable(summaries)
    ensures stats.unreachable == SumUnreachable(summaries)
  {
    stats := new CheckStats();
    summaries := [];
    if |files| == 0 {
      return false, summaries, stats;
    }
    for i := 0 to |files|
      invariant stats.Valid() && stats.recorded == summaries && |summaries| == i
      invariant forall k :: 0 <= k < i ==> FileChecked(cfg, files[k], probe, summaries[k])
    {
      var s := CheckFile(cfg, files[i], probe, stats);
      TotalsExtend(cfg, files, probe, summaries, s);
      summaries := summaries + [s];
    }
    ok := true;
  }
}
