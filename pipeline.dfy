/** `SmartRuleProcessor`: the processor object that holds every parsed rule
    and the final list, and runs the stages in order. Downloading, the
    timeout guards, saving the files and the reports are not part of this
    model; the downloaded texts arrive as a parameter. */
module Pipeline {
  import opened Strings
  import opened Seqs
  import opened Optional
  import opened Settings
  import opened RuleParser
  import Deduplicator
  import Optimizer
  import SecondaryOptimizer

  /** Appending what the parser produces keeps every collected rule well
      formed. */
  lemma AppendParsedValid(cfg: Config, rules: seq<string>, contents: seq<string>)
    requires forall k :: 0 <= k < |rules| ==> WellFormedRule(cfg, rules[k])
    ensures var all := rules + ParsedRules(cfg, contents);
      forall k :: 0 <= k < |all| ==> WellFormedRule(cfg, all[k])
  {
    ParsedRulesWellFormed(cfg, contents);
    var all := rules + ParsedRules(cfg, contents);
    forall k | 0 <= k < |all| ensures WellFormedRule(cfg, all[k]) {
      if k >= |rules| {
        assert all[k] == ParsedRules(cfg, contents)[k - |rules|];
      }
    }
  }

  /** What each stage promises about its output, chained: a final rule is
      a collected rule, hence well formed, and passed the optimiser's
      quality and kind tests. */
  lemma StagesCompose(cfg: Config, all: seq<string>, deduplicated: seq<string>, optimized: seq<string>, final: seq<string>)
    requires forall k :: 0 <= k < |all| ==> WellFormedRule(cfg, all[k])
    requires forall k :: 0 <= k < |deduplicated| ==> deduplicated[k] in all
    requires forall k :: 0 <= k < |optimized| ==>
      optimized[k] in deduplicated && !Optimizer.IsLowQuality(optimized[k]) && Optimizer.KindOf(optimized[k]) != Optimizer.Unclassified
    requires forall k :: 0 <= k < |final| ==> final[k] in optimized
    ensures forall k :: 0 <= k < |final| ==>
      final[k] in all && WellFormedRule(cfg, final[k])
      && !Optimizer.IsLowQuality(final[k]) && Optimizer.KindOf(final[k]) != Optimizer.Unclassified
  {
    forall k | 0 <= k < |final|
      ensures final[k] in all && WellFormedRule(cfg, final[k])
      && !Optimizer.IsLowQuality(final[k]) && Optimizer.KindOf(final[k]) != Optimizer.Unclassified
    {
      var j :| 0 <= j < |optimized| && optimized[j] == final[k];
      var m :| 0 <= m < |deduplicated| && deduplicated[m] == optimized[j];
      var n :| 0 <= n < |all| && all[n] == deduplicated[m];
    }
  }

  class SmartRuleProcessor {
    const cfg: Config
    var allRules: seq<string>
    var finalRules: seq<string>

    /** Every rule collected so far is one the parser accepts. */
    ghost predicate Valid()
      reads this
    {
      forall k :: 0 <= k < |allRules| ==> WellFormedRule(cfg, allRules[k])
    }

    constructor (cfg: Config)
      ensures Valid()
      ensures this.cfg == cfg
      ensures allRules == [] && finalRules == []
    {
      this.cfg := cfg;
      allRules := [];
      finalRules := [];
    }

    /** `_parse_contents`: every text is cut at line feeds and each line
        that parses is appended to `allRules`, texts in the given order. */
    method ParseContents(contents: seq<string>)
      requires Valid()
      modifies this
      ensures Valid()
      ensures allRules == old(allRules) + ParsedRules(cfg, contents)
      ensures finalRules == old(finalRules)
    {
      for i := 0 to |contents|
        invariant allRules == old(allRules) + ParsedRules(cfg, contents[..i])
        invariant finalRules == old(finalRules)
      {
        ParsedRulesSnoc(cfg, contents, i);
        var lines := Split(contents[i], '\n');
        ParseLines(lines);
        ConcatAssociative(old(allRules), ParsedRules(cfg, contents[..i]), ParsedLines(cfg, lines));
      }
      assert contents[..|contents|] == contents;
      AppendParsedValid(cfg, old(allRules), contents);
    }

    /** The inner loop of `_parse_contents`, over the lines of one text. */
    method ParseLines(lines: seq<string>)
      modifies this
      ensures allRules == old(allRules) + ParsedLines(cfg, lines)
      ensures finalRules == old(finalRules)
    {
      ghost var before := allRules;
      for j := 0 to |lines|
        invariant allRules == before + ParsedLines(cfg, lines[..j])
        invariant finalRules == old(finalRules)
      {
        var parsed := ParseLine(cfg, lines[j]);
        ParsedLinesSnoc(cfg, lines, j, parsed);
        if parsed.Some? {
          allRules := allRules + [parsed.value];
        }
      }
      assert lines[..|lines|] == lines;
    }

    /** `process` from the parse stage on: parse, deduplicate, optimise,
        then run the secondary pass, and keep the result in `finalRules`.
        Every final rule is a parsed, well-formed rule of a known kind and
        of acceptable quality; the total cap holds; and with exact-string
        deduplication on there are no repeats. */
    method Process(contents: seq<string>)
      requires Valid()
      modifies this
      ensures Valid()
      ensures allRules == old(allRules) + ParsedRules(cfg, contents)
      ensures StagesOutcome(cfg, allRules, finalRules)
      ensures forall k :: 0 <= k < |finalRules| ==>
        finalRules[k] in allRules && WellFormedRule(cfg, finalRules[k])
        && !Optimizer.IsLowQuality(finalRules[k]) && Optimizer.KindOf(finalRules[k]) != Optimizer.Unclassified
      ensures 0 <= cfg.maxTotalRules ==> |finalRules| <= cfg.maxTotalRules
      ensures cfg.hashDedupEnabled ==> NoDuplicates(finalRules)
    {
      ParseContents(contents);
      finalRules := RunStages(cfg, allRules);
    }
  }

  /** `final` is what the three stages make of `all`: the secondary pass
      of the optimised list of some outcome of deduplication (the
      subdomain stage leaves the order of its kept rules open). */
  ghost predicate StagesOutcome(cfg: Config, all: seq<string>, final: seq<string>) {
    exists deduplicated :: Deduplicator.DedupOutcome(cfg, all, deduplicated)
      && final == SecondaryOptimizer.SecondaryOptimized(cfg, Optimizer.Optimized(cfg, deduplicated))
  }

  /** The stages `process` runs on the collected rules, in order:
      deduplication, optimisation, the secondary pass. */
  method RunStages(cfg: Config, all: seq<string>) returns (final: seq<string>)
    requires forall k :: 0 <= k < |all| ==> WellFormedRule(cfg, all[k])
    ensures StagesOutcome(cfg, all, final)
    ensures forall k :: 0 <= k < |final| ==>
      final[k] in all && WellFormedRule(cfg, final[k])
      && !Optimizer.IsLowQuality(final[k]) && Optimizer.KindOf(final[k]) != Optimizer.Unclassified
    ensures 0 <= cfg.maxTotalRules ==> |final| <= cfg.maxTotalRules
    ensures cfg.hashDedupEnabled ==> NoDuplicates(final)
  {
    var deduplicated := Deduplicator.Deduplicate(cfg, all);
    assert forall k :: 0 <= k < |deduplicated| ==> deduplicated[k] in all;
    var optimized := Optimizer.Optimize(cfg, deduplicated);
    final := SecondaryOptimizer.Optimize(cfg, optimized);
    SecondaryOptimizer.SecondaryOptimizedProperties(cfg, optimized);
    StagesCompose(cfg, all, deduplicated, optimized, final);
  }
}
