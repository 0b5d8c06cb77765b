/** `AdvancedRuleOptimizer`: drops rules below the priority threshold, rules
    that fail validation and low-quality rules, then sorts the rest into
    adblock, hosts and domain buckets, caps each bucket and the total, and
    optionally sorts the result. The statistics are not modelled. */
module Optimizer {
  import opened Strings
  import opened Seqs
  import opened Settings
  import opened RuleShapes
  import opened RuleParser

  // ---------------------------------------------------------------------
  // The three filters

  /** The test `_filter_by_priority` applies. */
  function HighPriority(cfg: Config): string -> bool {
    rule => cfg.priorityScore(rule) >= cfg.minRulePriority
  }

  /** The rules whose configured score reaches the minimum priority. */
  function Prioritized(cfg: Config, rules: seq<string>): seq<string> {
    Filter(rules, HighPriority(cfg))
  }

  /** `_filter_by_priority`. */
  method FilterByPriority(cfg: Config, rules: seq<string>) returns (filtered: seq<string>)
    ensures filtered == Prioritized(cfg, rules)
    ensures forall k :: 0 <= k < |filtered| ==> cfg.priorityScore(filtered[k]) >= cfg.minRulePriority
  {
    filtered := [];
    var i := 0;
    while i < |rules|
      invariant 0 <= i <= |rules|
      invariant filtered == Prioritized(cfg, rules[..i])
    {
      assert rules[..i + 1][..i] == rules[..i];
      var score := cfg.priorityScore(rules[i]);
      if score >= cfg.minRulePriority {
        filtered := filtered + [rules[i]];
      }
      i := i + 1;
    }
    assert rules[..|rules|] == rules;
  }

  function ValidUnder(cfg: Config): string -> bool {
    rule => IsValidRule(cfg, rule)
  }

  /** The rules `is_valid_rule` accepts. */
  function Validated(cfg: Config, rules: seq<string>): seq<string> {
    Filter(rules, ValidUnder(cfg))
  }

  /** `_validate_rules`. */
  method ValidateRules(cfg: Config, rules: seq<string>) returns (valid: seq<string>)
    ensures valid == Validated(cfg, rules)
    ensures forall k :: 0 <= k < |valid| ==> IsValidRule(cfg, valid[k])
  {
    valid := [];
    var i := 0;
    while i < |rules|
      invariant 0 <= i <= |rules|
      invariant valid == Validated(cfg, rules[..i])
    {
      assert rules[..i + 1][..i] == rules[..i];
      if IsValidRule(cfg, rules[i]) {
        valid := valid + [rules[i]];
      }
      i := i + 1;
    }
    assert rules[..|rules|] == rules;
  }

  /** The characters `_is_low_quality` counts. */
  const SpecialChars: string := "*^|#!"

  /** `_is_low_quality`: shorter than 3 or longer than 500 characters, more
      than five special characters, or an adblock `||domain^` rule whose
      domain has more than five labels. */
  predicate IsLowQuality(rule: string) {
    if |rule| < 3 || |rule| > 500 then true
    else if CountIn(rule, SpecialChars) > 5 then true
    else if IsAdblockDomainRule(rule) then |Split(AdblockDomainOf(rule), '.')| > 5
    else false
  }

  /** A bare domain name of reasonable length is never low quality: it holds
      none of the special characters. */
  lemma DomainRulePassesQuality(rule: string)
    requires MatchesDomainPattern(rule) && 3 <= |rule| <= 500
    ensures !IsLowQuality(rule)
  {
    DomainPatternChars(rule);
    DomainPatternShape(rule);
    forall k | 0 <= k < |rule| ensures rule[k] !in SpecialChars {
      assert DomainPatternChar(rule[k]);
    }
    CountAbsent(rule, SpecialChars);
  }

  /** The label limit on adblock rules is a limit of four dots in the
      domain. */
  lemma AdblockLabelLimit(rule: string)
    requires IsAdblockDomainRule(rule) && 3 <= |rule| <= 500 && CountIn(rule, SpecialChars) <= 5
    ensures IsLowQuality(rule) <==> Count(AdblockDomainOf(rule), '.') > 4
  {
    SplitLength(AdblockDomainOf(rule), '.');
  }

  predicate IsGoodQuality(rule: string) {
    !IsLowQuality(rule)
  }

  /** The rules that are not of low quality. */
  function QualityRules(rules: seq<string>): seq<string> {
    Filter(rules, IsGoodQuality)
  }

  /** `_filter_by_quality`. */
  method FilterByQuality(rules: seq<string>) returns (quality: seq<string>)
    ensures quality == QualityRules(rules)
    ensures forall k :: 0 <= k < |quality| ==> !IsLowQuality(quality[k])
  {
    quality := [];
    var i := 0;
    while i < |rules|
      invariant 0 <= i <= |rules|
      invariant quality == QualityRules(rules[..i])
    {
      assert rules[..i + 1][..i] == rules[..i];
      if !IsLowQuality(rules[i]) {
        quality := quality + [rules[i]];
      }
      i := i + 1;
    }
    assert rules[..|rules|] == rules;
  }

  // ---------------------------------------------------------------------
  // Buckets, caps and sorting

  datatype Kind = AdblockKind | HostsKind | DomainKind | Unclassified

  /** The bucket `_classify_and_limit` files a rule in. Unlike the hosts test
      of the other stages, the address prefix here needs no trailing space. */
  function KindOf(rule: string): Kind {
    if StartsWith(rule, "||") || HasSubstring(rule, "##") || StartsWith(rule, "|") then AdblockKind
    else if StartsWith(rule, "0.0.0.0") || StartsWith(rule, "127.0.0.1") then HostsKind
    else if MatchesDomainPattern(rule) then DomainKind
    else Unclassified
  }

  function OfKind(kind: Kind): string -> bool {
    rule => KindOf(rule) == kind
  }

  /** The rules of one kind, in their original order. */
  function Bucket(rules: seq<string>, kind: Kind): (b: seq<string>)
    ensures forall k :: 0 <= k < |b| ==> KindOf(b[k]) == kind
  {
    Filter(rules, OfKind(kind))
  }

  /** One more rule joins the bucket of its kind. */
  lemma BucketSnoc(rules: seq<string>, i: nat, kind: Kind)
    requires i < |rules|
    ensures Bucket(rules[..i + 1], kind) == Bucket(rules[..i], kind) + if KindOf(rules[i]) == kind then [rules[i]] else []
  {
    assert rules[..i + 1][..i] == rules[..i];
  }

  /** The buckets, each cut to its cap, joined and cut to the total cap. */
  function CappedRules(cfg: Config, rules: seq<string>): seq<string> {
    PyPrefix(
      PyPrefix(Bucket(rules, AdblockKind), cfg.maxAdblockRules)
      + PyPrefix(Bucket(rules, HostsKind), cfg.maxHostsRules)
      + PyPrefix(Bucket(rules, DomainKind), cfg.maxDomainRules),
      cfg.maxTotalRules)
  }

  /** Sort key for `sort(key=get_priority_score, reverse=True)`: Python's
      reversed sort is stable, which is a stable ascending sort on the
      negated score. */
  function NegatedScore(cfg: Config): string -> int {
    rule => -cfg.priorityScore(rule)
  }

  function Length(rule: string): int {
    |rule|
  }

  /** The two optional sorts, priority first, then length. */
  function Arranged(cfg: Config, rules: seq<string>): seq<string> {
    var byPriority := if cfg.sortByPriority then SortBy(rules, NegatedScore(cfg)) else rules;
    if cfg.sortByLength then SortBy(byPriority, Length) else byPriority
  }

  /** The sorts only reorder, and leave the rules ordered by the last key
      used. */
  lemma ArrangedProperties(cfg: Config, rules: seq<string>)
    ensures multiset(Arranged(cfg, rules)) == multiset(rules)
    ensures cfg.sortByLength ==> SortedBy(Arranged(cfg, rules), Length)
    ensures cfg.sortByPriority && !cfg.sortByLength ==> SortedBy(Arranged(cfg, rules), NegatedScore(cfg))
    ensures !cfg.sortByPriority && !cfg.sortByLength ==> Arranged(cfg, rules) == rules
  {
  }

  /** `_classify_and_limit`. */
  method ClassifyAndLimit(cfg: Config, rules: seq<string>) returns (result: seq<string>)
    ensures result == Arranged(cfg, CappedRules(cfg, rules))
    ensures multiset(result) == multiset(CappedRules(cfg, rules))
    ensures cfg.sortByLength ==> SortedBy(result, Length)
    ensures cfg.sortByPriority && !cfg.sortByLength ==> SortedBy(result, NegatedScore(cfg))
  {
    var adblockRules, hostsRules, domainRules := Classify(rules);
    adblockRules := PyPrefix(adblockRules, cfg.maxAdblockRules);
    hostsRules := PyPrefix(hostsRules, cfg.maxHostsRules);
    domainRules := PyPrefix(domainRules, cfg.maxDomainRules);
    result := adblockRules + hostsRules + domainRules;
    result := PyPrefix(result, cfg.maxTotalRules);
    if cfg.sortByPriority {
      result := SortBy(result, NegatedScore(cfg));
    }
    if cfg.sortByLength {
      result := SortBy(result, Length);
    }
    ArrangedProperties(cfg, CappedRules(cfg, rules));
  }

  /** The classification loop of `_classify_and_limit`: each rule goes to
      the first bucket whose test it passes, or to none. */
  method Classify(rules: seq<string>) returns (adblockRules: seq<string>, hostsRules: seq<string>, domainRules: seq<string>)
    ensures adblockRules == Bucket(rules, AdblockKind)
    ensures hostsRules == Bucket(rules, HostsKind)
    ensures domainRules == Bucket(rules, DomainKind)
  {
    adblockRules, hostsRules, domainRules := [], [], [];
    var i := 0;
    while i < |rules|
      invariant 0 <= i <= |rules|
      invariant adblockRules == Bucket(rules[..i], AdblockKind)
      invariant hostsRules == Bucket(rules[..i], HostsKind)
      invariant domainRules == Bucket(rules[..i], DomainKind)
    {
      BucketSnoc(rules, i, AdblockKind);
      BucketSnoc(rules, i, HostsKind);
      BucketSnoc(rules, i, DomainKind);
      var rule := rules[i];
      if StartsWith(rule, "||") || HasSubstring(rule, "##") || StartsWith(rule, "|") {
        adblockRules := adblockRules + [rule];
      } else if StartsWith(rule, "0.0.0.0") || StartsWith(rule, "127.0.0.1") {
        hostsRules := hostsRules + [rule];
      } else if MatchesDomainPattern(rule) {
        domainRules := domainRules + [rule];
      }
      i := i + 1;
    }
    assert rules[..|rules|] == rules;
  }

  /** Every capped rule comes from the input and has a bucket; each bucket
      and the total respect their caps. */
  lemma CappedBounds(cfg: Config, rules: seq<string>)
    ensures forall k :: 0 <= k < |CappedRules(cfg, rules)| ==>
      CappedRules(cfg, rules)[k] in rules && KindOf(CappedRules(cfg, rules)[k]) != Unclassified
    ensures 0 <= cfg.maxAdblockRules ==> |Bucket(CappedRules(cfg, rules), AdblockKind)| <= cfg.maxAdblockRules
    ensures 0 <= cfg.maxHostsRules ==> |Bucket(CappedRules(cfg, rules), HostsKind)| <= cfg.maxHostsRules
    ensures 0 <= cfg.maxDomainRules ==> |Bucket(CappedRules(cfg, rules), DomainKind)| <= cfg.maxDomainRules
    ensures 0 <= cfg.maxTotalRules ==> |CappedRules(cfg, rules)| <= cfg.maxTotalRules
  {
    var capped := CappedRules(cfg, rules);
    forall k | 0 <= k < |capped| ensures capped[k] in rules && KindOf(capped[k]) != Unclassified {
      CappedEntry(cfg, rules, k);
    }
    CappedBucketBound(cfg, rules, AdblockKind);
    CappedBucketBound(cfg, rules, HostsKind);
    CappedBucketBound(cfg, rules, DomainKind);
  }

  /** The cap `_classify_and_limit` puts on one bucket. */
  function BucketCap(cfg: Config, kind: Kind): int {
    match kind
    case AdblockKind => cfg.maxAdblockRules
    case HostsKind => cfg.maxHostsRules
    case _ => cfg.maxDomainRules
  }

  /** After capping, a bucket holds no more rules than its cap allows. */
  lemma CappedBucketBound(cfg: Config, rules: seq<string>, kind: Kind)
    requires kind != Unclassified
    ensures 0 <= BucketCap(cfg, kind) ==> |Bucket(CappedRules(cfg, rules), kind)| <= BucketCap(cfg, kind)
  {
    var a := PyPrefix(Bucket(rules, AdblockKind), cfg.maxAdblockRules);
    var h := PyPrefix(Bucket(rules, HostsKind), cfg.maxHostsRules);
    var d := PyPrefix(Bucket(rules, DomainKind), cfg.maxDomainRules);
    var joined := a + h + d;
    var capped := CappedRules(cfg, rules);
    assert capped == joined[..|capped|];
    var own := match kind case AdblockKind => a case HostsKind => h case _ => d;
    BucketOfJoined(a, h, d, kind, own);
    FilterPrefix(joined, |capped|, OfKind(kind));
  }

  /** One capped rule: drawn from the input, and of a known kind. */
  lemma CappedEntry(cfg: Config, rules: seq<string>, k: nat)
    requires k < |CappedRules(cfg, rules)|
    ensures CappedRules(cfg, rules)[k] in rules && KindOf(CappedRules(cfg, rules)[k]) != Unclassified
  {
    var a := PyPrefix(Bucket(rules, AdblockKind), cfg.maxAdblockRules);
    var h := PyPrefix(Bucket(rules, HostsKind), cfg.maxHostsRules);
    var d := PyPrefix(Bucket(rules, DomainKind), cfg.maxDomainRules);
    PyPrefixJoinedIndex(a, h, d, cfg.maxTotalRules, k);
    if k < |a| {
      CappedBucketEntry(rules, AdblockKind, cfg.maxAdblockRules, k);
    } else if k < |a| + |h| {
      CappedBucketEntry(rules, HostsKind, cfg.maxHostsRules, k - |a|);
    } else {
      CappedBucketEntry(rules, DomainKind, cfg.maxDomainRules, k - |a| - |h|);
    }
  }

  /** A rule kept from a capped bucket is an input rule of that kind. */
  lemma CappedBucketEntry(rules: seq<string>, kind: Kind, cap: int, j: nat)
    requires j < |PyPrefix(Bucket(rules, kind), cap)|
    ensures PyPrefix(Bucket(rules, kind), cap)[j] in rules && KindOf(PyPrefix(Bucket(rules, kind), cap)[j]) == kind
  {
    assert PyPrefix(Bucket(rules, kind), cap)[j] == Bucket(rules, kind)[j];
  }

  /** Filing the joined buckets again gives each bucket back. */
  lemma BucketOfJoined(a: seq<string>, h: seq<string>, d: seq<string>, kind: Kind, own: seq<string>)
    requires forall k :: 0 <= k < |a| ==> KindOf(a[k]) == AdblockKind
    requires forall k :: 0 <= k < |h| ==> KindOf(h[k]) == HostsKind
    requires forall k :: 0 <= k < |d| ==> KindOf(d[k]) == DomainKind
    requires kind != Unclassified
    requires own == match kind case AdblockKind => a case HostsKind => h case _ => d
    ensures Bucket(a + h + d, kind) == own
  {
    FilterAppend3(a, h, d, OfKind(kind));
    BucketOfOneKind(a, AdblockKind, kind);
    BucketOfOneKind(h, HostsKind, kind);
    BucketOfOneKind(d, DomainKind, kind);
    JoinedWithEmpties(own);
  }

  /** Rules all of one kind, filed under a given kind: all of them or none. */
  lemma BucketOfOneKind(s: seq<string>, sk: Kind, kind: Kind)
    requires forall k :: 0 <= k < |s| ==> KindOf(s[k]) == sk
    ensures Bucket(s, kind) == if sk == kind then s else []
  {
    if sk == kind {
      FilterAll(s, OfKind(kind));
    } else {
      FilterNone(s, OfKind(kind));
    }
  }

  /** Below every cap the stage loses only unclassified rules: the result is
      the three buckets, adblock first, then hosts, then domains. */
  lemma UnderCapsNothingLost(cfg: Config, rules: seq<string>)
    requires |Bucket(rules, AdblockKind)| <= cfg.maxAdblockRules
    requires |Bucket(rules, HostsKind)| <= cfg.maxHostsRules
    requires |Bucket(rules, DomainKind)| <= cfg.maxDomainRules
    requires |Bucket(rules, AdblockKind)| + |Bucket(rules, HostsKind)| + |Bucket(rules, DomainKind)| <= cfg.maxTotalRules
    ensures CappedRules(cfg, rules) == Bucket(rules, AdblockKind) + Bucket(rules, HostsKind) + Bucket(rules, DomainKind)
  {
    var a, h, d := Bucket(rules, AdblockKind), Bucket(rules, HostsKind), Bucket(rules, DomainKind);
    PyPrefixWhole(a, cfg.maxAdblockRules);
    PyPrefixWhole(h, cfg.maxHostsRules);
    PyPrefixWhole(d, cfg.maxDomainRules);
    PyPrefixWhole(a + h + d, cfg.maxTotalRules);
  }

  /** Capping a duplicate-free list leaves it duplicate-free. */
  lemma CappedNoDuplicates(cfg: Config, rules: seq<string>)
    requires NoDuplicates(rules)
    ensures NoDuplicates(CappedRules(cfg, rules))
  {
    var a := PyPrefix(Bucket(rules, AdblockKind), cfg.maxAdblockRules);
    var h := PyPrefix(Bucket(rules, HostsKind), cfg.maxHostsRules);
    var d := PyPrefix(Bucket(rules, DomainKind), cfg.maxDomainRules);
    FilterNoDuplicates(rules, OfKind(AdblockKind));
    FilterNoDuplicates(rules, OfKind(HostsKind));
    FilterNoDuplicates(rules, OfKind(DomainKind));
    var joined := a + h + d;
    assert Bucket(rules, AdblockKind)[..|a|] == a;
    assert Bucket(rules, HostsKind)[..|h|] == h;
    assert Bucket(rules, DomainKind)[..|d|] == d;
    forall i, j | 0 <= i < j < |joined| ensures joined[i] != joined[j] {
      if j < |a| || i >= |a| + |h| || (|a| <= i && j < |a| + |h|) {
      } else {
        assert KindOf(joined[i]) != KindOf(joined[j]);
      }
    }
    assert CappedRules(cfg, rules) == joined[..|CappedRules(cfg, rules)|];
  }

  /** The rules that pass the enabled filters: priority (when a minimum is
      set), validation (when enabled), then quality. */
  function Filtered(cfg: Config, rules: seq<string>): seq<string> {
    var prioritized := if cfg.minRulePriority > 0 then Prioritized(cfg, rules) else rules;
    var validated := if cfg.enableRuleValidation then Validated(cfg, prioritized) else prioritized;
    QualityRules(validated)
  }

  /** Every rule that passes the filters comes from the input and meets each
      enabled test; the filters never introduce duplicates. */
  lemma FilteredProperties(cfg: Config, rules: seq<string>)
    ensures forall x :: x in Filtered(cfg, rules) ==>
      && x in rules && !IsLowQuality(x)
      && (cfg.minRulePriority > 0 ==> cfg.priorityScore(x) >= cfg.minRulePriority)
      && (cfg.enableRuleValidation ==> IsValidRule(cfg, x))
    ensures NoDuplicates(rules) ==> NoDuplicates(Filtered(cfg, rules))
  {
    var prioritized := if cfg.minRulePriority > 0 then Prioritized(cfg, rules) else rules;
    var validated := if cfg.enableRuleValidation then Validated(cfg, prioritized) else prioritized;
    if NoDuplicates(rules) {
      if cfg.minRulePriority > 0 {
        FilterNoDuplicates(rules, HighPriority(cfg));
      }
      if cfg.enableRuleValidation {
        FilterNoDuplicates(prioritized, ValidUnder(cfg));
      }
      FilterNoDuplicates(validated, IsGoodQuality);
    }
  }

  /** What `optimize` returns. */
  function Optimized(cfg: Config, rules: seq<string>): seq<string> {
    if |rules| == 0 then [] else Arranged(cfg, CappedRules(cfg, Filtered(cfg, rules)))
  }

  /** Every optimised rule comes from the input, passed each enabled filter
      and has a bucket; the total cap holds, no duplicates appear, and the
      result is ordered by length when that sort is enabled. */
  lemma OptimizedProperties(cfg: Config, rules: seq<string>)
    ensures forall k :: 0 <= k < |Optimized(cfg, rules)| ==>
      var x := Optimized(cfg, rules)[k];
      && x in rules && !IsLowQuality(x) && KindOf(x) != Unclassified
      && (cfg.minRulePriority > 0 ==> cfg.priorityScore(x) >= cfg.minRulePriority)
      && (cfg.enableRuleValidation ==> IsValidRule(cfg, x))
    ensures 0 <= cfg.maxTotalRules ==> |Optimized(cfg, rules)| <= cfg.maxTotalRules
    ensures NoDuplicates(rules) ==> NoDuplicates(Optimized(cfg, rules))
    ensures cfg.sortByLength ==> SortedBy(Optimized(cfg, rules), Length)
  {
    if |rules| > 0 {
      var r := Optimized(cfg, rules);
      FilteredProperties(cfg, rules);
      ArrangedCapped(cfg, Filtered(cfg, rules));
      forall k | 0 <= k < |r|
        ensures && r[k] in rules && !IsLowQuality(r[k]) && KindOf(r[k]) != Unclassified
          && (cfg.minRulePriority > 0 ==> cfg.priorityScore(r[k]) >= cfg.minRulePriority)
          && (cfg.enableRuleValidation ==> IsValidRule(cfg, r[k]))
      {
        OptimizedEntry(cfg, rules, k);
      }
    }
  }

  /** One optimised rule: from the input, past every enabled filter, of a
      known kind. */
  lemma OptimizedEntry(cfg: Config, rules: seq<string>, k: nat)
    requires |rules| > 0 && k < |Optimized(cfg, rules)|
    ensures var x := Optimized(cfg, rules)[k];
      && x in rules && !IsLowQuality(x) && KindOf(x) != Unclassified
      && (cfg.minRulePriority > 0 ==> cfg.priorityScore(x) >= cfg.minRulePriority)
      && (cfg.enableRuleValidation ==> IsValidRule(cfg, x))
  {
    var f := Filtered(cfg, rules);
    ArrangedCapped(cfg, f);
    var x := Optimized(cfg, rules)[k];
    assert x in f;
    FilteredProperties(cfg, rules);
  }

  /** Sorting the capped rules keeps the caps' guarantees. */
  lemma ArrangedCapped(cfg: Config, rules: seq<string>)
    ensures forall k :: 0 <= k < |Arranged(cfg, CappedRules(cfg, rules))| ==>
      var x := Arranged(cfg, CappedRules(cfg, rules))[k];
      x in rules && KindOf(x) != Unclassified
    ensures 0 <= cfg.maxTotalRules ==> |Arranged(cfg, CappedRules(cfg, rules))| <= cfg.maxTotalRules
    ensures NoDuplicates(rules) ==> NoDuplicates(Arranged(cfg, CappedRules(cfg, rules)))
    ensures cfg.sortByLength ==> SortedBy(Arranged(cfg, CappedRules(cfg, rules)), Length)
  {
    var capped := CappedRules(cfg, rules);
    var result := Arranged(cfg, capped);
    CappedBounds(cfg, rules);
    ArrangedProperties(cfg, capped);
    if NoDuplicates(rules) {
      CappedNoDuplicates(cfg, rules);
      PermutationNoDuplicates(capped, result);
    }
    forall k | 0 <= k < |result| ensures result[k] in capped {
      assert result[k] in multiset(capped);
    }
    assert |result| == |multiset(result)| == |capped|;
  }

  /** `optimize`. */
  method Optimize(cfg: Config, rules: seq<string>) returns (result: seq<string>)
    ensures result == Optimized(cfg, rules)
    ensures forall k :: 0 <= k < |result| ==>
      result[k] in rules && !IsLowQuality(result[k]) && KindOf(result[k]) != Unclassified
    ensures 0 <= cfg.maxTotalRules ==> |result| <= cfg.maxTotalRules
    ensures NoDuplicates(rules) ==> NoDuplicates(result)
  {
    if |rules| == 0 {
      return [];
    }
    var current := rules;
    if cfg.minRulePriority > 0 {
      current := FilterByPriority(cfg, current);
    }
    if cfg.enableRuleValidation {
      current := ValidateRules(cfg, current);
    }
    current := FilterByQuality(current);
    result := ClassifyAndLimit(cfg, current);
    OptimizedProperties(cfg, rules);
  }
}
