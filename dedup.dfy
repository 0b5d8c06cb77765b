/** `MultiStageDeduplicator`: exact duplicates first, then one rule per
    domain, then (on large inputs) subdomains whose parent domain already has
    a rule. The per-stage statistics and timings are not modelled. */
module Deduplicator {
  import opened Strings
  import opened Seqs
  import opened Optional
  import opened Settings
  import opened RuleShapes

  /** `_extract_domain`: the domain of an adblock `||domain^` rule, the second
      field of a hosts rule, or a bare domain name itself. */
  function ExtractDomain(rule: string): Option<string> {
    if IsAdblockDomainRule(rule) then Some(AdblockDomainOf(rule))
    else if IsHostsRule(rule) then
      var parts := Tokens(rule);
      if |parts| >= 2 then Some(parts[1]) else None
    else if MatchesDomainPattern(rule) then Some(rule)
    else None
  }

  /** A rule is its own domain exactly when it is a bare domain name; an
      adblock or hosts rule's domain is strictly shorter than the rule. */
  lemma ExtractDomainOfBareDomain(rule: string)
    ensures ExtractDomain(rule) == Some(rule) <==> MatchesDomainPattern(rule)
    ensures ExtractDomain(rule).Some? ==> |ExtractDomain(rule).value| <= |rule|
  {
    DomainPatternShape(rule);
  }

  /** The domain a stage files a rule under: an extracted domain, when it is
      not empty (Python's `if domain:`). */
  function DomainOf(rule: string): Option<string> {
    var d := ExtractDomain(rule);
    if d.Some? && |d.value| > 0 then d else None
  }

  predicate HasNoDomain(rule: string) {
    DomainOf(rule).None?
  }

  /** `_is_more_general(rule1, rule2)`: a wildcard beats no wildcard, an
      adblock `||` rule beats a non-adblock rule, and otherwise shorter wins. */
  predicate IsMoreGeneral(rule1: string, rule2: string) {
    if '*' in rule1 && '*' !in rule2 then true
    else if StartsWith(rule1, "||") && !StartsWith(rule2, "||") then true
    else |rule1| < |rule2|
  }

  /** No rule is more general than itself, so an exact repeat never displaces
      the rule already kept for its domain. */
  lemma MoreGeneralIrreflexive(rule: string)
    ensures !IsMoreGeneral(rule, rule)
  {
  }

  /** The relation is not antisymmetric: a short bare rule without `||` and a
      longer `||` rule each count as more general than the other, so which one
      survives depends only on the order in which they arrive. */
  lemma MoreGeneralNotAntisymmetric(short: string, long: string)
    requires '*' !in short && '*' !in long
    requires StartsWith(long, "||") && !StartsWith(short, "||") && |short| < |long|
    ensures IsMoreGeneral(short, long) && IsMoreGeneral(long, short)
  {
  }

  // ---------------------------------------------------------------------
  // Stage 1: exact duplicates

  /** `_hash_deduplicate`. Two rules are taken to have the same MD5 digest
      exactly when they are the same string. */
  method HashDeduplicate(rules: seq<string>) returns (unique: seq<string>)
    ensures unique == FirstOccurrences(rules)
    ensures NoDuplicates(unique)
    ensures forall k :: 0 <= k < |rules| ==> rules[k] in unique
    ensures forall k :: 0 <= k < |unique| ==> unique[k] in rules
  {
    var seen: set<string> := {};
    unique := [];
    var i := 0;
    while i < |rules|
      invariant 0 <= i <= |rules|
      invariant unique == FirstOccurrences(rules[..i])
      invariant forall x :: x in seen <==> x in rules[..i]
    {
      var rule := rules[i];
      assert rules[..i + 1][..i] == rules[..i];
      if rule !in seen {
        seen := seen + {rule};
        unique := unique + [rule];
      }
      i := i + 1;
    }
    assert rules[..|rules|] == rules;
  }

  // ---------------------------------------------------------------------
  // Stage 2: one rule per domain

  /** An insertion-ordered Python `dict` from domain to rule (`order` lists
      its keys as first inserted), together with the rules that have no
      domain, in arrival order. */
  datatype DomainTable = DomainTable(order: seq<string>, rule: map<string, string>, others: seq<string>)

  const EmptyTable := DomainTable([], map[], [])

  /** Every key is listed once, each entry is filed under its own domain and
      the rules set aside have none. */
  ghost predicate TableValid(t: DomainTable) {
    NoDuplicates(t.order)
    && (forall d :: d in t.rule <==> d in t.order)
    && (forall d :: d in t.rule ==> DomainOf(t.rule[d]) == Some(d))
    && (forall k :: 0 <= k < |t.others| ==> HasNoDomain(t.others[k]))
  }

  /** `table[d] = rule`: a new key goes to the end of the key order, an
      existing key keeps its place. */
  function Put(t: DomainTable, d: string, rule: string): (t': DomainTable)
    requires TableValid(t) && DomainOf(rule) == Some(d)
    ensures TableValid(t')
    ensures t'.rule == t.rule[d := rule] && t'.others == t.others
    ensures t'.order == if d in t.rule then t.order else t.order + [d]
  {
    if d in t.rule then t.(rule := t.rule[d := rule])
    else t.(order := t.order + [d], rule := t.rule[d := rule])
  }

  /** `list(table.values())`. */
  function Values(t: DomainTable): (vs: seq<string>)
    requires TableValid(t)
    ensures |vs| == |t.order|
    ensures forall k :: 0 <= k < |vs| ==> vs[k] == t.rule[t.order[k]]
  {
    seq(|t.order|, k requires 0 <= k < |t.order| => t.rule[t.order[k]])
  }

  /** One iteration of the `_domain_deduplicate` loop: a rule takes its
      domain's place when the domain is new or when it is more general than
      the rule kept so far; a rule without a domain is set aside. */
  function DomainDedupStep(t: DomainTable, rule: string): (t': DomainTable)
    requires TableValid(t)
    ensures TableValid(t')
    ensures HasNoDomain(rule) ==> t' == t.(others := t.others + [rule])
    ensures !HasNoDomain(rule) ==> t'.others == t.others
    ensures forall d :: d in t.rule ==> d in t'.rule
    ensures forall d :: d in t.rule && Some(d) != DomainOf(rule) ==> t'.rule[d] == t.rule[d]
    ensures !HasNoDomain(rule) ==>
      var d := DomainOf(rule).value;
      d in t'.rule && t'.rule[d] == if d in t.rule && !IsMoreGeneral(rule, t.rule[d]) then t.rule[d] else rule
  {
    var dom := DomainOf(rule);
    if dom.None? then t.(others := t.others + [rule])
    else
      var d := dom.value;
      if d !in t.rule || IsMoreGeneral(rule, t.rule[d]) then Put(t, d, rule) else t
  }

  /** The table `_domain_deduplicate` has built after reading `rules`. */
  function DomainDedupTable(rules: seq<string>): (t: DomainTable)
    ensures TableValid(t)
  {
    if |rules| == 0 then EmptyTable
    else DomainDedupStep(DomainDedupTable(rules[..|rules| - 1]), rules[|rules| - 1])
  }

  /** What `_domain_deduplicate` returns: the kept rule of each domain, in the
      order the domains first appeared, then the rules without a domain. */
  function DomainDeduplicated(rules: seq<string>): seq<string> {
    var t := DomainDedupTable(rules);
    Values(t) + t.others
  }

  /** `_domain_deduplicate`. */
  method DomainDeduplicate(rules: seq<string>) returns (result: seq<string>)
    ensures result == DomainDeduplicated(rules)
  {
    var order: seq<string> := [];
    var domainRules: map<string, string> := map[];
    var otherRules: seq<string> := [];
    var i := 0;
    while i < |rules|
      invariant 0 <= i <= |rules|
      invariant DomainTable(order, domainRules, otherRules) == DomainDedupTable(rules[..i])
    {
      var rule := rules[i];
      assert rules[..i + 1][..i] == rules[..i];
      var domain := DomainOf(rule);
      if domain.Some? {
        var d := domain.value;
        if d !in domainRules {
          order := order + [d];
          domainRules := domainRules[d := rule];
        } else {
          var existing := domainRules[d];
          if IsMoreGeneral(rule, existing) {
            domainRules := domainRules[d := rule];
          }
        }
      } else {
        otherRules := otherRules + [rule];
      }
      i := i + 1;
    }
    assert rules[..|rules|] == rules;
    var t := DomainTable(order, domainRules, otherRules);
    result := Values(t) + otherRules;
  }

  /** At most one rule per domain: two distinct positions never carry rules
      filed under the same domain. */
  predicate OnePerDomain(rules: seq<string>) {
    forall i, j :: 0 <= i < j < |rules| && DomainOf(rules[i]).Some? ==> DomainOf(rules[i]) != DomainOf(rules[j])
  }

  /** The rules of a valid table, values then the set-aside rules, carry each
      domain once. */
  lemma TableRulesOnePerDomain(t: DomainTable)
    requires TableValid(t)
    ensures OnePerDomain(Values(t) + t.others)
  {
    var r := Values(t) + t.others;
    forall i, j | 0 <= i < j < |r| && DomainOf(r[i]).Some?
      ensures DomainOf(r[i]) != DomainOf(r[j])
    {
      assert i < |t.order|;
      if j < |t.order| {
        assert DomainOf(r[i]) == Some(t.order[i]) && DomainOf(r[j]) == Some(t.order[j]);
      } else {
        assert HasNoDomain(t.others[j - |t.order|]);
      }
    }
  }

  /** After domain deduplication every domain is carried by one rule. */
  lemma DomainDedupOnePerDomain(rules: seq<string>)
    ensures OnePerDomain(DomainDeduplicated(rules))
  {
    TableRulesOnePerDomain(DomainDedupTable(rules));
  }

  /** The rules without a domain pass through in their original order. */
  lemma {:induction false} DomainDedupOthers(rules: seq<string>)
    ensures DomainDedupTable(rules).others == Filter(rules, HasNoDomain)
    decreases |rules|
  {
    if |rules| > 0 {
      DomainDedupOthers(rules[..|rules| - 1]);
    }
  }

  /** Every domain the input mentions keeps a rule, and every kept rule comes
      from the input. */
  lemma {:induction false} DomainDedupTableCovers(rules: seq<string>)
    ensures forall k :: 0 <= k < |rules| && DomainOf(rules[k]).Some? ==> DomainOf(rules[k]).value in DomainDedupTable(rules).rule
    ensures forall d :: d in DomainDedupTable(rules).rule ==> DomainDedupTable(rules).rule[d] in rules
    decreases |rules|
  {
    if |rules| > 0 {
      var init := rules[..|rules| - 1];
      DomainDedupTableCovers(init);
      assert forall k :: 0 <= k < |init| ==> init[k] == rules[k];
    }
  }

  /** Domain deduplication only drops rules: the output is drawn from the
      input, every domain of the input is still present, and each domain-less
      rule survives. */
  lemma DomainDedupKeeps(rules: seq<string>)
    ensures forall k :: 0 <= k < |DomainDeduplicated(rules)| ==> DomainDeduplicated(rules)[k] in rules
    ensures forall k :: 0 <= k < |rules| && DomainOf(rules[k]).Some? ==>
      exists j :: 0 <= j < |DomainDeduplicated(rules)| && DomainOf(DomainDeduplicated(rules)[j]) == DomainOf(rules[k])
    ensures forall k :: 0 <= k < |rules| && HasNoDomain(rules[k]) ==> rules[k] in DomainDeduplicated(rules)
  {
    DomainDedupTableCovers(rules);
    DomainDedupOthers(rules);
    var r := DomainDeduplicated(rules);
    forall k | 0 <= k < |r| ensures r[k] in rules {
      DomainDedupDrawn(rules, k);
    }
    forall k | 0 <= k < |rules| && DomainOf(rules[k]).Some?
      ensures exists j :: 0 <= j < |r| && DomainOf(r[j]) == DomainOf(rules[k])
    {
      DomainDedupPresent(rules, k);
    }
  }

  lemma DomainDedupDrawn(rules: seq<string>, k: nat)
    requires k < |DomainDeduplicated(rules)|
    ensures DomainDeduplicated(rules)[k] in rules
  {
    var t := DomainDedupTable(rules);
    DomainDedupTableCovers(rules);
    DomainDedupOthers(rules);
    if k < |t.order| {
      assert DomainDeduplicated(rules)[k] == t.rule[t.order[k]];
    } else {
      assert DomainDeduplicated(rules)[k] == t.others[k - |t.order|];
    }
  }

  lemma DomainDedupPresent(rules: seq<string>, k: nat)
    requires k < |rules| && DomainOf(rules[k]).Some?
    ensures exists j :: 0 <= j < |DomainDeduplicated(rules)| && DomainOf(DomainDeduplicated(rules)[j]) == DomainOf(rules[k])
  {
    var t := DomainDedupTable(rules);
    DomainDedupTableCovers(rules);
    var d := DomainOf(rules[k]).value;
    var j :| 0 <= j < |t.order| && t.order[j] == d;
    assert DomainDeduplicated(rules)[j] == t.rule[d];
  }

  /** Which of two rules for the same domain survives can depend on their
      order alone: when each is more general than the other (a short bare
      domain and a longer `||` rule, say), the later one always wins. */
  lemma DomainDedupOrderDependent(x: string, y: string)
    requires DomainOf(x).Some? && DomainOf(x) == DomainOf(y)
    requires IsMoreGeneral(x, y) && IsMoreGeneral(y, x)
    ensures DomainDeduplicated([x, y]) == [y]
    ensures DomainDeduplicated([y, x]) == [x]
  {
    LaterMoreGeneralWins(x, y);
    LaterMoreGeneralWins(y, x);
  }

  /** One more rule after any prefix: a rule with a domain takes that
      domain's place exactly when the domain is new or the rule is more
      general than the one kept so far; the other domains keep their rules
      and their order, and the rules without a domain are unchanged. */
  lemma DomainDedupLaterRule(rules: seq<string>, r: string)
    requires DomainOf(r).Some?
    ensures var t, t' := DomainDedupTable(rules), DomainDedupTable(rules + [r]);
      var d := DomainOf(r).value;
      && d in t'.rule
      && t'.rule[d] == (if d in t.rule && !IsMoreGeneral(r, t.rule[d]) then t.rule[d] else r)
      && (forall e :: e in t.rule && e != d ==> e in t'.rule && t'.rule[e] == t.rule[e])
      && (forall e :: e in t'.rule ==> e in t.rule || e == d)
      && t'.order == (if d in t.rule then t.order else t.order + [d])
      && t'.others == t.others
  {
    assert (rules + [r])[..|rules|] == rules;
  }

  /** The two-rule case: a later, more general rule replaces the earlier
      one of the same domain. */
  lemma LaterMoreGeneralWins(x: string, y: string)
    requires DomainOf(x).Some? && DomainOf(x) == DomainOf(y) && IsMoreGeneral(y, x)
    ensures DomainDeduplicated([x, y]) == [y]
  {
    var d := DomainOf(x).value;
    assert [x, y][..1] == [x] && [x][..0] == [];
    var t1 := DomainDedupStep(EmptyTable, x);
    assert DomainDedupTable([x]) == t1;
    assert t1 == DomainTable([d], map[d := x], []);
    var t2 := DomainDedupStep(t1, y);
    assert DomainDedupTable([x, y]) == t2;
    assert t2 == DomainTable([d], map[d := y], []);
  }

  /** A duplicate-free input gives a duplicate-free output. */
  lemma DomainDedupNoDuplicates(rules: seq<string>)
    requires NoDuplicates(rules)
    ensures NoDuplicates(DomainDeduplicated(rules))
  {
    var t := DomainDedupTable(rules);
    var vs := Values(t);
    DomainDedupOthers(rules);
    FilterNoDuplicates(rules, HasNoDomain);
    forall i, j | 0 <= i < j < |vs + t.others| ensures (vs + t.others)[i] != (vs + t.others)[j] {
      if j < |vs| {
        DistinctKeysDistinctRules(t, i, j);
      } else if i >= |vs| {
        assert (vs + t.others)[i] == t.others[i - |vs|];
      } else {
        assert !HasNoDomain(vs[i]) && HasNoDomain(t.others[j - |vs|]);
      }
    }
  }

  lemma DistinctKeysDistinctRules(t: DomainTable, i: nat, j: nat)
    requires TableValid(t) && i < j < |t.order|
    ensures t.rule[t.order[i]] != t.rule[t.order[j]]
  {
    assert DomainOf(t.rule[t.order[i]]) == Some(t.order[i]);
    assert DomainOf(t.rule[t.order[j]]) == Some(t.order[j]);
  }

  // ---------------------------------------------------------------------
  // Stage 3: subdomains of domains that have a rule

  /** The inputs below this size skip the subdomain stage. */
  const SubdomainThreshold := 10000

  /** `'.'.join(parts[i:])` for some `i` in `range(1, len(parts))`: a parent
      domain `_subdomain_optimize` looks up for `domain`. */
  predicate IsParentOf(parent: string, domain: string) {
    var parts := Split(domain, '.');
    exists i :: 1 <= i < |parts| && Join(parts[i..], '.') == parent
  }

  /** Some parent of `domain` has a rule of its own. */
  predicate HasParentIn(domain: string, keys: set<string>) {
    var parts := Split(domain, '.');
    exists i :: 1 <= i < |parts| && Join(parts[i..], '.') in keys
  }

  /** `parent` is what follows one of the dots of `domain`. */
  predicate IsDotSuffix(parent: string, domain: string) {
    exists k :: 0 <= k < |domain| && domain[k] == '.' && parent == domain[k + 1..]
  }

  /** The parents the stage tries are exactly the texts after the dots of
      the domain. */
  lemma ParentIsDotSuffix(parent: string, domain: string)
    ensures IsParentOf(parent, domain) <==> IsDotSuffix(parent, domain)
  {
    var parts := Split(domain, '.');
    if IsParentOf(parent, domain) {
      var i :| 1 <= i < |parts| && Join(parts[i..], '.') == parent;
      JoinSplitSuffix(domain, '.', i);
    }
    if IsDotSuffix(parent, domain) {
      var k :| 0 <= k < |domain| && domain[k] == '.' && parent == domain[k + 1..];
      SuffixJoinSplit(domain, '.', k);
    }
  }

  lemma HasParentInIff(domain: string, keys: set<string>)
    ensures HasParentIn(domain, keys) <==> exists p :: p in keys && IsDotSuffix(p, domain)
  {
    if HasParentIn(domain, keys) {
      var parts := Split(domain, '.');
      var i :| 1 <= i < |parts| && Join(parts[i..], '.') in keys;
      ParentIsDotSuffix(Join(parts[i..], '.'), domain);
    }
    if exists p :: p in keys && IsDotSuffix(p, domain) {
      var p :| p in keys && IsDotSuffix(p, domain);
      ParentIsDotSuffix(p, domain);
    }
  }

  /** A dot suffix of a dot suffix is a dot suffix. */
  lemma DotSuffixTransitive(a: string, b: string, d: string)
    requires IsDotSuffix(a, b) && IsDotSuffix(b, d)
    ensures IsDotSuffix(a, d) && |a| < |d|
  {
    var k :| 0 <= k < |d| && d[k] == '.' && b == d[k + 1..];
    var j :| 0 <= j < |b| && b[j] == '.' && a == b[j + 1..];
    assert d[k + 1 + j] == '.' && a == d[k + 1 + j + 1..];
  }

  /** One iteration of the first loop of `_subdomain_optimize`:
      `domain_to_rule[domain] = rule`, so the last rule of a domain wins. */
  function SubdomainStep(t: DomainTable, rule: string): (t': DomainTable)
    requires TableValid(t)
    ensures TableValid(t')
  {
    var dom := DomainOf(rule);
    if dom.None? then t.(others := t.others + [rule]) else Put(t, dom.value, rule)
  }

  /** The table the first loop of `_subdomain_optimize` has built after
      reading `rules`. */
  function SubdomainTable(rules: seq<string>): (t: DomainTable)
    ensures TableValid(t)
  {
    if |rules| == 0 then EmptyTable
    else SubdomainStep(SubdomainTable(rules[..|rules| - 1]), rules[|rules| - 1])
  }

  /** One more rule is filed into the table. */
  lemma SubdomainTableSnoc(rules: seq<string>, i: nat)
    requires i < |rules|
    ensures SubdomainTable(rules[..i + 1]) == SubdomainStep(SubdomainTable(rules[..i]), rules[i])
  {
    assert rules[..i + 1][..i] == rules[..i];
  }

  /** The domains the stage keeps: those none of whose parents has a rule. */
  function KeptDomains(t: DomainTable): set<string> {
    set d | d in t.rule && !HasParentIn(d, t.rule.Keys)
  }

  /** The outcome `_subdomain_optimize` may produce: the rule of every kept
      domain, once each and in an unspecified order (Python iterates a
      `set`), followed by the rules without a domain in arrival order. */
  ghost predicate SubdomainOutcome(rules: seq<string>, result: seq<string>) {
    var t := SubdomainTable(rules);
    var n := |result| - |t.others|;
    0 <= n && result[n..] == t.others
    && NoDuplicates(result[..n])
    && (forall x :: x in result[..n] <==> exists d :: d in KeptDomains(t) && t.rule[d] == x)
  }

  /** `_subdomain_optimize`. The domain tree it builds is never consulted, so
      it is not modelled. */
  method SubdomainOptimize(rules: seq<string>) returns (result: seq<string>)
    ensures |rules| < SubdomainThreshold ==> result == rules
    ensures |rules| >= SubdomainThreshold ==> SubdomainOutcome(rules, result)
  {
    if |rules| < SubdomainThreshold {
      return rules;
    }
    var t := BuildSubdomainTable(rules);
    var optimized := KeptDomainSet(t);
    DistinctDomainsDistinctRules(t);
    var kept := RulesOfDomains(t.rule, optimized);
    result := kept + t.others;
    assert result[|kept|..] == t.others && result[..|kept|] == kept;
  }

  /** The first loop of `_subdomain_optimize`: `domain_to_rule` and
      `other_rules`. */
  method BuildSubdomainTable(rules: seq<string>) returns (t: DomainTable)
    ensures t == SubdomainTable(rules)
  {
    var order: seq<string> := [];
    var domainToRule: map<string, string> := map[];
    var otherRules: seq<string> := [];
    var i := 0;
    while i < |rules|
      invariant 0 <= i <= |rules|
      invariant DomainTable(order, domainToRule, otherRules) == SubdomainTable(rules[..i])
    {
      var rule := rules[i];
      SubdomainTableSnoc(rules, i);
      var domain := DomainOf(rule);
      if domain.Some? {
        if domain.value !in domainToRule {
          order := order + [domain.value];
        }
        domainToRule := domainToRule[domain.value := rule];
      } else {
        otherRules := otherRules + [rule];
      }
      i := i + 1;
    }
    assert rules[..|rules|] == rules;
    t := DomainTable(order, domainToRule, otherRules);
  }

  /** The inner loop of `_subdomain_optimize`: whether some parent of
      `domain` is a key of `domainToRule`. */
  method IsSubdomain(domain: string, domainToRule: map<string, string>) returns (isSubdomain: bool)
    ensures isSubdomain <==> HasParentIn(domain, domainToRule.Keys)
  {
    var parts := Split(domain, '.');
    isSubdomain := false;
    var i := 1;
    while i < |parts|
      invariant 1 <= i <= |parts|
      invariant forall q :: 1 <= q < i ==> Join(parts[q..], '.') !in domainToRule
    {
      var parent := Join(parts[i..], '.');
      if parent in domainToRule {
        isSubdomain := true;
        break;
      }
      i := i + 1;
    }
  }

  /** The second loop of `_subdomain_optimize`: `optimized_domains`. */
  method KeptDomainSet(t: DomainTable) returns (optimized: set<string>)
    requires TableValid(t)
    ensures optimized == KeptDomains(t)
  {
    optimized := {};
    var j := 0;
    while j < |t.order|
      invariant 0 <= j <= |t.order|
      invariant optimized == set d | d in t.order[..j] && !HasParentIn(d, t.rule.Keys)
    {
      var domain := t.order[j];
      var isSubdomain := IsSubdomain(domain, t.rule);
      if !isSubdomain {
        optimized := optimized + {domain};
      }
      assert t.order[..j + 1] == t.order[..j] + [domain];
      j := j + 1;
    }
    assert t.order[..|t.order|] == t.order;
  }

  /** `[domain_to_rule[d] for d in optimized_domains]`, in whatever order the
      set yields its elements. */
  method RulesOfDomains(m: map<string, string>, domains: set<string>) returns (kept: seq<string>)
    requires domains <= m.Keys
    requires forall d, e :: d in domains && e in domains && d != e ==> m[d] != m[e]
    ensures NoDuplicates(kept)
    ensures forall x :: x in kept <==> exists d :: d in domains && m[d] == x
  {
    kept := [];
    var remaining := domains;
    while remaining != {}
      invariant remaining <= domains
      invariant NoDuplicates(kept)
      invariant forall x :: x in kept <==> exists d :: d in domains - remaining && m[d] == x
      decreases |remaining|
    {
      var d :| d in remaining;
      assert m[d] !in kept;
      kept := kept + [m[d]];
      remaining := remaining - {d};
    }
  }

  /** Different keys of a valid table hold different rules. */
  lemma DistinctDomainsDistinctRules(t: DomainTable)
    requires TableValid(t)
    ensures forall d, e :: d in t.rule && e in t.rule && d != e ==> t.rule[d] != t.rule[e]
  {
    forall d, e | d in t.rule && e in t.rule && d != e ensures t.rule[d] != t.rule[e] {
      assert DomainOf(t.rule[d]) == Some(d) && DomainOf(t.rule[e]) == Some(e);
    }
  }

  /** The rules without a domain pass through the subdomain stage in their
      original order. */
  lemma {:induction false} SubdomainOthers(rules: seq<string>)
    ensures SubdomainTable(rules).others == Filter(rules, HasNoDomain)
    decreases |rules|
  {
    if |rules| > 0 {
      SubdomainOthers(rules[..|rules| - 1]);
    }
  }

  /** Every domain of the input is a key of the subdomain stage's table. */
  lemma {:induction false} SubdomainTableCovers(rules: seq<string>)
    ensures forall k :: 0 <= k < |rules| && !HasNoDomain(rules[k]) ==> DomainOf(rules[k]).value in SubdomainTable(rules).rule
    decreases |rules|
  {
    if |rules| > 0 {
      var init := rules[..|rules| - 1];
      SubdomainTableCovers(init);
      assert forall k :: 0 <= k < |init| ==> init[k] == rules[k];
    }
  }

  /** The position of the last rule of `rules` filed under `d`, or -1. */
  function LastIndexOf(rules: seq<string>, d: string): (k: int)
    ensures -1 <= k < |rules|
    ensures 0 <= k ==> DomainOf(rules[k]) == Some(d)
    ensures forall m :: k < m < |rules| ==> DomainOf(rules[m]) != Some(d)
  {
    if |rules| == 0 then -1
    else if DomainOf(rules[|rules| - 1]) == Some(d) then |rules| - 1
    else LastIndexOf(rules[..|rules| - 1], d)
  }

  /** Each key holds the last rule of the input filed under it. */
  lemma {:induction false} SubdomainTableLastWins(rules: seq<string>, d: string)
    requires d in SubdomainTable(rules).rule
    ensures 0 <= LastIndexOf(rules, d) && rules[LastIndexOf(rules, d)] == SubdomainTable(rules).rule[d]
    decreases |rules|
  {
    var n := |rules| - 1;
    if DomainOf(rules[n]) != Some(d) {
      SubdomainStepKeeps(SubdomainTable(rules[..n]), rules[n], d);
      SubdomainTableLastWins(rules[..n], d);
    }
  }

  /** Filing a rule leaves the entries of the other domains alone. */
  lemma SubdomainStepKeeps(t: DomainTable, rule: string, d: string)
    requires TableValid(t) && DomainOf(rule) != Some(d) && d in SubdomainStep(t, rule).rule
    ensures d in t.rule && SubdomainStep(t, rule).rule[d] == t.rule[d]
  {
  }

  /** A rule is kept by the subdomain stage exactly when it is the rule held
      for its domain and no parent of that domain holds a rule. */
  lemma KeptRuleIff(t: DomainTable, x: string)
    requires TableValid(t)
    ensures (exists d :: d in KeptDomains(t) && t.rule[d] == x) <==>
      (!HasNoDomain(x) && DomainOf(x).value in KeptDomains(t) && t.rule[DomainOf(x).value] == x)
  {
    if exists d :: d in KeptDomains(t) && t.rule[d] == x {
      var d :| d in KeptDomains(t) && t.rule[d] == x;
      assert DomainOf(t.rule[d]) == Some(d);
    }
  }

  /** No kept domain is a parent of another kept domain. */
  lemma KeptDomainsIndependent(t: DomainTable, a: string, d: string)
    requires a in KeptDomains(t) && d in KeptDomains(t)
    ensures !IsDotSuffix(a, d)
  {
    HasParentInIff(d, t.rule.Keys);
  }

  /** Every domain the stage drops has a kept ancestor: a kept domain that
      follows one of its dots. */
  lemma {:induction false} DroppedHasKeptAncestor(t: DomainTable, d: string)
    requires d in t.rule && d !in KeptDomains(t)
    ensures exists a :: a in KeptDomains(t) && IsDotSuffix(a, d)
    decreases |d|
  {
    HasParentInIff(d, t.rule.Keys);
    var p :| p in t.rule && IsDotSuffix(p, d);
    var k :| 0 <= k < |d| && d[k] == '.' && p == d[k + 1..];
    if p !in KeptDomains(t) {
      DroppedHasKeptAncestor(t, p);
      var a :| a in KeptDomains(t) && IsDotSuffix(a, p);
      DotSuffixTransitive(a, p, d);
    }
  }

  // ---------------------------------------------------------------------
  // What the stages preserve

  /** `e` is `d` itself or one of its parent domains, so a rule blocking `e`
      also blocks `d`. */
  predicate CoveredBy(d: string, e: string) {
    e == d || IsDotSuffix(e, d)
  }

  /** Some rule of `rules` is filed under `d` or under a parent of `d`. */
  predicate Covers(rules: seq<string>, d: string) {
    exists j :: 0 <= j < |rules| && !HasNoDomain(rules[j]) && CoveredBy(d, DomainOf(rules[j]).value)
  }

  /** `output` only drops rules of `input`: every rule it holds comes from
      the input, every rule without a domain survives, and every domain of
      the input is still covered. */
  ghost predicate DropsOnly(input: seq<string>, output: seq<string>) {
    (forall k :: 0 <= k < |output| ==> output[k] in input)
    && (forall k :: 0 <= k < |input| && HasNoDomain(input[k]) ==> input[k] in output)
    && (forall k :: 0 <= k < |input| && !HasNoDomain(input[k]) ==> Covers(output, DomainOf(input[k]).value))
  }

  lemma CoveredByTransitive(d: string, e: string, f: string)
    requires CoveredBy(d, e) && CoveredBy(e, f)
    ensures CoveredBy(d, f)
  {
    if e != d && f != e {
      DotSuffixTransitive(f, e, d);
    }
  }

  lemma CoversTransitive(a: seq<string>, b: seq<string>, d: string)
    requires Covers(a, d)
    requires forall k :: 0 <= k < |a| && !HasNoDomain(a[k]) ==> Covers(b, DomainOf(a[k]).value)
    ensures Covers(b, d)
  {
    var j :| 0 <= j < |a| && !HasNoDomain(a[j]) && CoveredBy(d, DomainOf(a[j]).value);
    var e := DomainOf(a[j]).value;
    var i :| 0 <= i < |b| && !HasNoDomain(b[i]) && CoveredBy(e, DomainOf(b[i]).value);
    CoveredByTransitive(d, e, DomainOf(b[i]).value);
  }

  /** Dropping rules composes. */
  lemma DropsOnlyTransitive(a: seq<string>, b: seq<string>, c: seq<string>)
    requires DropsOnly(a, b) && DropsOnly(b, c)
    ensures DropsOnly(a, c)
  {
    forall k | 0 <= k < |c| ensures c[k] in a {
      var j :| 0 <= j < |b| && b[j] == c[k];
    }
    forall k | 0 <= k < |a| && HasNoDomain(a[k]) ensures a[k] in c {
      var j :| 0 <= j < |b| && b[j] == a[k];
    }
    forall k | 0 <= k < |a| && !HasNoDomain(a[k]) ensures Covers(c, DomainOf(a[k]).value) {
      CoversTransitive(b, c, DomainOf(a[k]).value);
    }
  }

  /** A rule that stays covers its own domain. */
  lemma CoversOwnDomain(rules: seq<string>, x: string)
    requires x in rules && !HasNoDomain(x)
    ensures Covers(rules, DomainOf(x).value)
  {
    var j :| 0 <= j < |rules| && rules[j] == x;
  }

  lemma DropsOnlyReflexive(rules: seq<string>)
    ensures DropsOnly(rules, rules)
  {
    forall k | 0 <= k < |rules| && !HasNoDomain(rules[k]) ensures Covers(rules, DomainOf(rules[k]).value) {
      CoversOwnDomain(rules, rules[k]);
    }
  }

  lemma HashDedupDropsOnly(rules: seq<string>)
    ensures DropsOnly(rules, FirstOccurrences(rules))
  {
    forall k | 0 <= k < |rules| && !HasNoDomain(rules[k]) ensures Covers(FirstOccurrences(rules), DomainOf(rules[k]).value) {
      CoversOwnDomain(FirstOccurrences(rules), rules[k]);
    }
  }

  lemma DomainDedupDropsOnly(rules: seq<string>)
    ensures DropsOnly(rules, DomainDeduplicated(rules))
  {
    var r := DomainDeduplicated(rules);
    DomainDedupKeeps(rules);
    forall k | 0 <= k < |rules| && !HasNoDomain(rules[k]) ensures Covers(r, DomainOf(rules[k]).value) {
      DomainDedupCovers(rules, k);
    }
  }

  lemma DomainDedupCovers(rules: seq<string>, k: nat)
    requires k < |rules| && !HasNoDomain(rules[k])
    ensures Covers(DomainDeduplicated(rules), DomainOf(rules[k]).value)
  {
    var r := DomainDeduplicated(rules);
    DomainDedupPresent(rules, k);
    var j :| 0 <= j < |r| && DomainOf(r[j]) == DomainOf(rules[k]);
    assert !HasNoDomain(r[j]) && CoveredBy(DomainOf(rules[k]).value, DomainOf(r[j]).value);
  }

  /** The kept rules are exactly the rules held for kept domains. */
  lemma SubdomainFront(rules: seq<string>, result: seq<string>, x: string)
    requires SubdomainOutcome(rules, result)
    ensures var t := SubdomainTable(rules); var n := |result| - |t.others|;
      x in result[..n] <==> !HasNoDomain(x) && DomainOf(x).value in KeptDomains(t) && t.rule[DomainOf(x).value] == x
  {
    KeptRuleIff(SubdomainTable(rules), x);
  }

  lemma SubdomainDropsOnly(rules: seq<string>, result: seq<string>)
    requires SubdomainOutcome(rules, result)
    ensures DropsOnly(rules, result)
  {
    SubdomainFromInput(rules, result);
    SubdomainKeepsOthers(rules, result);
    forall k | 0 <= k < |rules| && !HasNoDomain(rules[k]) ensures Covers(result, DomainOf(rules[k]).value) {
      SubdomainCovers(rules, result, k);
    }
  }

  lemma SubdomainFromInput(rules: seq<string>, result: seq<string>)
    requires SubdomainOutcome(rules, result)
    ensures forall k :: 0 <= k < |result| ==> result[k] in rules
  {
    forall k | 0 <= k < |result| ensures result[k] in rules {
      SubdomainEntryFromInput(rules, result, k);
    }
  }

  lemma SubdomainEntryFromInput(rules: seq<string>, result: seq<string>, k: nat)
    requires SubdomainOutcome(rules, result) && k < |result|
    ensures result[k] in rules
  {
    var t := SubdomainTable(rules);
    var n := |result| - |t.others|;
    if k < n {
      assert result[k] in result[..n];
      KeptRuleFromInput(rules, result, result[k]);
    } else {
      SubdomainTailEntry(rules, result, k);
      SubdomainOtherFromInput(rules, k - n);
    }
  }

  lemma SubdomainOtherFromInput(rules: seq<string>, k: nat)
    requires k < |SubdomainTable(rules).others|
    ensures SubdomainTable(rules).others[k] in rules
  {
    SubdomainOthers(rules);
  }

  lemma KeptRuleFromInput(rules: seq<string>, result: seq<string>, x: string)
    requires SubdomainOutcome(rules, result)
    requires x in result[..|result| - |SubdomainTable(rules).others|]
    ensures x in rules
  {
    SubdomainFront(rules, result, x);
    var d := DomainOf(x).value;
    SubdomainTableLastWins(rules, d);
  }

  lemma SubdomainKeepsOthers(rules: seq<string>, result: seq<string>)
    requires SubdomainOutcome(rules, result)
    ensures forall k :: 0 <= k < |rules| && HasNoDomain(rules[k]) ==> rules[k] in result
  {
    var t := SubdomainTable(rules);
    var n := |result| - |t.others|;
    SubdomainOthers(rules);
    FilteredSuffixKeeps(rules, result, n, HasNoDomain);
  }

  lemma SubdomainCovers(rules: seq<string>, result: seq<string>, k: int)
    requires SubdomainOutcome(rules, result)
    requires 0 <= k < |rules| && !HasNoDomain(rules[k])
    ensures Covers(result, DomainOf(rules[k]).value)
  {
    var t := SubdomainTable(rules);
    var n := |result| - |t.others|;
    SubdomainTableCovers(rules);
    var d := DomainOf(rules[k]).value;
    var a := d;
    if d !in KeptDomains(t) {
      DroppedHasKeptAncestor(t, d);
      a :| a in KeptDomains(t) && IsDotSuffix(a, d);
    }
    var x := t.rule[a];
    assert DomainOf(x) == Some(a);
    SubdomainFront(rules, result, x);
    assert x in result;
    CoversOwnDomain(result, x);
  }

  /** The subdomain stage leaves one rule per domain, and no duplicates when
      it is given none. */
  lemma SubdomainDistinct(rules: seq<string>, result: seq<string>)
    requires SubdomainOutcome(rules, result)
    ensures OnePerDomain(result)
    ensures NoDuplicates(rules) ==> NoDuplicates(result)
  {
    forall i, j | 0 <= i < j < |result|
      ensures DomainOf(result[i]).Some? ==> DomainOf(result[i]) != DomainOf(result[j])
      ensures NoDuplicates(rules) ==> result[i] != result[j]
    {
      SubdomainPairDistinct(rules, result, i, j);
    }
  }

  /** Two positions of the subdomain stage's result: two kept rules have
      different domains, a kept rule has a domain and a rule after it has
      none, and the rules without a domain repeat only if the input does. */
  lemma SubdomainPairDistinct(rules: seq<string>, result: seq<string>, i: nat, j: nat)
    requires SubdomainOutcome(rules, result) && i < j < |result|
    ensures DomainOf(result[i]).Some? ==> DomainOf(result[i]) != DomainOf(result[j])
    ensures NoDuplicates(rules) ==> result[i] != result[j]
  {
    var n := |result| - |SubdomainTable(rules).others|;
    if j < n {
      KeptPairDistinct(rules, result, i, j);
    } else {
      SubdomainTailEntry(rules, result, j);
      if i < n {
        KeptEntry(rules, result, i);
      } else {
        SubdomainTailEntry(rules, result, i);
        if NoDuplicates(rules) {
          SubdomainOthers(rules);
          FilterNoDuplicates(rules, HasNoDomain);
        }
      }
    }
  }

  /** A position in the kept part of the result holds the rule of its own
      kept domain. */
  lemma KeptEntry(rules: seq<string>, result: seq<string>, k: nat)
    requires SubdomainOutcome(rules, result) && k < |result| - |SubdomainTable(rules).others|
    ensures !HasNoDomain(result[k])
    ensures DomainOf(result[k]).value in KeptDomains(SubdomainTable(rules))
    ensures SubdomainTable(rules).rule[DomainOf(result[k]).value] == result[k]
  {
    var n := |result| - |SubdomainTable(rules).others|;
    assert result[k] == result[..n][k];
    SubdomainFront(rules, result, result[k]);
  }

  /** Two kept rules have different domains. */
  lemma KeptPairDistinct(rules: seq<string>, result: seq<string>, i: nat, j: nat)
    requires SubdomainOutcome(rules, result) && i < j < |result| - |SubdomainTable(rules).others|
    ensures DomainOf(result[i]) != DomainOf(result[j])
  {
    var n := |result| - |SubdomainTable(rules).others|;
    PrefixDistinct(result, n, i, j);
    KeptEntry(rules, result, i);
    KeptEntry(rules, result, j);
  }

  /** A position after the kept part holds the matching rule without a
      domain. */
  lemma SubdomainTailEntry(rules: seq<string>, result: seq<string>, k: nat)
    requires SubdomainOutcome(rules, result) && |result| - |SubdomainTable(rules).others| <= k < |result|
    ensures var n := |result| - |SubdomainTable(rules).others|;
      result[k] == SubdomainTable(rules).others[k - n] && HasNoDomain(result[k])
  {
    SubdomainOthers(rules);
  }

  /** `deduplicate`: the enabled stages, in order. */
  /** The enabled stages of `deduplicate`, in order: exact repeats, then
      one rule per domain, then subdomains of kept domains. The last stage
      fixes its result only up to the order of the kept rules. */
  ghost predicate DedupOutcome(cfg: Config, rules: seq<string>, result: seq<string>) {
    if |rules| == 0 then result == []
    else
      var afterHash := if cfg.hashDedupEnabled then FirstOccurrences(rules) else rules;
      var afterDomain := if cfg.domainDedupEnabled then DomainDeduplicated(afterHash) else afterHash;
      if cfg.subdomainOptimization && |afterDomain| >= SubdomainThreshold then SubdomainOutcome(afterDomain, result)
      else result == afterDomain
  }

  method Deduplicate(cfg: Config, rules: seq<string>) returns (result: seq<string>)
    ensures DedupOutcome(cfg, rules, result)
    ensures |rules| == 0 ==> result == []
    ensures DropsOnly(rules, result)
    ensures cfg.hashDedupEnabled ==> NoDuplicates(result)
    ensures cfg.domainDedupEnabled ==> OnePerDomain(result)
    ensures !cfg.hashDedupEnabled && !cfg.domainDedupEnabled && !cfg.subdomainOptimization ==> result == rules
  {
    if |rules| == 0 {
      return [];
    }
    var current := rules;
    DropsOnlyReflexive(rules);
    if cfg.hashDedupEnabled {
      var next := HashDeduplicate(current);
      HashDedupDropsOnly(current);
      current := next;
    }
    if cfg.domainDedupEnabled {
      var next := DomainDeduplicate(current);
      DomainDedupDropsOnly(current);
      DropsOnlyTransitive(rules, current, next);
      if cfg.hashDedupEnabled {
        DomainDedupNoDuplicates(current);
      }
      DomainDedupOnePerDomain(current);
      current := next;
    }
    if cfg.subdomainOptimization {
      var next := SubdomainOptimize(current);
      if |current| >= SubdomainThreshold {
        SubdomainDropsOnly(current, next);
        DropsOnlyTransitive(rules, current, next);
        SubdomainDistinct(current, next);
      }
      current := next;
    }
    result := current;
  }
}
