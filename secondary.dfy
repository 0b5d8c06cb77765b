/** `SecondaryOptimizer`: on large rule sets, drops rules that look expired
    and keeps one rule per group of similar rules. The statistics are not
    modelled. */
module SecondaryOptimizer {
  import opened Strings
  import opened Seqs
  import opened Settings
  import opened RuleShapes

  /** Below this many rules the secondary pass does nothing. */
  const SecondaryThreshold := 1000

  /** Below this many rules the merge step does nothing. */
  const MergeThreshold := 5000

  // ---------------------------------------------------------------------
  // Expired rules

  /** The patterns `_remove_expired_domains` searches for, ignoring case:
      eight or more digits, a `20YYMMDD`-shaped date, or a keyword. */
  datatype ExpiredPattern = DigitRun | DateStamp | Keyword(word: string)

  const ExpiredPatterns: seq<ExpiredPattern> := [
    DigitRun, DateStamp,
    Keyword("expired"), Keyword("old"), Keyword("dead"), Keyword("invalid"),
    Keyword("test"), Keyword("example"), Keyword("dummy")
  ]

  /** `\d{8,}` matches at `i`: eight digits start there. */
  predicate DigitRunAt(s: string, i: int) {
    0 <= i && i + 8 <= |s| && forall j :: i <= j < i + 8 ==> IsDigit(s[j])
  }

  /** `20\d{2}[01]\d[0-3]\d` matches at `i`. */
  predicate DateStampAt(s: string, i: int) {
    0 <= i && i + 8 <= |s|
    && s[i] == '2' && s[i + 1] == '0' && IsDigit(s[i + 2]) && IsDigit(s[i + 3])
    && (s[i + 4] == '0' || s[i + 4] == '1') && IsDigit(s[i + 5])
    && '0' <= s[i + 6] <= '3' && IsDigit(s[i + 7])
  }

  /** `re.search(pattern, rule, re.IGNORECASE)` for one pattern; the
      keywords are lower case, so lower-casing the rule ignores case. */
  predicate Matches(pattern: ExpiredPattern, rule: string) {
    match pattern
    case DigitRun => exists i :: 0 <= i <= |rule| - 8 && DigitRunAt(rule, i)
    case DateStamp => exists i :: 0 <= i <= |rule| - 8 && DateStampAt(rule, i)
    case Keyword(word) => HasSubstring(Lower(rule), word)
  }

  /** Some expired pattern occurs in the rule. */
  predicate IsExpired(rule: string) {
    exists k :: 0 <= k < |ExpiredPatterns| && Matches(ExpiredPatterns[k], rule)
  }

  predicate IsLive(rule: string) {
    !IsExpired(rule)
  }

  /** A date stamp is eight digits, so the date pattern never removes a rule
      the digit pattern would keep. */
  lemma DateStampIsDigitRun(rule: string)
    ensures Matches(DateStamp, rule) ==> Matches(DigitRun, rule)
  {
    if Matches(DateStamp, rule) {
      var i :| 0 <= i <= |rule| - 8 && DateStampAt(rule, i);
      assert DigitRunAt(rule, i);
    }
  }

  /** A rule is expired exactly when it holds a run of eight digits or
      mentions one of the keywords in any ASCII letter case; the date
      pattern adds nothing. */
  lemma ExpiredIff(rule: string)
    ensures IsExpired(rule) <==>
      Matches(DigitRun, rule)
      || HasSubstring(Lower(rule), "expired") || HasSubstring(Lower(rule), "old")
      || HasSubstring(Lower(rule), "dead") || HasSubstring(Lower(rule), "invalid")
      || HasSubstring(Lower(rule), "test") || HasSubstring(Lower(rule), "example")
      || HasSubstring(Lower(rule), "dummy")
  {
    if IsExpired(rule) {
      var k :| 0 <= k < |ExpiredPatterns| && Matches(ExpiredPatterns[k], rule);
      if k == 1 {
        DateStampIsDigitRun(rule);
      }
    } else {
      assert !Matches(ExpiredPatterns[0], rule);
      forall k | 2 <= k < |ExpiredPatterns| ensures !HasSubstring(Lower(rule), ExpiredPatterns[k].word) {
        assert !Matches(ExpiredPatterns[k], rule);
      }
      assert ExpiredPatterns[2].word == "expired" && ExpiredPatterns[3].word == "old";
      assert ExpiredPatterns[4].word == "dead" && ExpiredPatterns[5].word == "invalid";
      assert ExpiredPatterns[6].word == "test" && ExpiredPatterns[7].word == "example";
      assert ExpiredPatterns[8].word == "dummy";
    }
  }

  /** The rules `_remove_expired_domains` keeps. */
  function LiveRules(rules: seq<string>): seq<string> {
    Filter(rules, IsLive)
  }

  /** The inner loop of `_remove_expired_domains`: the patterns are tried in
      order and the first match stops the search. */
  method MatchesAnyPattern(rule: string) returns (skip: bool)
    ensures skip <==> IsExpired(rule)
  {
    skip := false;
    var k := 0;
    while k < |ExpiredPatterns|
      invariant 0 <= k <= |ExpiredPatterns|
      invariant forall j :: 0 <= j < k ==> !Matches(ExpiredPatterns[j], rule)
    {
      if Matches(ExpiredPatterns[k], rule) {
        skip := true;
        break;
      }
      k := k + 1;
    }
  }

  /** `_remove_expired_domains`. */
  method RemoveExpiredDomains(rules: seq<string>) returns (filtered: seq<string>)
    ensures filtered == LiveRules(rules)
    ensures forall k :: 0 <= k < |filtered| ==> !IsExpired(filtered[k])
  {
    filtered := [];
    var i := 0;
    while i < |rules|
      invariant 0 <= i <= |rules|
      invariant filtered == LiveRules(rules[..i])
    {
      assert rules[..i + 1][..i] == rules[..i];
      var skip := MatchesAnyPattern(rules[i]);
      if !skip {
        filtered := filtered + [rules[i]];
      }
      i := i + 1;
    }
    assert rules[..|rules|] == rules;
  }

  // ---------------------------------------------------------------------
  // Merging similar rules

  /** `'.'.join(domain.split('.')[-2:])`: the last two labels. */
  function BaseDomain(domain: string): (base: string)
    ensures |Split(domain, '.')| <= 2 ==> base == domain
  {
    var parts := Split(domain, '.');
    JoinSplit(domain, '.');
    Join(parts[if |parts| >= 2 then |parts| - 2 else 0..], '.')
  }

  /** The three families of groups. */
  datatype GroupKind = AdblockRules | HostsRules | DomainRules

  /** Which group `_merge_similar_rules` puts a rule in. A hosts line with
      fewer than two fields lands in no group and is not kept either. */
  datatype MergeClass = Grouped(kind: GroupKind, base: string) | Ungrouped | Discarded

  function MergeClassOf(rule: string): MergeClass {
    if StartsWith(rule, "||") && '^' in rule then Grouped(AdblockRules, BaseDomain(AdblockDomainOf(rule)))
    else if IsHostsRule(rule) then
      var parts := Tokens(rule);
      if |parts| >= 2 then Grouped(HostsRules, BaseDomain(parts[1])) else Discarded
    else if MatchesDomainPattern(rule) then Grouped(DomainRules, BaseDomain(rule))
    else Ungrouped
  }

  predicate IsUngrouped(rule: string) {
    MergeClassOf(rule) == Ungrouped
  }

  /** A `defaultdict(list)` keyed by base domain: its keys in insertion
      order and the list of each key. */
  datatype Groups = Groups(order: seq<string>, members: map<string, seq<string>>)

  const NoGroups := Groups([], map[])

  ghost predicate GroupsValid(g: Groups) {
    NoDuplicates(g.order)
    && (forall b :: b in g.members <==> b in g.order)
    && (forall b :: b in g.members ==> |g.members[b]| > 0)
  }

  /** `groups[base].append(rule)`. */
  function Append(g: Groups, base: string, rule: string): (g': Groups)
    requires GroupsValid(g)
    ensures GroupsValid(g')
    ensures base in g'.members && g'.members[base] == (if base in g.members then g.members[base] else []) + [rule]
    ensures forall b :: b in g.members && b != base ==> b in g'.members && g'.members[b] == g.members[b]
    ensures forall b :: b in g'.members ==> b in g.members || b == base
  {
    if base in g.members then g.(members := g.members[base := g.members[base] + [rule]])
    else Groups(g.order + [base], g.members[base := [rule]])
  }

  /** The three group tables and the ungrouped rules. */
  datatype MergeTable = MergeTable(adblock: Groups, hosts: Groups, domain: Groups, others: seq<string>)
  {
    function GroupsOf(kind: GroupKind): Groups {
      match kind
      case AdblockRules => adblock
      case HostsRules => hosts
      case DomainRules => domain
    }

    function WithGroups(kind: GroupKind, g: Groups): (t: MergeTable)
      ensures t.GroupsOf(kind) == g && t.others == others
      ensures forall other :: other != kind ==> t.GroupsOf(other) == GroupsOf(other)
    {
      match kind
      case AdblockRules => this.(adblock := g)
      case HostsRules => this.(hosts := g)
      case DomainRules => this.(domain := g)
    }
  }

  ghost predicate MergeTableValid(m: MergeTable) {
    GroupsValid(m.adblock) && GroupsValid(m.hosts) && GroupsValid(m.domain)
  }

  /** One iteration of the grouping loop of `_merge_similar_rules`, for a
      rule whose class is `c`. */
  function Place(m: MergeTable, c: MergeClass, rule: string): (m': MergeTable)
    requires MergeTableValid(m)
    ensures MergeTableValid(m')
  {
    match c
    case Grouped(kind, b) => m.WithGroups(kind, Append(m.GroupsOf(kind), b, rule))
    case Ungrouped => m.(others := m.others + [rule])
    case Discarded => m
  }

  /** Each rule paired with its class. */
  function Classified(rules: seq<string>): (cs: seq<(MergeClass, string)>)
    ensures |cs| == |rules|
    ensures forall k :: 0 <= k < |rules| ==> cs[k] == (MergeClassOf(rules[k]), rules[k])
  {
    seq(|rules|, k requires 0 <= k < |rules| => (MergeClassOf(rules[k]), rules[k]))
  }

  lemma ClassifiedPrefix(rules: seq<string>, i: nat)
    requires i < |rules|
    ensures Classified(rules[..i + 1]) == Classified(rules[..i]) + [(MergeClassOf(rules[i]), rules[i])]
  {
  }

  /** The tables after the grouping loop has read rules of the given classes. */
  function GroupClassified(cs: seq<(MergeClass, string)>): (m: MergeTable)
    ensures MergeTableValid(m)
  {
    if |cs| == 0 then MergeTable(NoGroups, NoGroups, NoGroups, [])
    else Place(GroupClassified(cs[..|cs| - 1]), cs[|cs| - 1].0, cs[|cs| - 1].1)
  }

  /** The tables after the grouping loop has read `rules`. */
  function MergeGroups(rules: seq<string>): MergeTable {
    GroupClassified(Classified(rules))
  }

  /** The key `min` compares: the pair (length, 0 with a wildcard, else 1),
      folded into one number. */
  function MergeRank(rule: string): int {
    2 * |rule| + (if '*' in rule then 0 else 1)
  }

  /** The folded rank orders rules as Python orders the pairs. */
  lemma MergeRankIsLexicographic(x: string, y: string)
    ensures MergeRank(x) < MergeRank(y) <==> |x| < |y| || (|x| == |y| && '*' in x && '*' !in y)
  {
  }

  /** `min(group, key=...)`: the first rule of least rank. */
  function Best(group: seq<string>): (r: string)
    requires |group| > 0
    ensures r in group
    ensures forall k :: 0 <= k < |group| ==> MergeRank(r) <= MergeRank(group[k])
    ensures exists i :: 0 <= i < |group| && group[i] == r && forall j :: 0 <= j < i ==> MergeRank(group[j]) > MergeRank(r)
  {
    if |group| == 1 then group[0]
    else
      var init := group[..|group| - 1];
      var b := Best(init);
      var last := group[|group| - 1];
      assert forall k :: 0 <= k < |init| ==> init[k] == group[k];
      if MergeRank(last) < MergeRank(b) then last else b
  }

  /** The rule each group of `g` contributes, groups in key order. */
  function Representatives(g: Groups): (rs: seq<string>)
    requires GroupsValid(g)
    ensures |rs| == |g.order|
    ensures forall k :: 0 <= k < |rs| ==> rs[k] == Best(g.members[g.order[k]])
  {
    seq(|g.order|, k requires 0 <= k < |g.order| => Best(g.members[g.order[k]]))
  }

  /** What `_merge_similar_rules` returns once it runs: one rule per adblock
      group, then per hosts group, then per domain group, then the
      ungrouped rules. */
  function Merged(rules: seq<string>): seq<string> {
    MergedOf(MergeGroups(rules))
  }

  function MergedOf(m: MergeTable): seq<string>
    requires MergeTableValid(m)
  {
    Representatives(m.adblock) + Representatives(m.hosts) + Representatives(m.domain) + m.others
  }

  /** The grouping loop of `_merge_similar_rules`. */
  method GroupRules(rules: seq<string>) returns (m: MergeTable)
    ensures m == MergeGroups(rules)
  {
    var adblockGroups := NoGroups;
    var hostsGroups := NoGroups;
    var domainGroups := NoGroups;
    var otherRules: seq<string> := [];
    var i := 0;
    while i < |rules|
      invariant 0 <= i <= |rules|
      invariant MergeTable(adblockGroups, hostsGroups, domainGroups, otherRules) == MergeGroups(rules[..i])
    {
      ClassifiedPrefix(rules, i);
      var rule := rules[i];
      match MergeClassOf(rule) {
      case Grouped(AdblockRules, base) =>
        adblockGroups := Append(adblockGroups, base, rule);
      case Grouped(HostsRules, base) =>
        hostsGroups := Append(hostsGroups, base, rule);
      case Grouped(DomainRules, base) =>
        domainGroups := Append(domainGroups, base, rule);
      case Ungrouped =>
        otherRules := otherRules + [rule];
      case Discarded =>
      }
      i := i + 1;
    }
    assert rules[..|rules|] == rules;
    m := MergeTable(adblockGroups, hostsGroups, domainGroups, otherRules);
  }

  /** The inner emitting loop: one rule per group, the only rule of a
      singleton group and the best rule of a larger one. */
  method EmitGroups(g: Groups) returns (out: seq<string>)
    requires GroupsValid(g)
    ensures out == Representatives(g)
  {
    out := [];
    var k := 0;
    while k < |g.order|
      invariant 0 <= k <= |g.order|
      invariant out == Representatives(g)[..k]
    {
      var groupRules := g.members[g.order[k]];
      if |groupRules| == 1 {
        out := out + [groupRules[0]];
      } else {
        out := out + [Best(groupRules)];
      }
      k := k + 1;
    }
  }

  /** `_merge_similar_rules`. */
  method MergeSimilarRules(rules: seq<string>) returns (merged: seq<string>)
    ensures |rules| < MergeThreshold ==> merged == rules
    ensures |rules| >= MergeThreshold ==> merged == Merged(rules)
  {
    if |rules| < MergeThreshold {
      return rules;
    }
    var m := GroupRules(rules);
    var adblock := EmitGroups(m.adblock);
    var hosts := EmitGroups(m.hosts);
    var domain := EmitGroups(m.domain);
    merged := adblock + hosts + domain;
    merged := merged + m.others;
  }

  // ---------------------------------------------------------------------
  // Properties of the merge

  /** Every member of a group was read with that group's class. */
  ghost predicate GroupsSound(g: Groups, cs: seq<(MergeClass, string)>, kind: GroupKind) {
    forall b, x :: b in g.members && x in g.members[b] ==> (Grouped(kind, b), x) in cs
  }

  lemma PlaceSound(m: MergeTable, c: MergeClass, rule: string, cs: seq<(MergeClass, string)>, kind: GroupKind)
    requires MergeTableValid(m) && GroupsSound(m.GroupsOf(kind), cs, kind) && (c, rule) in cs
    ensures GroupsSound(Place(m, c, rule).GroupsOf(kind), cs, kind)
  {
    if c.Grouped? && c.kind == kind {
      var g := m.GroupsOf(kind);
      var g' := Append(g, c.base, rule);
      assert Place(m, c, rule).GroupsOf(kind) == g';
      forall b, x | b in g'.members && x in g'.members[b] ensures (Grouped(kind, b), x) in cs {
        if b == c.base && (b !in g.members || x !in g.members[b]) {
          assert x == rule;
        }
      }
    }
  }

  lemma GroupsSoundExtends(g: Groups, init: seq<(MergeClass, string)>, cs: seq<(MergeClass, string)>, kind: GroupKind)
    requires GroupsSound(g, init, kind) && forall p :: p in init ==> p in cs
    ensures GroupsSound(g, cs, kind)
  {
  }

  lemma {:induction false} GroupClassifiedSound(cs: seq<(MergeClass, string)>, kind: GroupKind)
    ensures GroupsSound(GroupClassified(cs).GroupsOf(kind), cs, kind)
    decreases |cs|
  {
    if |cs| > 0 {
      var init := cs[..|cs| - 1];
      GroupClassifiedSound(init, kind);
      GroupsSoundExtends(GroupClassified(init).GroupsOf(kind), init, cs, kind);
      PlaceSound(GroupClassified(init), cs[|cs| - 1].0, cs[|cs| - 1].1, cs, kind);
    }
  }

  /** A rule read with a group's class is a member of that group. */
  ghost predicate GroupsComplete(g: Groups, cs: seq<(MergeClass, string)>, kind: GroupKind) {
    forall b, x :: (Grouped(kind, b), x) in cs ==> b in g.members && x in g.members[b]
  }

  lemma PlaceComplete(m: MergeTable, c: MergeClass, rule: string, cs: seq<(MergeClass, string)>, kind: GroupKind)
    requires MergeTableValid(m) && GroupsComplete(m.GroupsOf(kind), cs, kind)
    ensures GroupsComplete(Place(m, c, rule).GroupsOf(kind), cs + [(c, rule)], kind)
  {
    if c.Grouped? && c.kind == kind {
      assert Place(m, c, rule).GroupsOf(kind) == Append(m.GroupsOf(kind), c.base, rule);
      AppendComplete(m.GroupsOf(kind), c.base, rule, cs, kind);
    } else {
      assert Place(m, c, rule).GroupsOf(kind) == m.GroupsOf(kind);
      OtherClassComplete(m.GroupsOf(kind), c, rule, cs, kind);
    }
  }

  /** Appending a rule to its group keeps every earlier placement. */
  lemma AppendComplete(g: Groups, base: string, rule: string, cs: seq<(MergeClass, string)>, kind: GroupKind)
    requires GroupsValid(g) && GroupsComplete(g, cs, kind)
    ensures GroupsComplete(Append(g, base, rule), cs + [(Grouped(kind, base), rule)], kind)
  {
    var g' := Append(g, base, rule);
    forall b, x | (Grouped(kind, b), x) in cs + [(Grouped(kind, base), rule)] ensures b in g'.members && x in g'.members[b] {
      if (Grouped(kind, b), x) in cs {
        assert x in g.members[b];
      }
    }
  }

  /** A rule of another class leaves the groups of `kind` complete. */
  lemma OtherClassComplete(g: Groups, c: MergeClass, rule: string, cs: seq<(MergeClass, string)>, kind: GroupKind)
    requires GroupsComplete(g, cs, kind) && !(c.Grouped? && c.kind == kind)
    ensures GroupsComplete(g, cs + [(c, rule)], kind)
  {
    forall b, x | (Grouped(kind, b), x) in cs + [(c, rule)] ensures b in g.members && x in g.members[b] {
      assert (Grouped(kind, b), x) in cs;
    }
  }

  lemma {:induction false} GroupClassifiedComplete(cs: seq<(MergeClass, string)>, kind: GroupKind)
    ensures GroupsComplete(GroupClassified(cs).GroupsOf(kind), cs, kind)
    decreases |cs|
  {
    if |cs| > 0 {
      var init := cs[..|cs| - 1];
      GroupClassifiedComplete(init, kind);
      PlaceComplete(GroupClassified(init), cs[|cs| - 1].0, cs[|cs| - 1].1, init, kind);
      assert init + [cs[|cs| - 1]] == cs;
    }
  }

  lemma ClassifiedInit(rules: seq<string>)
    requires |rules| > 0
    ensures Classified(rules)[..|rules| - 1] == Classified(rules[..|rules| - 1])
  {
  }

  /** The ungrouped rules pass through in their original order. */
  lemma {:induction false} MergeOthers(rules: seq<string>)
    ensures MergeGroups(rules).others == Filter(rules, IsUngrouped)
    decreases |rules|
  {
    if |rules| > 0 {
      MergeOthers(rules[..|rules| - 1]);
      ClassifiedInit(rules);
    }
  }

  /** Every member of a group of the merge tables is a rule of the input
      whose class names that group. */
  lemma MergeGroupsSound(rules: seq<string>, kind: GroupKind, b: string, x: string)
    requires b in MergeGroups(rules).GroupsOf(kind).members && x in MergeGroups(rules).GroupsOf(kind).members[b]
    ensures x in rules && MergeClassOf(x) == Grouped(kind, b)
  {
    GroupClassifiedSound(Classified(rules), kind);
    var g := MergeGroups(rules).GroupsOf(kind);
    var k :| 0 <= k < |g.members[b]| && g.members[b][k] == x;
    assert (Grouped(kind, b), x) in Classified(rules);
  }

  /** Every grouped rule of the input is a member of its group. */
  lemma MergeGroupsComplete(rules: seq<string>, k: nat)
    requires k < |rules| && MergeClassOf(rules[k]).Grouped?
    ensures var c := MergeClassOf(rules[k]); var g := MergeGroups(rules).GroupsOf(c.kind);
      c.base in g.members && rules[k] in g.members[c.base]
  {
    var c := MergeClassOf(rules[k]);
    GroupClassifiedComplete(Classified(rules), c.kind);
    assert Classified(rules)[k] == (Grouped(c.kind, c.base), rules[k]);
  }

  /** A table whose groups and ungrouped list hold only rules read with
      the matching class. */
  ghost predicate TableSound(m: MergeTable, cs: seq<(MergeClass, string)>) {
    GroupsSound(m.adblock, cs, AdblockRules) && GroupsSound(m.hosts, cs, HostsRules)
    && GroupsSound(m.domain, cs, DomainRules)
    && forall x :: x in m.others ==> (Ungrouped, x) in cs
  }

  lemma {:induction false} GroupClassifiedOthers(cs: seq<(MergeClass, string)>)
    ensures forall x :: x in GroupClassified(cs).others ==> (Ungrouped, x) in cs
    decreases |cs|
  {
    if |cs| > 0 {
      GroupClassifiedOthers(cs[..|cs| - 1]);
      assert forall p :: p in cs[..|cs| - 1] ==> p in cs;
    }
  }

  lemma GroupClassifiedTableSound(cs: seq<(MergeClass, string)>)
    ensures TableSound(GroupClassified(cs), cs)
  {
    GroupClassifiedSound(cs, AdblockRules);
    GroupClassifiedSound(cs, HostsRules);
    GroupClassifiedSound(cs, DomainRules);
    GroupClassifiedOthers(cs);
  }

  /** A rule read with some class has that class, and is a rule of the input. */
  lemma ClassifiedMember(rules: seq<string>, c: MergeClass, x: string)
    requires (c, x) in Classified(rules)
    ensures x in rules && MergeClassOf(x) == c
  {
    var k :| 0 <= k < |rules| && Classified(rules)[k] == (c, x);
  }

  /** Where the representatives of one kind of group start in the merged list. */
  function Offset(m: MergeTable, kind: GroupKind): nat {
    match kind
    case AdblockRules => 0
    case HostsRules => |m.adblock.order|
    case DomainRules => |m.adblock.order| + |m.hosts.order|
  }

  /** The class a position of the merged list stands for. */
  function SlotClass(m: MergeTable, j: nat): MergeClass {
    var a := |m.adblock.order|;
    var h := |m.hosts.order|;
    var d := |m.domain.order|;
    if j < a then Grouped(AdblockRules, m.adblock.order[j])
    else if j < a + h then Grouped(HostsRules, m.hosts.order[j - a])
    else if j < a + h + d then Grouped(DomainRules, m.domain.order[j - a - h])
    else Ungrouped
  }

  /** The representative of group `i` of a kind sits at `Offset + i`. */
  lemma MergedOfSegment(m: MergeTable, kind: GroupKind, i: nat)
    requires MergeTableValid(m) && i < |m.GroupsOf(kind).order|
    ensures Offset(m, kind) + i < |MergedOf(m)|
    ensures MergedOf(m)[Offset(m, kind) + i] == Best(m.GroupsOf(kind).members[m.GroupsOf(kind).order[i]])
    ensures SlotClass(m, Offset(m, kind) + i) == Grouped(kind, m.GroupsOf(kind).order[i])
  {
    MergedOfEntry(m, kind, i);
    SlotClassSegment(m, kind, i);
  }

  lemma MergedOfEntry(m: MergeTable, kind: GroupKind, i: nat)
    requires MergeTableValid(m) && i < |m.GroupsOf(kind).order|
    ensures GroupsValid(m.GroupsOf(kind))
    ensures Offset(m, kind) + i < |MergedOf(m)|
    ensures MergedOf(m)[Offset(m, kind) + i] == Representatives(m.GroupsOf(kind))[i]
  {
    var a, h, d := Representatives(m.adblock), Representatives(m.hosts), Representatives(m.domain);
    match kind
    case AdblockRules => SegmentIndex(a, h, d, m.others, 0, a, i);
    case HostsRules => SegmentIndex(a, h, d, m.others, |a|, h, i);
    case DomainRules => SegmentIndex(a, h, d, m.others, |a| + |h|, d, i);
  }

  lemma SlotClassSegment(m: MergeTable, kind: GroupKind, i: nat)
    requires i < |m.GroupsOf(kind).order|
    ensures SlotClass(m, Offset(m, kind) + i) == Grouped(kind, m.GroupsOf(kind).order[i])
  {
    var a, h := |m.adblock.order|, |m.hosts.order|;
    match kind
    case AdblockRules =>
      assert SlotClass(m, i) == Grouped(AdblockRules, m.adblock.order[i]);
    case HostsRules =>
      assert a + i - a == i;
      assert SlotClass(m, a + i) == Grouped(HostsRules, m.hosts.order[i]);
    case DomainRules =>
      assert a + h + i - a - h == i;
      assert SlotClass(m, a + h + i) == Grouped(DomainRules, m.domain.order[i]);
  }

  /** Every rule of the merged list was read with the class of its slot. */
  lemma MergedOfSlot(m: MergeTable, cs: seq<(MergeClass, string)>, j: nat)
    requires MergeTableValid(m) && TableSound(m, cs) && j < |MergedOf(m)|
    ensures (SlotClass(m, j), MergedOf(m)[j]) in cs
  {
    var a := |m.adblock.order|;
    var h := |m.hosts.order|;
    var d := |m.domain.order|;
    var x := MergedOf(m)[j];
    if j < a {
      var b := m.adblock.order[j];
      assert x == Best(m.adblock.members[b]);
    } else if j < a + h {
      var b := m.hosts.order[j - a];
      assert x == Best(m.hosts.members[b]);
    } else if j < a + h + d {
      var b := m.domain.order[j - a - h];
      assert x == Best(m.domain.members[b]);
    } else {
      assert x == m.others[j - a - h - d];
    }
  }

  /** Distinct slots of the merged list stand for distinct groups. */
  lemma SlotsDistinct(m: MergeTable, i: nat, j: nat)
    requires MergeTableValid(m) && i < j && SlotClass(m, i).Grouped?
    ensures SlotClass(m, i) != SlotClass(m, j)
  {
  }

  /** Merging only keeps rules of the input. */
  lemma MergedFromInput(rules: seq<string>)
    ensures forall k :: 0 <= k < |Merged(rules)| ==> Merged(rules)[k] in rules
  {
    var m := MergeGroups(rules);
    GroupClassifiedTableSound(Classified(rules));
    forall k | 0 <= k < |Merged(rules)| ensures Merged(rules)[k] in rules {
      MergedOfSlot(m, Classified(rules), k);
      ClassifiedMember(rules, SlotClass(m, k), Merged(rules)[k]);
    }
  }

  /** The class of each rule of the merged list is the class of its slot. */
  lemma MergedClass(rules: seq<string>, j: nat)
    requires j < |Merged(rules)|
    ensures MergeClassOf(Merged(rules)[j]) == SlotClass(MergeGroups(rules), j)
  {
    GroupClassifiedTableSound(Classified(rules));
    MergedOfSlot(MergeGroups(rules), Classified(rules), j);
    ClassifiedMember(rules, SlotClass(MergeGroups(rules), j), Merged(rules)[j]);
  }

  /** After merging, no two rules share a group: each adblock, hosts or
      domain group keyed by a base domain keeps exactly one rule. */
  lemma MergedOnePerGroup(rules: seq<string>, i: nat, j: nat)
    requires i < j < |Merged(rules)| && MergeClassOf(Merged(rules)[i]).Grouped?
    ensures MergeClassOf(Merged(rules)[i]) != MergeClassOf(Merged(rules)[j])
  {
    MergedClass(rules, i);
    MergedClass(rules, j);
    SlotsDistinct(MergeGroups(rules), i, j);
  }

  /** The slots past the representatives hold the ungrouped rules. */
  lemma MergedOfTail(m: MergeTable, j: nat)
    requires MergeTableValid(m) && j < |MergedOf(m)| && SlotClass(m, j) == Ungrouped
    ensures var t := |m.adblock.order| + |m.hosts.order| + |m.domain.order|;
      t <= j && MergedOf(m)[j] == m.others[j - t]
  {
  }

  /** Merging a list without repeats gives a list without repeats. */
  lemma MergedNoDuplicates(rules: seq<string>)
    requires NoDuplicates(rules)
    ensures NoDuplicates(Merged(rules))
  {
    var m := MergeGroups(rules);
    var merged := Merged(rules);
    MergeOthers(rules);
    FilterNoDuplicates(rules, IsUngrouped);
    forall i, j | 0 <= i < j < |merged| ensures merged[i] != merged[j] {
      MergedClass(rules, i);
      MergedClass(rules, j);
      if SlotClass(m, i).Grouped? {
        SlotsDistinct(m, i, j);
      } else if SlotClass(m, j) == Ungrouped {
        MergedOfTail(m, i);
        MergedOfTail(m, j);
      }
    }
  }

  predicate IsGrouped(rule: string) {
    MergeClassOf(rule).Grouped?
  }

  /** Merging never lengthens the list: the representatives are distinct
      grouped rules of the input and the ungrouped rules are kept once each. */
  lemma MergedShorter(rules: seq<string>)
    ensures |Merged(rules)| <= |rules|
  {
    var m := MergeGroups(rules);
    var merged := Merged(rules);
    var t := |m.adblock.order| + |m.hosts.order| + |m.domain.order|;
    var reps := merged[..t];
    var grouped := Filter(rules, IsGrouped);
    forall k | 0 <= k < |reps| ensures reps[k] in grouped && IsGrouped(reps[k]) {
      MergedClass(rules, k);
      MergedFromInput(rules);
      assert reps[k] == merged[k];
    }
    forall i, j | 0 <= i < j < |reps| ensures reps[i] != reps[j] {
      MergedClass(rules, i);
      MergedClass(rules, j);
      SlotsDistinct(m, i, j);
      assert reps[i] == merged[i] && reps[j] == merged[j];
    }
    DistinctDrawnShorter(reps, grouped);
    MergeOthers(rules);
    FilterDisjointCount(rules, IsGrouped, IsUngrouped);
  }

  /** Every member of a group of a table is represented in the merged list
      by a slot of that group whose rule ranks no worse than the member. */
  lemma MergedOfRepresents(m: MergeTable, kind: GroupKind, b: string, x: string)
    requires MergeTableValid(m) && b in m.GroupsOf(kind).members && x in m.GroupsOf(kind).members[b]
    ensures exists j :: (0 <= j < |MergedOf(m)| && SlotClass(m, j) == Grouped(kind, b)
      && MergeRank(MergedOf(m)[j]) <= MergeRank(x))
  {
    var i := GroupIndex(m, kind, b);
    MergedOfSegment(m, kind, i);
    BestRanksAtMost(m.GroupsOf(kind).members[b], x);
    assert SlotClass(m, Offset(m, kind) + i) == Grouped(kind, b);
  }

  /** The position of a group's base among the first-seen bases. */
  lemma GroupIndex(m: MergeTable, kind: GroupKind, b: string) returns (i: nat)
    requires MergeTableValid(m) && b in m.GroupsOf(kind).members
    ensures i < |m.GroupsOf(kind).order| && m.GroupsOf(kind).order[i] == b
  {
    var g := m.GroupsOf(kind);
    assert GroupsValid(g);
    assert b in g.order;
    i :| 0 <= i < |g.order| && g.order[i] == b;
  }

  /** The best rule of a group ranks no worse than any member. */
  lemma BestRanksAtMost(group: seq<string>, x: string)
    requires x in group
    ensures MergeRank(Best(group)) <= MergeRank(x)
  {
    var n :| 0 <= n < |group| && group[n] == x;
  }

  /** Every grouped rule of the input is represented in the merged list by
      a rule of the same class whose rank is no greater than its own. */
  lemma MergedRepresentsEveryGroup(rules: seq<string>, k: nat)
    requires k < |rules| && MergeClassOf(rules[k]).Grouped?
    ensures exists j :: (0 <= j < |Merged(rules)| && MergeClassOf(Merged(rules)[j]) == MergeClassOf(rules[k])
      && MergeRank(Merged(rules)[j]) <= MergeRank(rules[k]))
  {
    var m := MergeGroups(rules);
    var c := MergeClassOf(rules[k]);
    MergeGroupsComplete(rules, k);
    MergedOfRepresents(m, c.kind, c.base, rules[k]);
    var j :| 0 <= j < |MergedOf(m)| && SlotClass(m, j) == c && MergeRank(MergedOf(m)[j]) <= MergeRank(rules[k]);
    MergedClass(rules, j);
  }

  // ---------------------------------------------------------------------
  // The pass

  /** The rules left after the expiry step of the pass. */
  function AfterExpiry(cfg: Config, rules: seq<string>): seq<string> {
    if cfg.removeExpiredDomains then LiveRules(rules) else rules
  }

  /** The merge step applies: it is switched on and enough rules are left. */
  predicate MergeApplies(cfg: Config, rules: seq<string>) {
    cfg.mergeSimilarRules && |AfterExpiry(cfg, rules)| >= MergeThreshold
  }

  /** What `SecondaryOptimizer.optimize` returns. */
  function SecondaryOptimized(cfg: Config, rules: seq<string>): seq<string> {
    if !cfg.enableSecondaryOptimization || |rules| < SecondaryThreshold then rules
    else if MergeApplies(cfg, rules) then Merged(AfterExpiry(cfg, rules))
    else AfterExpiry(cfg, rules)
  }

  /** The pass only removes rules: it keeps rules of its input, drops every
      expired rule when asked to, and leaves one rule per group once the
      merge applies. */
  lemma SecondaryOptimizedProperties(cfg: Config, rules: seq<string>)
    ensures var r := SecondaryOptimized(cfg, rules);
      (forall k :: 0 <= k < |r| ==> r[k] in rules)
      && (cfg.enableSecondaryOptimization && |rules| >= SecondaryThreshold && cfg.removeExpiredDomains ==>
            forall k :: 0 <= k < |r| ==> !IsExpired(r[k]))
      && (cfg.enableSecondaryOptimization && |rules| >= SecondaryThreshold && MergeApplies(cfg, rules) ==>
            forall i, j :: 0 <= i < j < |r| && MergeClassOf(r[i]).Grouped? ==> MergeClassOf(r[i]) != MergeClassOf(r[j]))
      && (NoDuplicates(rules) ==> NoDuplicates(r))
      && |r| <= |rules|
  {
    var live := AfterExpiry(cfg, rules);
    var r := SecondaryOptimized(cfg, rules);
    assert forall x :: x in live ==> x in rules;
    if NoDuplicates(rules) {
      FilterNoDuplicates(rules, IsLive);
      if MergeApplies(cfg, rules) {
        MergedNoDuplicates(live);
      }
    }
    MergedShorter(live);
    if cfg.enableSecondaryOptimization && |rules| >= SecondaryThreshold && MergeApplies(cfg, rules) {
      MergedFromInput(live);
      forall i, j | 0 <= i < j < |r| && MergeClassOf(r[i]).Grouped?
        ensures MergeClassOf(r[i]) != MergeClassOf(r[j])
      {
        MergedOnePerGroup(live, i, j);
      }
      if cfg.removeExpiredDomains {
        forall k | 0 <= k < |r| ensures !IsExpired(r[k]) {
          assert r[k] in live;
        }
      }
    }
  }

  /** `SecondaryOptimizer.optimize`. */
  method Optimize(cfg: Config, rules: seq<string>) returns (result: seq<string>)
    ensures result == SecondaryOptimized(cfg, rules)
    ensures !cfg.enableSecondaryOptimization || |rules| < SecondaryThreshold ==> result == rules
  {
    if !cfg.enableSecondaryOptimization || |rules| < SecondaryThreshold {
      return rules;
    }
    var current := rules;
    if cfg.removeExpiredDomains {
      current := RemoveExpiredDomains(current);
    }
    if cfg.mergeSimilarRules {
      current := MergeSimilarRules(current);
    }
    result := current;
  }
}
