# ad-rule-automation: rule processing and rule checking, modelled in Dafny

ad-rule-automation collects ad-blocking rules from many public lists. It
turns them into one deduplicated, filtered and sorted rule set. It then
checks a sample of the domains in the published files for reachability.
This project models the two halves of that core:

- `scripts/smart_rule_processor.py`, the processing pipeline:
  - the line parser (`SmartRuleParser`);
  - the three-stage deduplicator (`MultiStageDeduplicator`): exact repeats, one rule per domain, subdomains of kept domains;
  - the optimiser (`AdvancedRuleOptimizer`): priority, validity and quality filters, per-kind caps, optional sorts;
  - the secondary pass (`SecondaryOptimizer`): expired-looking rules, and merging rules that share a base domain;
  - the processor object (`SmartRuleProcessor`), which parses the downloaded texts into `all_rules` and runs the stages in order.
- `scripts/rule_checker.py`, the self-check:
  - domain extraction from a rule file;
  - the sample-size rule and the random sample;
  - the reachable/unreachable status of one probe;
  - the per-file counts;
  - the totals accumulated over all files.

The modules follow the program's structure:

| file | module | models |
|---|---|---|
| `strings.dfy` | `Strings` | the Python string operations the code uses: `strip`, `split()`, `split(c)`, `startswith`, substring tests, `lower` |
| `seqs.dfy` | `Seqs` | list filtering, first occurrences, Python slicing with negative bounds, stable sorting |
| `option.dfy` | `Optional` | `Optional[str]` results |
| `settings.dfy` | `Settings` | the `Config` constants as one immutable record |
| `rule_shapes.dfy` | `RuleShapes` | the shapes of a rule: `DOMAIN_PATTERN`, adblock domain rules, hosts lines |
| `parser.dfy` | `RuleParser` | `SmartRuleParser` and the rules `_parse_contents` collects |
| `dedup.dfy` | `Deduplicator` | `MultiStageDeduplicator` |
| `optimizer.dfy` | `Optimizer` | `AdvancedRuleOptimizer` |
| `secondary.dfy` | `SecondaryOptimizer` | `SecondaryOptimizer` |
| `pipeline.dfy` | `Pipeline` | `SmartRuleProcessor` (`all_rules`, `final_rules`, `_parse_contents`, `process`) |
| `checker.dfy` | `RuleChecker` | `RuleChecker` in `rule_checker.py` |

Each stage that works through a list in a loop is a method, with its loop
invariants. It is proved equal to a specification function. The lemmas
state what the stage promises about that function. The processor and the
checker's running totals are classes whose methods update their fields.

## Model

| member | source | states |
|---|---|---|
| RuleParser.IsValidDomain | scripts/smart_rule_processor.py:239-258 | a domain is valid exactly when it is non-empty, within the configured length bounds, has no leading, trailing or doubled dot, and has none of the forbidden characters |
| RuleParser.DomainPatternValidity | scripts/smart_rule_processor.py:30 | a string matching `DOMAIN_PATTERN` passes `is_valid_domain` exactly when its length is within the configured bounds |
| RuleParser.IsValidRule | scripts/smart_rule_processor.py:215-236 | an accepted rule with a space is a hosts line; an accepted adblock domain rule, hosts line or bare domain has a valid domain; a rule of no recognised shape and without spaces is accepted |
| RuleParser.ParseLine | scripts/smart_rule_processor.py:196-212 | a parsed line is the stripped line, non-empty, within the length limit, not a comment when comments are skipped, and a valid rule; every stripped line meeting all of those is returned |
| RuleParser.ParsedRulesWellFormed | scripts/smart_rule_processor.py:997-1015 | every rule `_parse_contents` collects meets all of `parse_line`'s conditions |
| Pipeline.SmartRuleProcessor.constructor | scripts/smart_rule_processor.py:875-876 | a new processor has empty `all_rules` and `final_rules` |
| Pipeline.SmartRuleProcessor.ParseContents | scripts/smart_rule_processor.py:997-1015 | `all_rules` grows by exactly the parsed lines of every text, texts in the given order, and stays well formed |
| Pipeline.SmartRuleProcessor.ParseLines | scripts/smart_rule_processor.py:1003-1006 | one text's lines are parsed in order and each accepted line is appended to `all_rules` |
| Pipeline.StagesCompose | scripts/smart_rule_processor.py:901-935 | what each stage promises, chained: a rule leaving the last stage was parsed, is well formed, passed the quality test and has a known kind |
| Pipeline.RunStages | scripts/smart_rule_processor.py:905-926 | the result is the secondary pass of the optimised list of an outcome of deduplication; every result rule is an input rule, well formed, of acceptable quality and of a known kind; the total cap holds; with exact-repeat removal on there are no repeats |
| Pipeline.SmartRuleProcessor.Process | scripts/smart_rule_processor.py:878-935 | `all_rules` grows by the parsed texts, and `final_rules` is the secondary pass of the optimised list of an outcome of deduplicating `all_rules`; every final rule was collected, is well formed, of acceptable quality and of a known kind; the total cap holds; with exact-repeat removal on there are no repeats |
| Deduplicator.ExtractDomainOfBareDomain | scripts/smart_rule_processor.py:416-426 | `_extract_domain` returns the rule itself exactly when the rule is a bare domain, and never anything longer than the rule |
| Deduplicator.MoreGeneralIrreflexive | scripts/smart_rule_processor.py:428-442 | no rule is more general than itself |
| Deduplicator.MoreGeneralNotAntisymmetric | scripts/smart_rule_processor.py:428-442 | a short rule not starting with a double bar and a longer one that does are each "more general" than the other |
| Deduplicator.HashDeduplicate | scripts/smart_rule_processor.py:299-321 | the result is the first occurrence of each rule, in input order: no repeats, and every input rule still present |
| Deduplicator.DomainDeduplicate | scripts/smart_rule_processor.py:323-356 | the loop computes the per-domain table followed by the rules without a domain |
| Deduplicator.DomainDedupOnePerDomain | scripts/smart_rule_processor.py:332-347 | after domain deduplication no two rules have the same domain |
| Deduplicator.DomainDedupKeeps | scripts/smart_rule_processor.py:332-347 | every kept rule comes from the input, every domain of the input keeps one rule, and every rule without a domain survives |
| Deduplicator.DomainDedupOthers | scripts/smart_rule_processor.py:343-347 | the rules without a domain are kept in their input order |
| Deduplicator.DomainDedupLaterRule | scripts/smart_rule_processor.py:332-342 | after any prefix, a rule with a domain replaces the kept rule of that domain exactly when the domain is new or the rule is more general; other domains keep their rules and first-seen order, and the rules without a domain are unchanged |
| Deduplicator.DomainDedupOrderDependent | scripts/smart_rule_processor.py:336-342 | when two rules of one domain are each more general than the other, the later one is kept, so the outcome depends on input order |
| Deduplicator.DomainDedupNoDuplicates | scripts/smart_rule_processor.py:323-356 | domain deduplication introduces no repeats |
| Deduplicator.BuildSubdomainTable | scripts/smart_rule_processor.py:367-375 | the loop builds the domain-to-rule map and the list of rules without a domain |
| Deduplicator.SubdomainTableLastWins | scripts/smart_rule_processor.py:370-373 | the rule stored for a domain is the last input rule with that domain |
| Deduplicator.IsSubdomain | scripts/smart_rule_processor.py:394-399 | the parent scan reports a subdomain exactly when some proper dot-suffix of the domain is a key of the map |
| Deduplicator.KeptDomainSet | scripts/smart_rule_processor.py:387-403 | the kept domains are exactly the keys with no parent among the keys |
| Deduplicator.RulesOfDomains | scripts/smart_rule_processor.py:405 | the list holds exactly the rules of the kept domains, once each |
| Deduplicator.KeptDomainsIndependent | scripts/smart_rule_processor.py:387-403 | no kept domain is a dot-suffix of another kept domain |
| Deduplicator.DroppedHasKeptAncestor | scripts/smart_rule_processor.py:387-403 | every dropped domain has a kept ancestor |
| Deduplicator.SubdomainOptimize | scripts/smart_rule_processor.py:358-414 | below 10000 rules the list is unchanged; otherwise the result is the kept domains' rules, in some order, then the rules without a domain in input order |
| Deduplicator.SubdomainDistinct | scripts/smart_rule_processor.py:358-414 | the subdomain stage leaves one rule per domain and introduces no repeats |
| Deduplicator.SubdomainCovers | scripts/smart_rule_processor.py:387-405 | every domain of the input is still covered by a kept domain that equals it or is its parent |
| Deduplicator.SubdomainKeepsOthers | scripts/smart_rule_processor.py:405 | every rule without a domain survives the subdomain stage |
| Deduplicator.DropsOnlyTransitive | scripts/smart_rule_processor.py:284-294 | "only drops rules, and keeps every domain covered" composes across stages |
| Deduplicator.Deduplicate | scripts/smart_rule_processor.py:271-297 | the result is the enabled stages applied in order (first occurrences, then one rule per domain, then the subdomain stage, which fixes its result up to order); an empty input gives an empty list; the result only drops rules and keeps every domain covered; with hash deduplication there are no repeats; with domain deduplication one rule per domain; with every stage off the list is unchanged |
| Optimizer.FilterByPriority | scripts/smart_rule_processor.py:485-502 | keeps, in order, exactly the rules whose score reaches the minimum priority |
| Optimizer.ValidateRules | scripts/smart_rule_processor.py:504-520 | keeps, in order, exactly the rules `is_valid_rule` accepts |
| Optimizer.DomainRulePassesQuality | scripts/smart_rule_processor.py:542-560 | a bare domain of 3 to 500 characters is never low quality |
| Optimizer.AdblockLabelLimit | scripts/smart_rule_processor.py:553-557 | an adblock domain rule that passes the length and special-character tests is low quality exactly when its domain has more than four dots |
| Optimizer.FilterByQuality | scripts/smart_rule_processor.py:522-540 | keeps, in order, exactly the rules that are not low quality |
| Optimizer.ArrangedProperties | scripts/smart_rule_processor.py:588-594 | the optional sorts only reorder, leave the list ordered by the last key used, and change nothing when both are off |
| Optimizer.Classify | scripts/smart_rule_processor.py:567-577 | the three lists hold, in input order, exactly the adblock, hosts and bare-domain rules |
| Optimizer.ClassifyAndLimit | scripts/smart_rule_processor.py:562-605 | the result is the capped buckets, adblock then hosts then domain, sorted as configured: a permutation of the capped list |
| Optimizer.CappedBounds | scripts/smart_rule_processor.py:571-586 | every capped rule comes from the input and has a kind; each non-negative per-kind cap and the total cap hold |
| Optimizer.UnderCapsNothingLost | scripts/smart_rule_processor.py:580-586 | when every bucket and their sum fit the caps, no rule of a known kind is dropped |
| Optimizer.CappedNoDuplicates | scripts/smart_rule_processor.py:567-586 | classifying and capping introduces no repeats |
| Optimizer.FilteredProperties | scripts/smart_rule_processor.py:465-473 | a rule passing the filters comes from the input and meets every enabled test; no repeats are introduced |
| Optimizer.OptimizedProperties | scripts/smart_rule_processor.py:455-483 | an optimised rule comes from the input, passed every enabled filter and has a kind; the total cap holds; no repeats are introduced; with length sorting the result is ordered by length |
| Optimizer.Optimize | scripts/smart_rule_processor.py:455-483 | `optimize` computes the specified result, with the guarantees above |
| SecondaryOptimizer.DateStampIsDigitRun | scripts/smart_rule_processor.py:648-649 | every rule the date-stamp pattern catches is already caught by the eight-digit pattern |
| SecondaryOptimizer.ExpiredIff | scripts/smart_rule_processor.py:647-660 | a rule counts as expired exactly when it holds eight digits in a row or contains one of the seven keywords in any letter case |
| SecondaryOptimizer.MatchesAnyPattern | scripts/smart_rule_processor.py:656-660 | the pattern loop sets `skip` exactly when some expired pattern matches |
| SecondaryOptimizer.RemoveExpiredDomains | scripts/smart_rule_processor.py:641-670 | keeps, in order, exactly the rules no expired pattern matches |
| SecondaryOptimizer.BaseDomain | scripts/smart_rule_processor.py:689 | a domain with at most one dot is its own base domain |
| SecondaryOptimizer.MergeRankIsLexicographic | scripts/smart_rule_processor.py:712-715 | the merge key orders rules by length first, and among equal lengths puts a rule with `*` first |
| SecondaryOptimizer.Best | scripts/smart_rule_processor.py:708-716 | the chosen rule is a member of its group with the least key, and the first such member |
| SecondaryOptimizer.GroupRules | scripts/smart_rule_processor.py:686-701 | the grouping loop builds the specified three group tables and the ungrouped list |
| SecondaryOptimizer.MergeGroupsSound | scripts/smart_rule_processor.py:686-701 | every member of a group is an input rule of that group's kind and base domain |
| SecondaryOptimizer.MergeGroupsComplete | scripts/smart_rule_processor.py:686-701 | every input rule of a grouped kind sits in the group of its base domain |
| SecondaryOptimizer.MergeOthers | scripts/smart_rule_processor.py:700-701 | the ungrouped rules are kept in their input order |
| SecondaryOptimizer.EmitGroups | scripts/smart_rule_processor.py:704-716 | one representative per group, groups in first-seen order |
| SecondaryOptimizer.MergeSimilarRules | scripts/smart_rule_processor.py:672-725 | below 5000 rules the list is unchanged; otherwise the result is the specified merged list |
| SecondaryOptimizer.MergedFromInput | scripts/smart_rule_processor.py:703-718 | every merged rule comes from the input |
| SecondaryOptimizer.MergedOnePerGroup | scripts/smart_rule_processor.py:703-718 | no two merged rules share a kind and base domain |
| SecondaryOptimizer.MergedRepresentsEveryGroup | scripts/smart_rule_processor.py:703-718 | every group of the input keeps a rule whose key is at most that of any member |
| SecondaryOptimizer.MergedNoDuplicates | scripts/smart_rule_processor.py:703-718 | merging introduces no repeats |
| SecondaryOptimizer.MergedShorter | scripts/smart_rule_processor.py:703-718 | merging never lengthens the list |
| SecondaryOptimizer.SecondaryOptimizedProperties | scripts/smart_rule_processor.py:617-639 | every result rule comes from the input; with expiry removal on none is expired; when merging applies one rule per group; no repeats are introduced; the list never grows |
| SecondaryOptimizer.Optimize | scripts/smart_rule_processor.py:617-639 | the pass computes the specified result and is the identity when disabled or below 1000 rules |
| RuleChecker.Candidate | scripts/rule_checker.py:60-61 | a candidate is kept exactly when it is non-empty and contains a dot |
| RuleChecker.LineDomain | scripts/rule_checker.py:52-78 | a domain taken from a line is non-empty and contains a dot |
| RuleChecker.AdblockLineDomain | scripts/rule_checker.py:58-62 | an adblock line yields the stripped text between `||` and the first `^` when it is non-empty and has a dot, and nothing otherwise, never falling through to the later tests; the domain has no `^` and only characters of the line |
| RuleChecker.HostsLineDomain | scripts/rule_checker.py:65-71 | from a hosts line the domain is the second whitespace-separated field, without whitespace |
| RuleChecker.PlainLineDomain | scripts/rule_checker.py:74-78 | a line of no other shape yields the stripped text before its first `#` when the line has a dot, no space and no leading bar, `/` or `*`, and that text is non-empty with a dot; otherwise nothing; the domain has no `#` and no space |
| RuleChecker.CollectedIff | scripts/rule_checker.py:52-78 | the collected set holds exactly the domains some line yields |
| RuleChecker.DomainsOfIff | scripts/rule_checker.py:42-83 | a domain is extracted from a file exactly when some line of it yields that domain; each has a dot |
| RuleChecker.ListOf | scripts/rule_checker.py:83 | `list(domains)` holds each member of the set exactly once |
| RuleChecker.ExtractDomains | scripts/rule_checker.py:42-83 | the list has no repeats, as many entries as distinct extracted domains, exactly those domains, and each has a dot |
| RuleChecker.SampleSize | scripts/rule_checker.py:131-137 | the sample size is at least the minimum, and is either the minimum or at most both the maximum and the percentage of the total |
| RuleChecker.SampleSizeMonotone | scripts/rule_checker.py:131-137 | a larger file never gets a smaller sample size |
| RuleChecker.SampleDomains | scripts/rule_checker.py:124-143 | an empty list gives no sample; a list no longer than the sample size is returned whole; otherwise the sample is that many entries at distinct positions; the sample has the smaller of the two lengths, holds only listed domains, and has no repeats when the list has none |
| RuleChecker.SampleDistinct | scripts/rule_checker.py:143 | a sample drawn at distinct positions from a list without repeats has no repeats |
| RuleChecker.CheckDomain | scripts/rule_checker.py:85-122 | the result names the domain; a TCP success implies a DNS success; the status is an error exactly when the probe raised |
| RuleChecker.ReachableIffResolved | scripts/rule_checker.py:113 | a domain is reachable exactly when its DNS lookup succeeded |
| RuleChecker.Summarize | scripts/rule_checker.py:194-209 | a file summary records the total and the number checked, and its reachable and unreachable counts never exceed the number checked |
| RuleChecker.ProbedCounts | scripts/rule_checker.py:194-196 | the reachable results are exactly the sampled domains whose lookup succeeded, and the unreachable ones those probed that did not resolve |
| RuleChecker.CountsCoverProbed | scripts/rule_checker.py:194-195 | when no probe raised, the reachable and unreachable counts add up to the number checked |
| RuleChecker.ProbeAll | scripts/rule_checker.py:171-191 | each sampled domain gets exactly its own check result |
| RuleChecker.CheckRulesFile | scripts/rule_checker.py:145-214 | the probed sample is distinct domains of the file, as many as the smaller of the total and the sample size; the total is the number of distinct domains; the reachable count is the number of sampled domains that resolved and the unreachable count those probed that did not; the counts fill the number checked when no probe raises |
| RuleChecker.CheckStats.constructor | scripts/rule_checker.py:30-39 | the totals start at zero |
| RuleChecker.CheckStats.Record | scripts/rule_checker.py:247-250 | one file's counts are added to the three totals |
| RuleChecker.RunChecks | scripts/rule_checker.py:216-250 | with no rule files the run fails; otherwise every file gets the summary `check_rules_file` reports for it (its domains, a sample, and the counts of the sample that did and did not resolve) and the totals are the sums of the per-file counts |

## Left out

- Downloading, the thread pool, `signal.alarm`, the periodic `_check_timeout` calls and the exception handlers in `process` are not modelled. The downloaded texts arrive as a sequence, in a fixed order. `process` is modelled from parsing to `final_rules`.
- Saving the output files, the partial-result save, the reports and `process`'s boolean result are not modelled. `RuleOutputManager` is not part of this model.
- Every `stats` dictionary, elapsed time and progress `print` is left out. They only observe the stages.
- HashDeduplicate: compares the rules themselves, not their MD5 digests. It therefore does not model an MD5 collision merging two different rules.
- SubdomainOptimize: the domain tree that `_subdomain_optimize` builds is never read, so it is not modelled. The order of the kept rules comes from iterating a Python `set`; the model allows any order, without repeats.
- ExtractDomains: the order of `list(domains)` is the iteration order of a Python `set`; the model allows any order.
- SampleDomains: `random.sample` is modelled as an unspecified choice of distinct positions. The distribution is not modelled.
- CheckDomain: the DNS lookup and the TCP connect are a `Probe` value supplied by the caller. The socket calls, the timeout, the response time and the timestamp are left out.
- CheckRulesFile: results arrive in completion order, which is not modelled. The counts do not depend on it. The average response time, the reachability rate and the first-twenty cut of `results` are floating-point or report data and are left out.
- RunChecks: the rule files are given as their contents. Finding them under `OUTPUT_DIR`, the missing-directory case and reading each file are left out. A missing directory fails the run like an empty one.
- SampleSize: the sample percentage is a natural number and `int(total * percent / 100)` is floor division. A fractional percentage is not modelled.
- The priority score (`get_priority_score` in `config/settings.py`) is a function held in the configuration. Its definition is not part of this model.
- Whitespace is ASCII whitespace as `str.isspace` defines it. Non-ASCII whitespace is left out. `re.IGNORECASE` and `\d` are applied to ASCII letters and digits only.
- ArrangedProperties: states that the sorts are permutations and ordered by the last key. The stability of Python's sort is in the model's definition, but no lemma states it.
- SecondaryOptimizer.GroupRules: a line starting with `0.0.0.0 ` or `127.0.0.1 ` that has fewer than two fields is dropped by the merge, as the source does.
