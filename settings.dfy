/** The configuration the stages read. In the program it is a process-wide
    class of constants; here it is one immutable record that every stage
    receives as a parameter. */
module Settings {

  datatype Config = Config(
    // parsing
    skipCommentLines: bool,
    parseMaxLineLength: int,
    minDomainLength: int,
    maxDomainLength: int,
    // deduplication stages
    hashDedupEnabled: bool,
    domainDedupEnabled: bool,
    subdomainOptimization: bool,
    // optimisation
    minRulePriority: int,
    enableRuleValidation: bool,
    maxAdblockRules: int,
    maxHostsRules: int,
    maxDomainRules: int,
    maxTotalRules: int,
    sortByPriority: bool,
    sortByLength: bool,
    // secondary optimisation
    enableSecondaryOptimization: bool,
    removeExpiredDomains: bool,
    mergeSimilarRules: bool,
    /** The scoring function of the program's configuration; its definition
        is not part of this model, so it is left as a parameter. */
    priorityScore: string -> int,
    // reachability checks
    ruleCheckMinSample: nat,
    ruleCheckMaxSample: nat,
    ruleCheckSamplePercent: nat
  )
}
