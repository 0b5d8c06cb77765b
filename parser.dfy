/** `SmartRuleParser` and the line-by-line parse of the downloaded sources:
    each raw line becomes either nothing or its stripped text. */
module RuleParser {
  import opened Strings
  import opened Optional
  import opened Settings
  import opened RuleShapes

  /** The characters a domain may not contain. */
  const InvalidDomainChars: string := " @!#$%^&*()=+[]{}|\\;:'\"<>,?/"

  /** `is_valid_domain`: non-empty, within the configured length bounds, no
      empty label (no leading, trailing or doubled dot) and none of the
      forbidden characters. */
  function IsValidDomain(cfg: Config, domain: string): (ok: bool)
    ensures ok <==>
      && |domain| > 0
      && cfg.minDomainLength <= |domain| <= cfg.maxDomainLength
      && domain[0] != '.' && domain[|domain| - 1] != '.'
      && (forall k :: 0 <= k < |domain| - 1 ==> !(domain[k] == '.' && domain[k + 1] == '.'))
      && (forall k :: 0 <= k < |domain| ==> domain[k] !in InvalidDomainChars)
  {
    HasDoubledChar(domain, '.');
    if |domain| == 0 then false
    else if |domain| < cfg.minDomainLength || |domain| > cfg.maxDomainLength then false
    else if HasSubstring(domain, "..") || domain[0] == '.' || domain[|domain| - 1] == '.' then false
    else forall k :: 0 <= k < |InvalidDomainChars| ==> InvalidDomainChars[k] !in domain
  }

  /** For a string the domain pattern matches, validity comes down to the
      configured length bounds. */
  lemma DomainPatternValidity(cfg: Config, s: string)
    requires MatchesDomainPattern(s)
    ensures IsValidDomain(cfg, s) <==> cfg.minDomainLength <= |s| <= cfg.maxDomainLength
  {
    DomainPatternChars(s);
    forall k | 0 <= k < |s| ensures s[k] !in InvalidDomainChars {
      PatternCharIsAllowed(s[k]);
    }
  }

  lemma PatternCharIsAllowed(c: char)
    requires DomainPatternChar(c)
    ensures c !in InvalidDomainChars
  {
    InvalidCharsOutsidePattern();
  }

  /** None of the forbidden characters is one the domain pattern allows. */
  lemma InvalidCharsOutsidePattern()
    ensures forall k :: 0 <= k < |InvalidDomainChars| ==> !DomainPatternChar(InvalidDomainChars[k])
  {
  }

  /** `is_valid_rule`: a space is allowed only in a hosts line; the domain of
      an adblock `||domain^` rule, of a hosts line and of a bare domain must
      be valid; any other space-free line is accepted. */
  function IsValidRule(cfg: Config, rule: string): (ok: bool)
    ensures ok && ' ' in rule ==> StartsWith(rule, "0.0.0.0") || StartsWith(rule, "127.0.0.1")
    ensures ok && IsAdblockDomainRule(rule) ==> IsValidDomain(cfg, AdblockDomainOf(rule))
    ensures ok && IsHostsRule(rule) && |Tokens(rule)| >= 2 ==> IsValidDomain(cfg, Tokens(rule)[1])
    ensures ok && MatchesDomainPattern(rule) ==> IsValidDomain(cfg, rule)
    ensures ' ' !in rule && !IsAdblockDomainRule(rule) && !MatchesDomainPattern(rule) ==> ok
  {
    DomainPatternShape(rule);
    HostsRuleHasSpace(rule);
    AdblockIsNotHosts(rule);
    if ' ' in rule && !(StartsWith(rule, "0.0.0.0") || StartsWith(rule, "127.0.0.1")) then false
    else if IsAdblockDomainRule(rule) then IsValidDomain(cfg, AdblockDomainOf(rule))
    else if IsHostsRule(rule) && |Tokens(rule)| >= 2 then IsValidDomain(cfg, Tokens(rule)[1])
    else if MatchesDomainPattern(rule) then IsValidDomain(cfg, rule)
    else true
  }

  /** A comment line: one that starts with `!` or `#`. */
  predicate IsComment(line: string) {
    |line| > 0 && (line[0] == '!' || line[0] == '#')
  }

  /** `parse_line`: the stripped line when it is non-empty, not a skipped
      comment, within the length limit and a valid rule; nothing otherwise. */
  function ParseLine(cfg: Config, line: string): (r: Option<string>)
    ensures r.Some? ==> r.value == Strip(line)
    ensures r.Some? ==> 0 < |r.value| <= cfg.parseMaxLineLength && IsValidRule(cfg, r.value)
    ensures r.Some? && cfg.skipCommentLines ==> !IsComment(r.value)
    ensures var l := Strip(line);
      0 < |l| <= cfg.parseMaxLineLength && !(cfg.skipCommentLines && IsComment(l)) && IsValidRule(cfg, l)
      ==> r == Some(l)
  {
    var l := Strip(line);
    if |l| == 0 || (cfg.skipCommentLines && (l[0] == '!' || l[0] == '#')) then None
    else if |l| > cfg.parseMaxLineLength then None
    else if !IsValidRule(cfg, l) then None
    else Some(l)
  }

  /** The rules parsed from a list of lines, in line order. */
  function ParsedLines(cfg: Config, lines: seq<string>): seq<string> {
    if |lines| == 0 then []
    else
      ParsedLines(cfg, lines[..|lines| - 1])
      + match ParseLine(cfg, lines[|lines| - 1]) case Some(rule) => [rule] case None => []
  }

  /** The rules `_parse_contents` collects: every source's content is cut at
      line feeds and parsed line by line, sources in the given order. */
  function ParsedRules(cfg: Config, contents: seq<string>): seq<string> {
    if |contents| == 0 then []
    else ParsedRules(cfg, contents[..|contents| - 1]) + ParsedLines(cfg, Split(contents[|contents| - 1], '\n'))
  }

  /** One more text appends its parsed lines. */
  lemma ParsedRulesSnoc(cfg: Config, contents: seq<string>, i: nat)
    requires i < |contents|
    ensures ParsedRules(cfg, contents[..i + 1]) == ParsedRules(cfg, contents[..i]) + ParsedLines(cfg, Split(contents[i], '\n'))
  {
    assert contents[..i + 1][..i] == contents[..i];
  }

  /** One more line appends its parsed rule, if any. */
  lemma ParsedLinesSnoc(cfg: Config, lines: seq<string>, j: nat, parsed: Option<string>)
    requires j < |lines| && parsed == ParseLine(cfg, lines[j])
    ensures parsed.Some? ==> ParsedLines(cfg, lines[..j + 1]) == ParsedLines(cfg, lines[..j]) + [parsed.value]
    ensures parsed.None? ==> ParsedLines(cfg, lines[..j + 1]) == ParsedLines(cfg, lines[..j])
  {
    var longer := lines[..j + 1];
    assert longer[..|longer| - 1] == lines[..j] && longer[|longer| - 1] == lines[j];
  }

  /** What every parsed rule satisfies. */
  predicate WellFormedRule(cfg: Config, rule: string) {
    && 0 < |rule| <= cfg.parseMaxLineLength
    && '\n' !in rule
    && !IsSpace(rule[0]) && !IsSpace(rule[|rule| - 1])
    && !(cfg.skipCommentLines && IsComment(rule))
    && IsValidRule(cfg, rule)
  }

  /** A parsed line is a well-formed rule whenever the line has no line feed. */
  lemma ParseLineWellFormed(cfg: Config, line: string)
    requires '\n' !in line
    ensures ParseLine(cfg, line).Some? ==> WellFormedRule(cfg, ParseLine(cfg, line).value)
  {
    StripKeepsChars(line);
  }

  lemma {:induction false} ParsedLinesWellFormed(cfg: Config, lines: seq<string>)
    requires forall k :: 0 <= k < |lines| ==> '\n' !in lines[k]
    ensures forall k :: 0 <= k < |ParsedLines(cfg, lines)| ==> WellFormedRule(cfg, ParsedLines(cfg, lines)[k])
    decreases |lines|
  {
    if |lines| > 0 {
      ParsedLinesWellFormed(cfg, lines[..|lines| - 1]);
      ParseLineWellFormed(cfg, lines[|lines| - 1]);
    }
  }

  /** Every rule the parse stage produces is non-empty, no longer than the
      line limit, free of line feeds and surrounding whitespace, not a
      skipped comment, and a valid rule. */
  lemma {:induction false} ParsedRulesWellFormed(cfg: Config, contents: seq<string>)
    ensures forall k :: 0 <= k < |ParsedRules(cfg, contents)| ==> WellFormedRule(cfg, ParsedRules(cfg, contents)[k])
    decreases |contents|
  {
    if |contents| > 0 {
      ParsedRulesWellFormed(cfg, contents[..|contents| - 1]);
      ParsedLinesWellFormed(cfg, Split(contents[|contents| - 1], '\n'));
    }
  }
}
