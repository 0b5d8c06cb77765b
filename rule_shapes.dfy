/** A rule is a plain string; each stage re-derives what kind of rule it is
    from these prefix and pattern tests. */
module RuleShapes {
  import opened Strings

  /** One label of the domain grammar: 1 to 63 letters, digits or hyphens,
      starting and ending with a letter or digit. */
  predicate IsLabel(s: string) {
    1 <= |s| <= 63 && IsAlnum(s[0]) && IsAlnum(s[|s| - 1])
    && forall k :: 0 <= k < |s| ==> IsAlnum(s[k]) || s[k] == '-'
  }

  /** The final label: at least two ASCII letters. */
  predicate IsTld(s: string) {
    |s| >= 2 && forall k :: 0 <= k < |s| ==> IsAlpha(s[k])
  }

  /** One or more labels, each followed by a dot, then a top-level label. */
  predicate IsDomainName(s: string) {
    var parts := Split(s, '.');
    |parts| >= 2 && IsTld(parts[|parts| - 1])
    && forall k :: 0 <= k < |parts| - 1 ==> IsLabel(parts[k])
  }

  /** `DOMAIN_PATTERN.match(s)`. The pattern ends in `$`, which in Python also
      matches just before a final line feed. */
  predicate MatchesDomainPattern(s: string) {
    IsDomainName(s) || (|s| > 0 && s[|s| - 1] == '\n' && IsDomainName(s[..|s| - 1]))
  }

  /** `rule.startswith('||') and '^' in rule`. */
  predicate IsAdblockDomainRule(rule: string) {
    StartsWith(rule, "||") && '^' in rule
  }

  /** `rule[2:].split('^')[0]`: the text between `||` and the first `^`. */
  function AdblockDomainOf(rule: string): (d: string)
    requires StartsWith(rule, "||")
    ensures '^' !in d
    ensures StartsWith(rule[2..], d) && (|d| < |rule| - 2 ==> rule[2 + |d|] == '^')
  {
    SplitHead(rule[2..], '^');
    Split(rule[2..], '^')[0]
  }

  /** `rule.startswith(('0.0.0.0 ', '127.0.0.1 '))`. */
  predicate IsHostsRule(rule: string) {
    StartsWith(rule, "0.0.0.0 ") || StartsWith(rule, "127.0.0.1 ")
  }

  /** A domain name is made of letters, digits, hyphens and single dots; it
      starts with a letter or digit and ends with a letter. */
  lemma DomainNameChars(s: string)
    requires IsDomainName(s)
    ensures |s| > 0 && IsAlnum(s[0]) && IsAlpha(s[|s| - 1])
    ensures forall m :: 0 <= m < |s| ==> IsAlnum(s[m]) || s[m] == '-' || s[m] == '.'
    ensures forall m :: 0 <= m < |s| - 1 ==> !(s[m] == '.' && s[m + 1] == '.')
  {
    var parts := Split(s, '.');
    SplitHead(s, '.');
    assert s[0] == parts[0][0];
    SplitTail(s, '.');
    var t := parts[|parts| - 1];
    assert s[|s| - 1] == t[|t| - 1];
    SplitCovers(s, '.', ch => IsAlnum(ch) || ch == '-');
    forall m | 0 <= m < |s| - 1 ensures !(s[m] == '.' && s[m + 1] == '.') {
      if s[m] == '.' && s[m + 1] == '.' {
        SplitAdjacentSeparators(s, '.', m);
        assert false;
      }
    }
  }

  /** The characters of a string the domain pattern matches: it starts with
      a letter or digit, does not end with a dot and has no doubled dot. */
  lemma DomainPatternChars(s: string)
    requires MatchesDomainPattern(s)
    ensures |s| > 0 && IsAlnum(s[0]) && s[|s| - 1] != '.'
    ensures forall m :: 0 <= m < |s| ==> DomainPatternChar(s[m])
    ensures forall m :: 0 <= m < |s| - 1 ==> !(s[m] == '.' && s[m + 1] == '.')
  {
    var d := if IsDomainName(s) then s else s[..|s| - 1];
    DomainNameChars(d);
    forall m | 0 <= m < |s| ensures DomainPatternChar(s[m]) {
      if m < |d| {
        assert s[m] == d[m];
      }
    }
    forall m | 0 <= m < |s| - 1 ensures !(s[m] == '.' && s[m + 1] == '.') {
      if m + 1 < |d| {
        assert s[m] == d[m] && s[m + 1] == d[m + 1];
      }
    }
  }

  predicate DomainPatternChar(c: char) {
    IsAlnum(c) || c == '-' || c == '.' || c == '\n'
  }

  /** A string the domain pattern matches neither contains a space nor starts
      with a `|`, so the adblock and hosts tests never claim it first. */
  lemma DomainPatternShape(s: string)
    ensures MatchesDomainPattern(s) ==>
      ' ' !in s && !StartsWith(s, "|") && !IsHostsRule(s) && !HasSubstring(s, "##")
  {
    if MatchesDomainPattern(s) {
      DomainPatternChars(s);
      NoHashes(s);
      HostsRuleHasSpace(s);
    }
  }

  /** A rule that starts with `||` is not a hosts line. */
  lemma AdblockIsNotHosts(s: string)
    ensures StartsWith(s, "||") ==> !IsHostsRule(s)
  {
    if StartsWith(s, "||") {
      assert s[0] == "||"[0];
    }
  }

  /** A hosts rule contains a space right after its address. */
  lemma HostsRuleHasSpace(s: string)
    ensures IsHostsRule(s) ==> ' ' in s
  {
    if StartsWith(s, "0.0.0.0 ") {
      assert s[7] == ' ';
    } else if StartsWith(s, "127.0.0.1 ") {
      assert s[9] == ' ';
    }
  }

  lemma NoHashes(s: string)
    requires forall m :: 0 <= m < |s| ==> DomainPatternChar(s[m])
    ensures !HasSubstring(s, "##")
  {
    HasDoubledChar(s, '#');
    assert "##" == ['#', '#'];
  }
}
