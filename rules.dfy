/**
 * The rule document and the lookup of the rule that applies to a URL
 * (`getRuleForURL`), in both copies of the engine: the Cloudflare worker's
 * and the older Node one under utils/.
 */
module Rules {
  import opened Base
  import opened Urls

  /** A rule marking a host as a short-link redirector. */
  datatype ExpandRule = ExpandRule(pattern: string)

  /**
   * A rule keeping only `allowedParams`. An absent `sanitizePath` is false;
   * a name absent from `ignorableParamValues` has no ignorable values.
   */
  datatype SanitizeRule = SanitizeRule(
    pattern: string,
    allowedParams: seq<string>,
    sanitizePath: bool,
    ignorableParamValues: map<string, seq<string>>)

  /** The rules of one host; either list may be absent. */
  datatype SiteRule = SiteRule(expand: Option<seq<ExpandRule>>, sanitize: Option<seq<SanitizeRule>>)

  /** The whole rule document, keyed by `URL.host`. */
  type RuleSet = map<string, SiteRule>

  /** A rule proposed by one of the fallback strategies. */
  datatype SuggestedRule = SuggestedRule(pattern: string, allowedParams: seq<string>)

  /**
   * What `new RegExp(pattern).exec(path)` gives: the constructor throws on a
   * pattern that does not compile, `exec` returns null, or it returns the
   * match array whose element 0 is the whole matched text.
   */
  datatype MatchResult = BadPattern | NoMatch | Matched(whole: string)

  /** The JavaScript regular-expression engine, applied to (pattern, path). */
  type Matcher = (string, string) -> MatchResult

  datatype Kind = Expand | Sanitize

  /** Why a lookup throws. */
  datatype LookupError =
    | NoRulesForDomain(host: string)
    | NoRulesForType(kind: Kind)
    | NoRulesForPath(path: string)
    | InvalidPattern(pattern: string)
    | ListNotIterable(kind: Kind)

  /** A successful lookup: the position of the rule in its list and `matches[0]`. */
  datatype Hit = Hit(index: nat, whole: string)

  /** Which copy of the engine: the worker's, or the older Node one. */
  datatype Copy = Worker | Legacy

  /** The patterns of one kind of rule of a host, in declared order; None when that list is absent. */
  function Patterns(site: SiteRule, kind: Kind): (r: Option<seq<string>>)
    ensures kind == Expand ==> r.Some? == site.expand.Some?
    ensures kind == Sanitize ==> r.Some? == site.sanitize.Some?
    ensures r.Some? && kind == Sanitize ==>
      |r.value| == |site.sanitize.value| &&
      forall i :: 0 <= i < |r.value| ==> r.value[i] == site.sanitize.value[i].pattern
    ensures r.Some? && kind == Expand ==>
      |r.value| == |site.expand.value| &&
      forall i :: 0 <= i < |r.value| ==> r.value[i] == site.expand.value[i].pattern
  {
    match kind
    case Expand =>
      if site.expand.None? then None
      else Some(seq(|site.expand.value|, i requires 0 <= i < |site.expand.value| => site.expand.value[i].pattern))
    case Sanitize =>
      if site.sanitize.None? then None
      else Some(seq(|site.sanitize.value|, i requires 0 <= i < |site.sanitize.value| => site.sanitize.value[i].pattern))
  }

  /**
   * The scan `for (const rule of typeRules)` from position `i` on: the first
   * pattern that matches wins, a pattern that does not compile throws, and
   * running off the end throws "No rules found for path".
   */
  function ScanFrom(patterns: seq<string>, path: string, re: Matcher, i: nat): (r: Result<Hit, LookupError>)
    requires i <= |patterns|
    decreases |patterns| - i
    ensures r.Ok? ==>
      i <= r.value.index < |patterns| &&
      re(patterns[r.value.index], path) == Matched(r.value.whole) &&
      forall j :: i <= j < r.value.index ==> re(patterns[j], path) == NoMatch
    ensures r == Err(NoRulesForPath(path)) <==> forall j :: i <= j < |patterns| ==> re(patterns[j], path) == NoMatch
    ensures r.Err? && r.error.InvalidPattern? ==>
      exists j :: i <= j < |patterns| && re(patterns[j], path) == BadPattern && r.error.pattern == patterns[j] &&
        forall k :: i <= k < j ==> re(patterns[k], path) == NoMatch
    ensures r.Err? ==> r.error.NoRulesForPath? || r.error.InvalidPattern?
  {
    if i == |patterns| then Err(NoRulesForPath(path))
    else
      match re(patterns[i], path)
      case Matched(w) => Ok(Hit(i, w))
      case BadPattern => Err(InvalidPattern(patterns[i]))
      case NoMatch => ScanFrom(patterns, path, re, i + 1)
  }

  /** `getRuleForURL(allRules, url, type)` of worker/src/sanitizer.ts. */
  function GetRuleForURL(rules: RuleSet, url: Url, kind: Kind, re: Matcher): (r: Result<Hit, LookupError>)
    ensures url.host !in rules ==> r == Err(NoRulesForDomain(url.host))
    ensures url.host in rules && Patterns(rules[url.host], kind).None? ==> r == Err(NoRulesForType(kind))
    ensures r.Ok? ==>
      url.host in rules && Patterns(rules[url.host], kind).Some? &&
      r.value.index < |Patterns(rules[url.host], kind).value|
  {
    if url.host !in rules then Err(NoRulesForDomain(url.host))
    else
      match Patterns(rules[url.host], kind)
      case None => Err(NoRulesForType(kind))
      case Some(ps) => ScanFrom(ps, url.path, re, 0)
  }

  /**
   * `getRuleForURL` of utils/sanitizer.ts: the host must be an own property
   * of the rule set, and an absent list of the requested kind makes
   * `for (const rule of rules[type])` throw a TypeError.
   */
  function LegacyGetRuleForURL(rules: RuleSet, url: Url, kind: Kind, re: Matcher): (r: Result<Hit, LookupError>)
    ensures r.Ok? <==> GetRuleForURL(rules, url, kind, re).Ok?
    ensures r.Ok? ==> r == GetRuleForURL(rules, url, kind, re)
    ensures url.host in rules && Patterns(rules[url.host], kind).None? ==> r == Err(ListNotIterable(kind))
  {
    match GetRuleForURL(rules, url, kind, re)
    case Err(NoRulesForType(k)) => Err(ListNotIterable(k))
    case other => other
  }

  /** The lookup of the given copy of the engine. */
  function Lookup(copy: Copy, rules: RuleSet, url: Url, kind: Kind, re: Matcher): Result<Hit, LookupError>
  {
    match copy
    case Worker => GetRuleForURL(rules, url, kind, re)
    case Legacy => LegacyGetRuleForURL(rules, url, kind, re)
  }

  /**
   * The lookup finds rule `k` with whole match `w` exactly when the host has
   * rules of that kind, pattern `k` matches the path with `w`, and every
   * earlier pattern compiles and does not match: the first match in declared
   * order wins.
   */
  lemma FirstMatchInDeclaredOrder(copy: Copy, rules: RuleSet, url: Url, kind: Kind, re: Matcher, k: nat, w: string)
    ensures Lookup(copy, rules, url, kind, re) == Ok(Hit(k, w)) <==>
      url.host in rules && Patterns(rules[url.host], kind).Some? &&
      var ps := Patterns(rules[url.host], kind).value;
      k < |ps| && re(ps[k], url.path) == Matched(w) &&
      forall j :: 0 <= j < k ==> re(ps[j], url.path) == NoMatch
  {
    if url.host in rules && Patterns(rules[url.host], kind).Some? {
      var ps := Patterns(rules[url.host], kind).value;
      if k < |ps| && re(ps[k], url.path) == Matched(w) && (forall j :: 0 <= j < k ==> re(ps[j], url.path) == NoMatch) {
        ScanFindsFirst(ps, url.path, re, 0, k);
      }
    }
  }

  /** From any start at or before the first non-failing pattern `k`, the scan stops at `k`. */
  lemma {:induction false} ScanFindsFirst(ps: seq<string>, path: string, re: Matcher, i: nat, k: nat)
    requires i <= k < |ps| && re(ps[k], path).Matched?
    requires forall j :: i <= j < k ==> re(ps[j], path) == NoMatch
    ensures ScanFrom(ps, path, re, i) == Ok(Hit(k, re(ps[k], path).whole))
    decreases k - i
  {
    if i < k {
      ScanFindsFirst(ps, path, re, i + 1, k);
    }
  }

  /**
   * A lookup fails in exactly three ways in either copy: the host has no
   * rules, the host has no list of that kind, or the scan of that list
   * reaches a pattern that does not compile or its end without a match.
   */
  lemma LookupFailure(copy: Copy, rules: RuleSet, url: Url, kind: Kind, re: Matcher)
    ensures Lookup(copy, rules, url, kind, re).Err? <==>
      url.host !in rules ||
      Patterns(rules[url.host], kind).None? ||
      var ps := Patterns(rules[url.host], kind).value;
      forall k :: 0 <= k < |ps| && re(ps[k], url.path).Matched? ==>
        exists j :: 0 <= j < k && re(ps[j], url.path) != NoMatch
  {
    if url.host in rules && Patterns(rules[url.host], kind).Some? {
      var ps := Patterns(rules[url.host], kind).value;
      var r := Lookup(copy, rules, url, kind, re);
      if r.Ok? {
        var k := r.value.index;
        assert k < |ps| && re(ps[k], url.path).Matched?;
        assert forall j :: 0 <= j < k ==> re(ps[j], url.path) == NoMatch;
      } else {
        forall k | 0 <= k < |ps| && re(ps[k], url.path).Matched?
          ensures exists j :: 0 <= j < k && re(ps[j], url.path) != NoMatch
        {
          if forall j :: 0 <= j < k ==> re(ps[j], url.path) == NoMatch {
            ScanFindsFirst(ps, url.path, re, 0, k);
            assert false;
          }
        }
      }
    }
  }

  /** The sanitize rule a URL's lookup selects, with the text its pattern matched. */
  function SanitizeRuleFor(copy: Copy, rules: RuleSet, url: Url, re: Matcher): (r: Result<(SanitizeRule, string), LookupError>)
    ensures r.Ok? <==> Lookup(copy, rules, url, Sanitize, re).Ok?
    ensures r.Ok? ==>
      var h := Lookup(copy, rules, url, Sanitize, re).value;
      h.index < |rules[url.host].sanitize.value| &&
      r.value == (rules[url.host].sanitize.value[h.index], h.whole) &&
      re(r.value.0.pattern, url.path) == Matched(r.value.1)
  {
    match Lookup(copy, rules, url, Sanitize, re)
    case Err(e) => Err(e)
    case Ok(h) => Ok((rules[url.host].sanitize.value[h.index], h.whole))
  }
}
