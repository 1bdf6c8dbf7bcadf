/**
 * `sanitizeURL`, in the worker copy (redirects followed with HEAD requests)
 * and in the older Node copy (redirects followed by the `got` library, here
 * a parameter giving the redirect list or None when it throws). Both:
 * 1. when an expand rule matches, expand the URL and adopt the last hop that
 *    has a sanitize rule; any failure keeps the original URL;
 * 2. look up the sanitize rule of that URL (a failure throws);
 * 3. with `sanitizePath`, replace the path by the whole match `matches[0]`;
 * 4. rebuild the query from `allowedParams`.
 * Serialising the result (`url.toString()`) is not modelled.
 */
module UrlSanitizer {
  import opened Base
  import opened Urls
  import opened Rules
  import opened QueryRebuild
  import opened Redirects

  /** Whether the sanitize-rule lookup for `u` succeeds (the inner `try` does not throw). */
  predicate HasSanitizeRule(copy: Copy, rules: RuleSet, u: Url, re: Matcher)
  {
    Lookup(copy, rules, u, Sanitize, re).Ok?
  }

  /**
   * The position of the hop adopted by the backward scan: the last one that
   * has a sanitize rule, or None when no hop has one.
   */
  function LastSanitizableHop(copy: Copy, rules: RuleSet, hops: seq<Url>, re: Matcher): (r: Option<nat>)
    ensures r.Some? ==>
      r.value < |hops| && HasSanitizeRule(copy, rules, hops[r.value], re) &&
      forall j :: r.value < j < |hops| ==> !HasSanitizeRule(copy, rules, hops[j], re)
    ensures r.None? <==> forall j :: 0 <= j < |hops| ==> !HasSanitizeRule(copy, rules, hops[j], re)
    decreases |hops|
  {
    if hops == [] then None
    else if HasSanitizeRule(copy, rules, hops[|hops| - 1], re) then Some(|hops| - 1)
    else
      var init := hops[..|hops| - 1];
      assert forall j :: 0 <= j < |init| ==> init[j] == hops[j];
      LastSanitizableHop(copy, rules, init, re)
  }

  /**
   * The URL the sanitize step works on: the adopted hop when an expand rule
   * matched and the expansion gave a hop with a sanitize rule, otherwise the
   * original. `expansion` is what the expansion of `url` gives, None when it
   * throws; it is consulted only when an expand rule matches.
   */
  function EffectiveUrl(copy: Copy, rules: RuleSet, url: Url, re: Matcher, expansion: Option<seq<Url>>): (r: Url)
    ensures Lookup(copy, rules, url, Expand, re).Err? || expansion.None? ==> r == url
    ensures r == url || (expansion.Some? && r in expansion.value && HasSanitizeRule(copy, rules, r, re))
    ensures Lookup(copy, rules, url, Expand, re).Ok? && expansion.Some? ==>
      r == match LastSanitizableHop(copy, rules, expansion.value, re)
        case Some(k) => expansion.value[k]
        case None => url
  {
    if Lookup(copy, rules, url, Expand, re).Err? then url
    else
      match expansion
      case None => url
      case Some(hops) =>
        match LastSanitizableHop(copy, rules, hops, re)
        case None => url
        case Some(k) => hops[k]
  }

  /** Steps 3 and 4 on `u` with its sanitize rule and `matches[0]`. */
  function ApplyRule(u: Url, rule: SanitizeRule, whole: string): Url
  {
    u.(path := if rule.sanitizePath then whole else u.path, query := RebuildQuery(rule, u.query))
  }

  /** Steps 2 to 4 on the URL chosen by step 1. */
  function SanitizeEffective(copy: Copy, rules: RuleSet, u: Url, re: Matcher): (r: Result<Url, LookupError>)
    ensures r.Ok? <==> HasSanitizeRule(copy, rules, u, re)
    ensures r.Ok? ==> r.value.protocol == u.protocol && r.value.host == u.host && r.value.hash == u.hash
  {
    match SanitizeRuleFor(copy, rules, u, re)
    case Err(e) => Err(e)
    case Ok(m) => Ok(ApplyRule(u, m.0, m.1))
  }

  /**
   * `sanitizeURL` of either copy. Without an expand rule, or when the
   * expansion throws, the original URL is sanitised; a sanitised URL always
   * comes from a host with rules, and its host is the original one or that
   * of a hop of the expansion.
   */
  function SanitizeWith(copy: Copy, rules: RuleSet, url: Url, re: Matcher, expansion: Option<seq<Url>>): (r: Result<Url, LookupError>)
    ensures Lookup(copy, rules, url, Expand, re).Err? || expansion.None? ==> r == SanitizeEffective(copy, rules, url, re)
    ensures r.Ok? ==> r.value.host in rules
    ensures r.Ok? && r.value.host != url.host ==>
      expansion.Some? && exists k :: 0 <= k < |expansion.value| && expansion.value[k].host == r.value.host
  {
    var u := EffectiveUrl(copy, rules, url, re, expansion);
    var r := SanitizeEffective(copy, rules, u, re);
    assert r.Ok? ==> Lookup(copy, rules, u, Sanitize, re).Ok?;
    r
  }

  /** What the worker's expansion of `url` gives: its hops, or None when it throws. */
  function WorkerExpansion(head: HeadOracle, resolve: Resolver, serialize: Serializer, url: Url): Option<seq<Url>>
  {
    match Chain(head, resolve, serialize, serialize(url), MaxHops)
    case Ok(hops) => Some(hops)
    case Err(_) => None
  }

  /** The loop `for (let i = expandedURLs.length - 1; i >= 0; i--)` that reassigns `url`. */
  method AdoptLastSanitizableHop(copy: Copy, rules: RuleSet, url: Url, hops: seq<Url>, re: Matcher)
    returns (adopted: Url)
    ensures adopted == match LastSanitizableHop(copy, rules, hops, re)
      case Some(k) => hops[k]
      case None => url
  {
    adopted := url;
    var i := |hops| - 1;
    assert hops[..i + 1] == hops;
    while i >= 0
      invariant -1 <= i < |hops|
      invariant LastSanitizableHop(copy, rules, hops[..i + 1], re) == LastSanitizableHop(copy, rules, hops, re)
    {
      LastHopStep(copy, rules, hops, re, i);
      if Lookup(copy, rules, hops[i], Sanitize, re).Ok? {
        adopted := hops[i];
        return;
      }
      i := i - 1;
    }
  }

  /** The backward scan over the first `i + 1` hops either stops at hop `i` or goes on with the first `i`. */
  lemma LastHopStep(copy: Copy, rules: RuleSet, hops: seq<Url>, re: Matcher, i: nat)
    requires i < |hops|
    ensures LastSanitizableHop(copy, rules, hops[..i + 1], re) ==
      if HasSanitizeRule(copy, rules, hops[i], re) then Some(i) else LastSanitizableHop(copy, rules, hops[..i], re)
  {
    var h := hops[..i + 1];
    assert h[|h| - 1] == hops[i];
    assert h[..|h| - 1] == hops[..i];
  }

  /** The sanitize-rule lookup, the path truncation and the query rebuild, on `url`. */
  method FinishSanitize(copy: Copy, rules: RuleSet, url: Url, re: Matcher) returns (r: Result<Url, LookupError>)
    ensures r == SanitizeEffective(copy, rules, url, re)
  {
    var found := SanitizeRuleFor(copy, rules, url, re);
    if found.Err? {
      return Err(found.error);
    }
    var (rule, whole) := found.value;
    var sanitized := url;
    if rule.sanitizePath {
      sanitized := sanitized.(path := whole);
    }
    var params := BuildSanitizedParams(rule, sanitized.query);
    sanitized := sanitized.(query := params);
    return Ok(sanitized);
  }

  /** `sanitizeURL` of worker/src/sanitizer.ts. */
  method SanitizeURL(rules: RuleSet, originalURL: Url, re: Matcher, head: HeadOracle, resolve: Resolver, serialize: Serializer)
    returns (r: Result<Url, LookupError>)
    ensures r == SanitizeWith(Worker, rules, originalURL, re, WorkerExpansion(head, resolve, serialize, originalURL))
  {
    var url := originalURL;
    if GetRuleForURL(rules, url, Expand, re).Ok? {
      var expandedURLs := ExpandShortURL(head, resolve, serialize, url);
      if expandedURLs.Ok? {
        url := AdoptLastSanitizableHop(Worker, rules, url, expandedURLs.value, re);
      }
    }
    r := FinishSanitize(Worker, rules, url, re);
  }

  /** `sanitizeURL` of utils/sanitizer.ts; `got` gives `response.redirectUrls`, or None when it throws. */
  method LegacySanitizeURL(rules: RuleSet, originalURL: Url, re: Matcher, got: Url -> Option<seq<Url>>)
    returns (r: Result<Url, LookupError>)
    ensures r == SanitizeWith(Legacy, rules, originalURL, re, got(originalURL))
  {
    var url := originalURL;
    if LegacyGetRuleForURL(rules, url, Expand, re).Ok? {
      var expandedURLs := got(url);
      if expandedURLs.Some? {
        url := AdoptLastSanitizableHop(Legacy, rules, url, expandedURLs.value, re);
      }
    }
    r := FinishSanitize(Legacy, rules, url, re);
  }

  /** A host absent from the rule document yields "no rule", whatever the expansion. */
  lemma UnknownHostHasNoRule(copy: Copy, rules: RuleSet, url: Url, re: Matcher, expansion: Option<seq<Url>>)
    requires url.host !in rules
    ensures SanitizeWith(copy, rules, url, re, expansion) == Err(NoRulesForDomain(url.host))
  {
    assert EffectiveUrl(copy, rules, url, re, expansion) == url;
  }

  /**
   * Every parameter of a sanitised URL was on the URL the rule was applied
   * to, has an allowed name, and is not an ignorable value of that name;
   * every such parameter is kept.
   */
  lemma SanitizedParamsAreAllowed(copy: Copy, rules: RuleSet, url: Url, re: Matcher, expansion: Option<seq<Url>>, p: Param)
    requires SanitizeWith(copy, rules, url, re, expansion).Ok?
    ensures var u := EffectiveUrl(copy, rules, url, re, expansion);
      var rule := SanitizeRuleFor(copy, rules, u, re).value.0;
      p in SanitizeWith(copy, rules, url, re, expansion).value.query <==>
        p in u.query && p.name in rule.allowedParams && p.value !in Ignorable(rule, p.name)
  {
    var u := EffectiveUrl(copy, rules, url, re, expansion);
    var rule := SanitizeRuleFor(copy, rules, u, re).value.0;
    RebuildMembers(rule.allowedParams, rule, u.query, p);
  }

  /**
   * With `sanitizePath` the new path is the whole text the rule's pattern
   * matched (`matches[0]`, not a capture group); without it the path is kept.
   */
  lemma SanitizedPathIsWholeMatch(copy: Copy, rules: RuleSet, url: Url, re: Matcher, expansion: Option<seq<Url>>)
    requires SanitizeWith(copy, rules, url, re, expansion).Ok?
    ensures var u := EffectiveUrl(copy, rules, url, re, expansion);
      var rule := SanitizeRuleFor(copy, rules, u, re).value.0;
      var path := SanitizeWith(copy, rules, url, re, expansion).value.path;
      if rule.sanitizePath then re(rule.pattern, u.path) == Matched(path) else path == u.path
  {
  }

  /**
   * Given the same redirect list, the two copies succeed on the same URLs
   * with the same result; they then differ only in the error thrown when a
   * host lacks a list of rules.
   */
  lemma CopiesAgree(rules: RuleSet, url: Url, re: Matcher, expansion: Option<seq<Url>>)
    ensures SanitizeWith(Worker, rules, url, re, expansion).Ok? <==> SanitizeWith(Legacy, rules, url, re, expansion).Ok?
    ensures SanitizeWith(Worker, rules, url, re, expansion).Ok? ==>
      SanitizeWith(Worker, rules, url, re, expansion) == SanitizeWith(Legacy, rules, url, re, expansion)
  {
    if expansion.Some? {
      HopScanAgrees(rules, expansion.value, re);
    }
    assert EffectiveUrl(Worker, rules, url, re, expansion) == EffectiveUrl(Legacy, rules, url, re, expansion);
  }

  lemma {:induction false} HopScanAgrees(rules: RuleSet, hops: seq<Url>, re: Matcher)
    ensures LastSanitizableHop(Worker, rules, hops, re) == LastSanitizableHop(Legacy, rules, hops, re)
    decreases |hops|
  {
    if hops != [] {
      var last := hops[|hops| - 1];
      assert HasSanitizeRule(Worker, rules, last, re) == HasSanitizeRule(Legacy, rules, last, re);
      HopScanAgrees(rules, hops[..|hops| - 1], re);
    }
  }

  /**
   * Sanitising an already sanitised URL again gives it back, provided the
   * second run stays on it (no expand rule matches it, its expansion throws,
   * no hop has a sanitize rule, or the adopted hop is the URL itself), the
   * lookup picks the same rule again with the current path as its whole
   * match when `sanitizePath` is set, and the rule lists no name twice.
   */
  lemma SanitizeIdempotent(copy: Copy, rules: RuleSet, url: Url, re: Matcher, expansion: Option<seq<Url>>, again: Option<seq<Url>>)
    requires SanitizeWith(copy, rules, url, re, expansion).Ok?
    requires var out := SanitizeWith(copy, rules, url, re, expansion).value;
      Lookup(copy, rules, out, Expand, re).Err? || again.None? ||
      LastSanitizableHop(copy, rules, again.value, re).None? ||
      again.value[LastSanitizableHop(copy, rules, again.value, re).value] == out
    requires var u := EffectiveUrl(copy, rules, url, re, expansion);
      var rule := SanitizeRuleFor(copy, rules, u, re).value.0;
      var out := SanitizeWith(copy, rules, url, re, expansion).value;
      SanitizeRuleFor(copy, rules, out, re).Ok? &&
      SanitizeRuleFor(copy, rules, out, re).value.0 == rule &&
      (rule.sanitizePath ==> SanitizeRuleFor(copy, rules, out, re).value.1 == out.path) &&
      forall i, j :: 0 <= i < j < |rule.allowedParams| ==> rule.allowedParams[i] != rule.allowedParams[j]
    ensures var out := SanitizeWith(copy, rules, url, re, expansion).value;
      SanitizeWith(copy, rules, out, re, again) == Ok(out)
  {
    var u := EffectiveUrl(copy, rules, url, re, expansion);
    var rule := SanitizeRuleFor(copy, rules, u, re).value.0;
    var out := SanitizeWith(copy, rules, url, re, expansion).value;
    assert EffectiveUrl(copy, rules, out, re, again) == out;
    RebuildQueryIdempotent(rule, u.query);
  }
}
