/**
 * The browser fallback `/api/browser-sanitize` of worker/src/index.ts:
 * render the original URL and the bare URL (origin and path); when they
 * look the same every parameter is removable; otherwise walk the
 * parameters in order, rendering the bare URL plus the parameters judged
 * required so far, and mark the current parameter required when that page
 * does not look like the original. URL parsing and serialisation, the
 * headless browser and the similarity services are parameters.
 */
module BrowserProbe {
  import opened Base
  import opened Urls
  import opened Rules
  import opened PageSimilarity
  import opened RegexEscape

  /** What the handler calls out to. */
  datatype Services = Services(
    parse: string -> Option<Url>,
    serialize: Url -> string,
    render: string -> Option<PageRender>,
    vision: Vision,
    cases: CaseMap)

  /** The success payload. */
  datatype ProbeResult = ProbeResult(
    sanitizedUrl: string,
    requiredParams: seq<string>,
    removedParams: seq<string>,
    suggestedRule: Option<SuggestedRule>)

  /** The error payloads: 400 "Missing url", 400 "Invalid URL", 500 "Browser rendering failed". */
  datatype ProbeError = MissingUrl | InvalidUrl | RenderFailed

  /** `${parsedUrl.origin}${parsedUrl.pathname}`. */
  function BaseString(u: Url): string
  {
    u.protocol + "//" + u.host + u.path
  }

  /** `new URL(baseUrl)`: the same origin and path, no query, no fragment. */
  function BaseUrl(u: Url): Url
  {
    Url(u.protocol, u.host, u.path, [], "")
  }

  /** `arePagesSimlar(ai, a, b)`. */
  function Similar(s: Services, a: PageRender, b: PageRender): bool
  {
    ArePagesSimilar(s.vision, s.cases, a, b)
  }

  /** `arePagesSimlar` as a comparison function. */
  function SimilarOf(s: Services): (PageRender, PageRender) -> bool
  {
    (a: PageRender, b: PageRender) => Similar(s, a, b)
  }

  /**
   * The query left on a fresh copy of the bare URL by
   * `for (const p of required) { const v = original.get(p); if (v) set(p, v) }`.
   */
  function WithRequired(original: seq<Param>, required: seq<string>): seq<Param>
    decreases |required|
  {
    if required == [] then []
    else
      var q := WithRequired(original, required[..|required| - 1]);
      var p := required[|required| - 1];
      match Get(original, p)
      case Some(v) => if v != "" then Set(q, p, v) else q
      case None => q
  }

  /** The bare URL plus the parameters judged required so far. */
  function Control(u: Url, required: seq<string>): Url
  {
    BaseUrl(u).(query := WithRequired(u.query, required))
  }

  /** The parameter loop over `keys`, from the list `required` judged so far. */
  function Isolate(s: Services, same: (PageRender, PageRender) -> bool, u: Url, original: PageRender, keys: seq<string>, required: seq<string>): (r: Result<seq<string>, ProbeError>)
    ensures r.Err? ==> r.error == RenderFailed
    decreases |keys|
  {
    if keys == [] then Ok(required)
    else
      match s.render(s.serialize(Control(u, required)))
      case None => Err(RenderFailed)
      case Some(page) =>
        Isolate(s, same, u, original, keys[1..], if same(original, page) then required else required + [keys[0]])
  }

  /** `allParams.filter(([k]) => !requiredParams.includes(k)).map(([k]) => k)`. */
  function Removed(keys: seq<string>, required: seq<string>): (r: seq<string>)
    ensures |r| <= |keys|
    ensures forall k :: k in r <==> k in keys && k !in required
    decreases |keys|
  {
    if keys == [] then []
    else (if keys[0] in required then [] else [keys[0]]) + Removed(keys[1..], required)
  }

  /** The filter keeps repeats: a removed name is listed as often as it occurs among the keys. */
  lemma {:induction false} RemovedCounts(keys: seq<string>, required: seq<string>)
    ensures forall k :: multiset(Removed(keys, required))[k] == if k in required then 0 else multiset(keys)[k]
    decreases |keys|
  {
    if keys != [] {
      RemovedCounts(keys[1..], required);
      assert keys == [keys[0]] + keys[1..];
      assert multiset(keys) == multiset{keys[0]} + multiset(keys[1..]);
    }
  }

  /**
   * What the handler answers for the request body's `url`, when pages are
   * compared with `same`. A missing or empty URL and one that does not
   * parse are rejected first; a URL without parameters comes back as it is
   * with no rule; otherwise no parameter is both required and removed, and
   * the suggested rule allows exactly the required parameters.
   */
  function ProbeWith(s: Services, same: (PageRender, PageRender) -> bool, url: Option<string>): (r: Result<ProbeResult, ProbeError>)
    ensures r == Err(MissingUrl) <==> url.None? || url.value == ""
    ensures r == Err(InvalidUrl) <==> url.Some? && url.value != "" && s.parse(url.value).None?
    ensures r.Ok? && r.value.suggestedRule.None? ==>
      r.value.sanitizedUrl == url.value && r.value.requiredParams == [] && r.value.removedParams == []
    ensures r.Ok? && r.value.suggestedRule.Some? ==> r.value.suggestedRule.value.allowedParams == r.value.requiredParams
    ensures r.Ok? ==> forall k :: k in r.value.removedParams ==> k !in r.value.requiredParams
  {
    if url.None? || url.value == "" then Err(MissingUrl)
    else
      match s.parse(url.value)
      case None => Err(InvalidUrl)
      case Some(u) =>
        var keys := Keys(u.query);
        if u.query == [] then Ok(ProbeResult(url.value, [], [], None))
        else
          match s.render(url.value)
          case None => Err(RenderFailed)
          case Some(originalPage) =>
            match s.render(BaseString(u))
            case None => Err(RenderFailed)
            case Some(noParamsPage) =>
              if same(originalPage, noParamsPage) then
                Ok(ProbeResult(BaseString(u), [], keys, Some(SuggestedRule(SuggestedPattern(u.path), []))))
              else
                match Isolate(s, same, u, originalPage, keys, [])
                case Err(e) => Err(e)
                case Ok(required) =>
                  Ok(ProbeResult(
                    s.serialize(Control(u, required)),
                    required,
                    Removed(keys, required),
                    Some(SuggestedRule(SuggestedPattern(u.path), required))))
  }

  /**
   * What the handler answers for the request body's `url`: pages are
   * compared with `arePagesSimlar`. The rejections and the shape of a
   * successful answer are those of `ProbeWith`, whatever the comparison.
   */
  function Probe(s: Services, url: Option<string>): (r: Result<ProbeResult, ProbeError>)
    ensures r == Err(MissingUrl) <==> url.None? || url.value == ""
    ensures r == Err(InvalidUrl) <==> url.Some? && url.value != "" && s.parse(url.value).None?
    ensures r.Ok? && r.value.suggestedRule.Some? ==> r.value.suggestedRule.value.allowedParams == r.value.requiredParams
    ensures r.Ok? ==> forall k :: k in r.value.removedParams ==> k !in r.value.requiredParams
  {
    ProbeWith(s, SimilarOf(s), url)
  }

  /** The loop `for (const p of requiredParams) { … set(p, pValue) }` on a fresh bare URL. */
  method ApplyRequired(original: seq<Param>, required: seq<string>) returns (q: seq<Param>)
    ensures q == WithRequired(original, required)
  {
    q := [];
    for i := 0 to |required|
      invariant q == WithRequired(original, required[..i])
    {
      var p := required[i];
      var pValue := Get(original, p);
      if pValue.Some? && pValue.value != "" {
        q := Set(q, p, pValue.value);
      }
      assert required[..i + 1][..i] == required[..i];
    }
    assert required[..|required|] == required;
  }

  /** The handler `/api/browser-sanitize`. */
  method BrowserSanitize(s: Services, url: Option<string>) returns (r: Result<ProbeResult, ProbeError>)
    ensures r == Probe(s, url)
  {
    if url.None? || url.value == "" {
      return Err(MissingUrl);
    }
    var parsed := s.parse(url.value);
    if parsed.None? {
      return Err(InvalidUrl);
    }
    var parsedUrl := parsed.value;
    var allParams := parsedUrl.query;
    if |allParams| == 0 {
      return Ok(ProbeResult(url.value, [], [], None));
    }
    var originalPage := s.render(url.value);
    if originalPage.None? {
      return Err(RenderFailed);
    }
    var baseUrl := BaseString(parsedUrl);
    var noParamsPage := s.render(baseUrl);
    if noParamsPage.None? {
      return Err(RenderFailed);
    }
    var pattern := SuggestedPattern(parsedUrl.path);
    if Similar(s, originalPage.value, noParamsPage.value) {
      return Ok(ProbeResult(baseUrl, [], Keys(allParams), Some(SuggestedRule(pattern, []))));
    }
    var isolated := IsolateRequired(s, SimilarOf(s), parsedUrl, originalPage.value);
    if isolated.Err? {
      return Err(isolated.error);
    }
    var requiredParams := isolated.value;
    var sanitizedQuery := ApplyRequired(parsedUrl.query, requiredParams);
    var sanitizedUrl := BaseUrl(parsedUrl).(query := sanitizedQuery);
    return Ok(ProbeResult(
      s.serialize(sanitizedUrl),
      requiredParams,
      Removed(Keys(allParams), requiredParams),
      Some(SuggestedRule(pattern, requiredParams))));
  }

  /**
   * The loop `for (const [key, value] of allParams)`: render the bare URL
   * plus the parameters judged required so far, and mark `key` required
   * when that page does not look like the original. `testUrl` is built but
   * never rendered.
   */
  method IsolateRequired(s: Services, same: (PageRender, PageRender) -> bool, u: Url, original: PageRender)
    returns (r: Result<seq<string>, ProbeError>)
    ensures r == Isolate(s, same, u, original, Keys(u.query), [])
  {
    var allParams := u.query;
    var requiredParams: seq<string> := [];
    for i := 0 to |allParams|
      invariant Isolate(s, same, u, original, Keys(allParams)[i..], requiredParams) ==
                Isolate(s, same, u, original, Keys(allParams), [])
    {
      var key, value := allParams[i].name, allParams[i].value;
      var testQuery := ApplyRequired(u.query, requiredParams);
      var testUrl := BaseUrl(u).(query := Set(testQuery, key, value));
      var withoutQuery := ApplyRequired(u.query, requiredParams);
      var urlWithoutThisParam := BaseUrl(u).(query := withoutQuery);
      var pageWithoutThisParam := s.render(s.serialize(urlWithoutThisParam));
      if pageWithoutThisParam.None? {
        return Err(RenderFailed);
      }
      if !same(original, pageWithoutThisParam.value) {
        requiredParams := requiredParams + [key];
      }
      assert Keys(allParams)[i..][1..] == Keys(allParams)[i + 1..];
    }
    return Ok(requiredParams);
  }

  /**
   * The query of the sanitised URL: a name gets exactly one value, its first
   * value on the original URL, when it is required and that value is not
   * empty; it gets none otherwise.
   */
  lemma {:induction false} WithRequiredValues(original: seq<Param>, required: seq<string>, n: string)
    ensures GetAll(WithRequired(original, required), n) ==
      if n in required && Get(original, n).Some? && Get(original, n).value != "" then [Get(original, n).value] else []
    decreases |required|
  {
    if required != [] {
      var init := required[..|required| - 1];
      var p := required[|required| - 1];
      WithRequiredValues(original, init, n);
      WithRequiredStep(original, required, n);
      InInitOrLast(required, n);
    }
  }

  lemma InInitOrLast(xs: seq<string>, x: string)
    requires xs != []
    ensures x in xs <==> x in xs[..|xs| - 1] || x == xs[|xs| - 1]
  {
    assert xs == xs[..|xs| - 1] + [xs[|xs| - 1]];
  }

  /** The last required name sets its value and leaves every other name as it was. */
  lemma WithRequiredStep(original: seq<Param>, required: seq<string>, n: string)
    requires required != []
    ensures var p := required[|required| - 1];
      GetAll(WithRequired(original, required), n) ==
      if n == p && Get(original, p).Some? && Get(original, p).value != "" then [Get(original, p).value]
      else GetAll(WithRequired(original, required[..|required| - 1]), n)
  {
  }

  /**
   * The loop keeps a prefix of the parameters: from `required`, it appends
   * the first `m` keys, where the control page built from `required` plus
   * `j < m` keys never looks like the original, and (when `m` stops short)
   * the one built with `m` keys does.
   */
  lemma {:induction false} IsolateKeepsPrefix(s: Services, same: (PageRender, PageRender) -> bool, u: Url, original: PageRender, keys: seq<string>, required: seq<string>)
    requires Isolate(s, same, u, original, keys, required).Ok?
    ensures exists m :: (PrefixVerdict(s, same, u, original, keys, required, m) &&
      Isolate(s, same, u, original, keys, required).value == required + keys[..m])
    decreases |keys|
  {
    assert required + keys[..0] == required;
    if keys == [] {
      assert PrefixVerdict(s, same, u, original, keys, required, 0);
    } else if ControlMatches(s, same, u, original, required) {
      assert PrefixVerdict(s, same, u, original, keys, required, 0);
      StaysSimilar(s, same, u, original, keys[1..], required, s.render(s.serialize(Control(u, required))).value);
    } else {
      var next := required + [keys[0]];
      IsolateKeepsPrefix(s, same, u, original, keys[1..], next);
      var m :| PrefixVerdict(s, same, u, original, keys[1..], next, m) &&
        Isolate(s, same, u, original, keys[1..], next).value == next + keys[1..][..m];
      PrefixVerdictCons(s, same, u, original, keys, required, m);
    }
  }

  /** A control page that differs extends the walk by one key. */
  lemma PrefixVerdictCons(s: Services, same: (PageRender, PageRender) -> bool, u: Url, original: PageRender, keys: seq<string>, required: seq<string>, m: int)
    requires keys != [] && ControlDiffers(s, same, u, original, required)
    requires PrefixVerdict(s, same, u, original, keys[1..], required + [keys[0]], m)
    ensures PrefixVerdict(s, same, u, original, keys, required, m + 1)
    ensures required + [keys[0]] + keys[1..][..m] == required + keys[..m + 1]
  {
    assert required + keys[..0] == required;
    forall j | 0 <= j < m + 1
      ensures ControlDiffers(s, same, u, original, required + keys[..j])
    {
      if j > 0 {
        PrefixShift(keys, required, j);
      }
    }
    PrefixShift(keys, required, m + 1);
  }

  /** Taking `j` keys onto `required` is taking the first key, then `j - 1` more. */
  lemma PrefixShift(keys: seq<string>, required: seq<string>, j: int)
    requires 1 <= j <= |keys|
    ensures required + keys[..j] == required + [keys[0]] + keys[1..][..j - 1]
  {
    assert keys[..j] == [keys[0]] + keys[1..][..j - 1];
  }

  /**
   * `m` is where the greedy walk stops: the control page renders for every
   * prefix up to `m`, looks different from the original for each prefix
   * shorter than `m`, and looks the same at `m` unless all keys were taken.
   */
  predicate PrefixVerdict(s: Services, same: (PageRender, PageRender) -> bool, u: Url, original: PageRender, keys: seq<string>, required: seq<string>, m: int)
  {
    0 <= m <= |keys| &&
    (forall j :: 0 <= j < m ==> ControlDiffers(s, same, u, original, required + keys[..j])) &&
    (m < |keys| ==> ControlMatches(s, same, u, original, required + keys[..m]))
  }

  predicate ControlDiffers(s: Services, same: (PageRender, PageRender) -> bool, u: Url, original: PageRender, required: seq<string>)
  {
    s.render(s.serialize(Control(u, required))).Some? &&
    !same(original, s.render(s.serialize(Control(u, required))).value)
  }

  predicate ControlMatches(s: Services, same: (PageRender, PageRender) -> bool, u: Url, original: PageRender, required: seq<string>)
  {
    s.render(s.serialize(Control(u, required))).Some? &&
    same(original, s.render(s.serialize(Control(u, required))).value)
  }

  /** Once the control page looks like the original, nothing more is marked required. */
  lemma {:induction false} StaysSimilar(s: Services, same: (PageRender, PageRender) -> bool, u: Url, original: PageRender, keys: seq<string>, required: seq<string>, page: PageRender)
    requires s.render(s.serialize(Control(u, required))) == Some(page) && same(original, page)
    ensures Isolate(s, same, u, original, keys, required) == Ok(required)
    decreases |keys|
  {
    if keys != [] {
      StaysSimilar(s, same, u, original, keys[1..], required, page);
    }
  }

  /**
   * When the bare URL serialises to the string rendered as the "no
   * parameters" page and the two are judged different, the first parameter
   * is always marked required: the first control page is that same bare
   * page, whatever the first parameter is.
   */
  lemma FirstParamAlwaysRequired(s: Services, same: (PageRender, PageRender) -> bool, url: string, u: Url)
    requires url != "" && s.parse(url) == Some(u) && u.query != []
    requires s.serialize(BaseUrl(u)) == BaseString(u)
    requires s.render(url).Some? && s.render(BaseString(u)).Some?
    requires !same(s.render(url).value, s.render(BaseString(u)).value)
    requires ProbeWith(s, same, Some(url)).Ok?
    ensures ProbeWith(s, same, Some(url)).value.requiredParams != [] &&
      ProbeWith(s, same, Some(url)).value.requiredParams[0] == u.query[0].name
  {
    var original := s.render(url).value;
    var keys := Keys(u.query);
    assert Control(u, []) == BaseUrl(u);
    IsolateKeepsPrefix(s, same, u, original, keys, []);
    var m :| PrefixVerdict(s, same, u, original, keys, [], m) && Isolate(s, same, u, original, keys, []).value == [] + keys[..m];
    assert [] + keys[..0] == [];
    assert m > 0;
  }

  /**
   * Every parameter name of the URL ends up in exactly one of
   * `requiredParams` and `removedParams`, and only names of the URL are
   * required.
   */
  lemma ProbePartitions(s: Services, same: (PageRender, PageRender) -> bool, url: Option<string>, u: Url)
    requires url.Some? && url.value != "" && s.parse(url.value) == Some(u)
    requires ProbeWith(s, same, url).Ok?
    ensures var r := ProbeWith(s, same, url).value;
      (forall k :: k in r.requiredParams ==> k in Keys(u.query)) &&
      (forall k :: k in Keys(u.query) ==> (k in r.removedParams <==> k !in r.requiredParams))
  {
    var keys := Keys(u.query);
    if u.query != [] {
      var original := s.render(url.value).value;
      var base := s.render(BaseString(u)).value;
      if !same(original, base) {
        IsolateKeepsPrefix(s, same, u, original, keys, []);
        var m :| PrefixVerdict(s, same, u, original, keys, [], m) && Isolate(s, same, u, original, keys, []).value == [] + keys[..m];
        assert forall k :: k in keys[..m] ==> k in keys;
      }
    }
  }

  /**
   * The sanitised URL keeps, for each required name, its first value on the
   * original URL (when not empty) and nothing else; the suggested rule
   * allows exactly the required names on the escaped, anchored path.
   */
  lemma ProbeSanitizedUrl(s: Services, same: (PageRender, PageRender) -> bool, url: Option<string>, u: Url, n: string)
    requires url.Some? && url.value != "" && s.parse(url.value) == Some(u)
    requires ProbeWith(s, same, url).Ok? && u.query != []
    ensures var r := ProbeWith(s, same, url).value;
      r.suggestedRule == Some(SuggestedRule(SuggestedPattern(u.path), r.requiredParams)) &&
      (r.requiredParams == [] ==> r.removedParams == Keys(u.query)) &&
      (r.requiredParams != [] ==>
        r.sanitizedUrl == s.serialize(Control(u, r.requiredParams)) &&
        GetAll(Control(u, r.requiredParams).query, n) ==
          if n in r.requiredParams && Get(u.query, n).Some? && Get(u.query, n).value != "" then [Get(u.query, n).value] else [])
  {
    var r := ProbeWith(s, same, url).value;
    WithRequiredValues(u.query, r.requiredParams, n);
    if r.requiredParams == [] {
      RemovedNone(Keys(u.query));
    }
  }

  lemma {:induction false} RemovedNone(keys: seq<string>)
    ensures Removed(keys, []) == keys
    decreases |keys|
  {
    if keys != [] {
      RemovedNone(keys[1..]);
    }
  }

  /**
   * Without a query string nothing is rendered: the URL comes back as it
   * was, with nothing required, nothing removed and no rule.
   */
  lemma NoQueryShortCircuit(s: Services, same: (PageRender, PageRender) -> bool, url: string, u: Url)
    requires url != "" && s.parse(url) == Some(u) && u.query == []
    ensures ProbeWith(s, same, Some(url)) == Ok(ProbeResult(url, [], [], None))
    ensures forall render: string -> Option<PageRender> :: ProbeWith(s.(render := render), same, Some(url)) == ProbeWith(s, same, Some(url))
  {
  }

  /**
   * When the bare page looks like the original, every parameter is
   * removable and the sanitised URL is the bare URL.
   */
  lemma BareLooksSame(s: Services, same: (PageRender, PageRender) -> bool, url: string, u: Url)
    requires url != "" && s.parse(url) == Some(u) && u.query != []
    requires s.render(url).Some? && s.render(BaseString(u)).Some?
    requires same(s.render(url).value, s.render(BaseString(u)).value)
    ensures ProbeWith(s, same, Some(url)) ==
      Ok(ProbeResult(BaseString(u), [], Keys(u.query), Some(SuggestedRule(SuggestedPattern(u.path), []))))
  {
  }

  /**
   * The tracking parameter in front is kept: for `?utm_source=x&id=5`, where
   * only `id` changes the page, the control pages are the bare page (which
   * differs) and the bare page with `utm_source` (which still differs), so
   * both names are marked required.
   */
  lemma LeadingTrackerKept(s: Services, same: (PageRender, PageRender) -> bool, url: string, u: Url)
    requires url != "" && s.parse(url) == Some(u)
    requires u.query == [Param("utm_source", "x"), Param("id", "5")]
    requires s.render(url).Some? && s.render(BaseString(u)).Some?
    requires !same(s.render(url).value, s.render(BaseString(u)).value)
    requires ControlDiffers(s, same, u, s.render(url).value, [])
    requires ControlDiffers(s, same, u, s.render(url).value, ["utm_source"])
    ensures ProbeWith(s, same, Some(url)).Ok?
    ensures ProbeWith(s, same, Some(url)).value.requiredParams == ["utm_source", "id"]
    ensures ProbeWith(s, same, Some(url)).value.removedParams == []
  {
    var original := s.render(url).value;
    var keys := Keys(u.query);
    assert keys == ["utm_source", "id"];
    TwoKeysKept(s, same, u, original, "utm_source", "id");
    assert Removed(keys, ["utm_source", "id"]) == [];
  }

  /** Two keys whose first two control pages both differ from the original are both kept. */
  lemma TwoKeysKept(s: Services, same: (PageRender, PageRender) -> bool, u: Url, original: PageRender, a: string, b: string)
    requires ControlDiffers(s, same, u, original, []) && ControlDiffers(s, same, u, original, [a])
    ensures Isolate(s, same, u, original, [a, b], []) == Ok([a, b])
  {
    assert [a, b][1..] == [b] && [b][1..] == [];
    assert [] + [a] == [a] && [a] + [b] == [a, b];
    assert Isolate(s, same, u, original, [a, b], []) == Isolate(s, same, u, original, [b], [a]);
    assert Isolate(s, same, u, original, [b], [a]) == Isolate(s, same, u, original, [], [a, b]);
  }
}
