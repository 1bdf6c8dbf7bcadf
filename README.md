# Link sanitiser: a verified Dafny model

This project models the link-sanitisation engine of the Tail-WTF website and bots.

Given a piece of text and a rule document keyed by host, the engine does the following:
- It finds the links in the text.
- It optionally expands short links by following their redirects, hop by hop.
- It picks the first sanitize rule whose pattern matches the URL's path.
- It optionally cuts the path down to the text that pattern matched.
- It rebuilds the query string. Only the parameters the rule allows are kept, minus values listed as ignorable.
- It splices each sanitised URL back into the text. A running offset absorbs the length change of the earlier replacements.

When no rule applies, two fallbacks of the worker propose a sanitised URL and a rule:
- A language-model classifier (`/api/ai-sanitize`).
- A browser prober (`/api/browser-sanitize`). It renders the page with and without parameters and compares the renders. The comparison uses a title/Open Graph heuristic first and a vision model second.

The engine exists twice: the Cloudflare worker's copy (`worker/src/sanitizer.ts`) and an older Node copy (`utils/sanitizer.ts`). The model states their shared logic once, parametrised by `Copy`, and proves that, given the same redirect list, the two copies agree (`UrlSanitizer.CopiesAgree`). How the two copies obtain that list differs; see "Left out".

External pieces are parameters of the model rather than axioms:
- the regular-expression engine: `Matcher`, which can report "pattern does not compile", "no match" or "the whole match";
- HEAD requests, URL resolution and URL serialisation;
- the `got` library's redirect list;
- link extraction: an input list of `(href, start, end)` spans;
- the headless browser, the vision model and the language model;
- `JSON.parse`, and case mapping.

Services modelled as functions answer alike on every call. The hypotheses some lemmas put on them (a length-preserving `toLowerCase`, a bare URL that serialises to itself, a matcher that returns the current path again) are stated in their rows and under "Left out".

Each loop of the source, except the early-return scan of `getRuleForURL` (the recursive function `Rules.ScanFrom`), is a Dafny `method` whose loop is proved against a specification function. The function's properties are then proved as lemmas. The request handler `/api/ai-sanitize` has no loop and is the function `AiSanitize.AiSanitizeUrl`.

The browser prober's lemmas are stated for any page comparison function (`ProbeWith`). `Probe` is that handler with `arePagesSimlar` plugged in, so the lemmas hold for it in particular.

Modules:
- `Base`, `JsText` (`base.dfy`): Option/Result, and the clamping `substring` and `slice` of JavaScript.
- `Urls` (`urls.dfy`): a parsed URL and the `URLSearchParams` operations `keys`, `getAll`, `get` and `set`.
- `Rules` (`rules.dfy`): the rule document, and `getRuleForURL` of both copies.
- `QueryRebuild` (`query.dfy`): the rebuild of the query from `allowedParams`.
- `Redirects` (`redirects.dfy`): `expandShortURL`, at most five hops.
- `UrlSanitizer` (`url_sanitizer.dfy`): `sanitizeURL` of both copies.
- `TextRewriter` (`text_rewriter.dfy`): `sanitizeLinkInText` and its offset bookkeeping.
- `PageSimilarity` (`heuristics.dfy`): `quickHeuristicCheck` with its title normaliser written out exactly, the vision verdict, and `arePagesSimlar`.
- `RegexEscape` (`regex_escape.dfy`): the escaped, anchored path of a suggested rule.
- `BrowserProbe` (`prober.dfy`): `/api/browser-sanitize`.
- `AiSanitize` (`ai_sanitize.dfy`): `/api/ai-sanitize`.

Behaviours of the code worth knowing, each proved below:
- The path is cut to `matches[0]`, the whole match, not to a capture group.
- `quickHeuristicCheck` never answers "same". It answers "different" or "undecided".
- The title normaliser's separators are `-`, `|` and `·` (U+00B7). An em dash is not one of them. So "Example Domain — Home" and "Example Domain" are judged different by the heuristic alone (`PageSimilarity.EmDashTitleKept`).
- The vision verdict is a substring test, so the answer "NOT THE SAME" counts as "same" (`PageSimilarity.VisionVerdicts`).
- The browser prober's control page for each parameter is the bare URL plus the parameters already judged required, not the original URL minus that parameter. The URL `testUrl` that the loop builds with the parameter added is never rendered. As a consequence, when rendering and comparing the same URL give the same verdict every time, the prober keeps a prefix of the parameters (`BrowserProbe.IsolateKeepsPrefix`), and when the bare page differs from the original and `new URL(baseUrl).toString()` gives `baseUrl` back, the first parameter is always kept (`BrowserProbe.FirstParamAlwaysRequired`). A leading tracking parameter whose control pages differ from the original is retained (`BrowserProbe.LeadingTrackerKept`).
- Both copies of `sanitizeLinkInText` default `maxLinks` to 1.

## Model

| member | source | states |
|---|---|---|
| JsText.Substring | worker/src/sanitizer.ts:24-27 | `substring(a, b)` is the slice `s[a..b]` whenever `0 <= a <= b <= length`, and never longer than `s` |
| JsText.SubstringFrom | worker/src/sanitizer.ts:27 | `substring(a)` is the suffix from `a` whenever `a` is in range |
| JsText.SlicePrefix | worker/src/sanitizer.ts:16 | `slice(0, end)` is a prefix of `s`: of length `min(end, length)` for `end >= 0`, and counted from the back for a negative `end` |
| Urls.Keys | worker/src/index.ts:195 | the names of the query in order, one per pair, repeats kept |
| Urls.GetAllMembers | worker/src/sanitizer.ts:69 | `getAll(name)` holds exactly the values paired with `name`; it is empty exactly when the name is absent |
| Urls.Get | worker/src/index.ts:448 | `get(name)` is null exactly when the name is absent; otherwise it is the value of the first pair named `name` |
| Urls.Set | worker/src/index.ts:449 | after `set(name, value)` the name has the single value `value` and every other name keeps all its values; the first pair of that name is replaced where it stands and later ones are removed, and with no such pair the new pair is appended |
| Urls.Drop | worker/src/index.ts:449 | the pairs `set` keeps after the replaced one: exactly those not named `name` |
| Rules.Patterns | worker/src/types.ts:19-22 | a host's patterns of either kind, one per rule in declared order; absent exactly when that list is absent |
| Rules.ScanFrom | worker/src/sanitizer.ts:95-100 | the scan returns the first pattern that matches and all earlier ones fail to match; a pattern that does not compile aborts the scan; "No rules found for path" exactly when no pattern matches |
| Rules.GetRuleForURL | worker/src/sanitizer.ts:79-101 | an absent host gives "No rules found for domain"; an absent list gives "No rules found for type"; a hit lies inside the host's list of that kind |
| Rules.LegacyGetRuleForURL | utils/sanitizer.ts:126-139 | succeeds on exactly the inputs the worker lookup succeeds on, with the same rule and match; an absent list makes `for…of` throw instead |
| Rules.FirstMatchInDeclaredOrder | worker/src/sanitizer.ts:84-100 | in either copy, the lookup yields rule `k` with match `w` if and only if the host has that list, pattern `k` matches with `w`, and every earlier pattern does not match |
| Rules.ScanFindsFirst | worker/src/sanitizer.ts:95-98 | from any start at or before the first matching pattern, the scan stops at that pattern |
| Rules.LookupFailure | utils/sanitizer.ts:126-139 | in either copy, a lookup fails if and only if the host is absent, the list is absent, or no pattern matches before the scan is aborted or exhausted |
| Rules.SanitizeRuleFor | worker/src/sanitizer.ts:61 | the selected sanitize rule and `matches[0]`; the rule's pattern matches the path with exactly that text |
| QueryRebuild.KeepValuesMembers | worker/src/sanitizer.ts:70 | a value survives the filter if and only if it was present and is not ignorable |
| QueryRebuild.KeepValuesIdempotent | worker/src/sanitizer.ts:69-72 | filtering the kept values again changes nothing |
| QueryRebuild.BuildSanitizedParams | worker/src/sanitizer.ts:66-73 | the nested loops build exactly the specified rebuilt query |
| QueryRebuild.AppendKept | utils/sanitizer.ts:111-114 | the inner loop appends `name=v` for each non-ignorable value, in order |
| QueryRebuild.RebuildMembers | worker/src/sanitizer.ts:66-74 | a pair is in the new query if and only if its name is allowed, it was on the URL, and its value is not ignorable for that name |
| QueryRebuild.RebuildOmitsOthers | utils/sanitizer.ts:108-116 | a name outside `allowedParams` has no values in the new query |
| QueryRebuild.RebuildValuesOf | worker/src/sanitizer.ts:67-72 | a name allowed once gets all its non-ignorable values, in their original order |
| QueryRebuild.RebuildValuesRepeat | worker/src/sanitizer.ts:66-73 | a name gets its kept values, in order, once for every time it is listed in `allowedParams` (not at all when it is not listed) |
| QueryRebuild.RepeatedNameEmitsTwice | worker/src/sanitizer.ts:67-72 | a name listed twice anywhere in `allowedParams` has its kept values emitted twice |
| QueryRebuild.RebuildQueryIdempotent | worker/src/sanitizer.ts:66-74 | when no name is listed twice, rebuilding an already rebuilt query under the same rule gives it back |
| Redirects.ExpandShortURL | worker/src/sanitizer.ts:103-128 | the loop returns the specified redirect chain from the short URL's serialisation, or the error that aborts it |
| Redirects.Chain | worker/src/sanitizer.ts:103-128 | the redirect chain never yields more hops than requests allowed, so expansion gives at most five |
| Redirects.ChainHops | worker/src/sanitizer.ts:113-124 | every hop is the non-empty Location of a 3xx answer, resolved against the URL just requested; a chain ending early ends at a non-redirect answer |
| UrlSanitizer.LastSanitizableHop | worker/src/sanitizer.ts:48-56 | the adopted hop is the last one with a sanitize rule, and no later hop has one; there is none exactly when no hop has a rule |
| UrlSanitizer.EffectiveUrl | worker/src/sanitizer.ts:44-59 | without an expand rule, or when expansion fails, the original URL is used; otherwise it is the last hop that has a sanitize rule, or the original when no hop has one |
| UrlSanitizer.SanitizeWith | worker/src/sanitizer.ts:38-77 | without an expand rule, or when expansion fails, the original URL is sanitised; a sanitised URL's host has rules and is the original host or that of a hop |
| UrlSanitizer.SanitizeEffective | worker/src/sanitizer.ts:61-76 | sanitising succeeds exactly when the URL has a sanitize rule; scheme, host and fragment are unchanged |
| UrlSanitizer.AdoptLastSanitizableHop | utils/sanitizer.ts:90-98 | the backward loop adopts the specified hop, or keeps the URL |
| UrlSanitizer.FinishSanitize | worker/src/sanitizer.ts:61-74 | lookup, path cut and query rebuild produce the specified result or the lookup's error |
| UrlSanitizer.SanitizeURL | worker/src/sanitizer.ts:38-77 | the worker's `sanitizeURL` equals the shared specification, with expansion by the HEAD chain |
| UrlSanitizer.LegacySanitizeURL | utils/sanitizer.ts:81-119 | the Node copy's `sanitizeURL` equals the shared specification, with expansion by `got` |
| UrlSanitizer.UnknownHostHasNoRule | worker/src/sanitizer.ts:84-86 | a host absent from the rules yields "No rules found for domain" whatever the expansion |
| UrlSanitizer.SanitizedParamsAreAllowed | worker/src/sanitizer.ts:66-74 | a pair is on the sanitised URL if and only if it was on the URL the rule applied to, its name is allowed, and its value is not ignorable |
| UrlSanitizer.SanitizedPathIsWholeMatch | utils/sanitizer.ts:102-105 | with `sanitizePath` the new path is the whole text the pattern matched; without it the path is kept |
| UrlSanitizer.CopiesAgree | utils/sanitizer.ts:85-119 | given the same redirect list, the two copies succeed on the same URLs with the same result |
| UrlSanitizer.SanitizeIdempotent | worker/src/sanitizer.ts:38-77 | sanitising a sanitised URL again returns it, for any second expansion that stays on it (no expand rule, a failed expansion, no hop with a rule, or the adopted hop is the URL itself), when the same rule is selected again, its match is the current path, and no name is allowed twice |
| TextRewriter.Rewrite | worker/src/sanitizer.ts:4-36 | no links found leaves the text alone; never more links returned than found; for well-formed spans the text is the offset-free splice of the processed links, longer than the original by their total length change |
| TextRewriter.SanitizeLinkInText | worker/src/sanitizer.ts:4-36 | the loop returns the specified text and link list; with no links found the text is returned unchanged with no links |
| TextRewriter.RunLinks | worker/src/sanitizer.ts:17-33 | the links returned are the successful sanitisations in order, at most one per processed link |
| TextRewriter.ReturnedLinks | worker/src/sanitizer.ts:16-20 | only the first `maxLinks` links are processed; at most `min(maxLinks, links found)` links are returned |
| TextRewriter.DefaultProcessesFirstLinkOnly | utils/sanitizer.ts:42-54 | with the default `maxLinks` only the first link matters, and at most one link is returned |
| TextRewriter.SpansPrefix | worker/src/sanitizer.ts:16 | the first `maxLinks` of well-formed spans are well formed |
| TextRewriter.RewriteSplices | worker/src/sanitizer.ts:16-33 | for well-formed spans the returned text is the offset-free splice of the first `maxLinks` links |
| TextRewriter.SpansMeans | worker/src/sanitizer.ts:9 | the span precondition means every span lies in the text and each ends before the next begins |
| TextRewriter.StepSplices | worker/src/sanitizer.ts:22-29 | one iteration keeps the text as "rewritten prefix + untouched rest", and the offset as its length change |
| TextRewriter.RunSplices | worker/src/sanitizer.ts:17-33 | from any such state the loop yields the prefix plus the offset-free rewrite of the rest, and the offset is the total length change |
| TextRewriter.ExpectedLength | worker/src/sanitizer.ts:29 | the rewrite is longer than the text by the sum of the successful links' length changes; a failed link adds nothing |
| TextRewriter.SplicedText | utils/sanitizer.ts:55-73 | the loop's text is the offset-free rewrite, its final offset is the total shift, and the final length is the original length plus that offset |
| TextRewriter.PieceAt | worker/src/sanitizer.ts:22-27 | in the rewrite, link `k`'s replacement or untouched span starts at its original start shifted by the earlier links' changes |
| TextRewriter.ReplacementLandsAtShiftedStart | worker/src/sanitizer.ts:17-33 | in the returned text each replacement sits at its original start plus the shift of the earlier successes |
| PageSimilarity.TailOkMeans | worker/src/index.ts:296 | the tail test is exactly `\s*.*$`: a whitespace run, then no line terminator to the end |
| PageSimilarity.FirstMatch | worker/src/index.ts:296 | the leftmost position where the suffix pattern matches, or none |
| PageSimilarity.StripSuffix | worker/src/index.ts:296 | `replace` keeps the prefix before the leftmost match, or the whole title when nothing matches; a title with no separator is unchanged |
| PageSimilarity.FirstSeparatorCut | worker/src/index.ts:296 | on a one-line title the cut is at the first separator, together with the whitespace before it |
| PageSimilarity.TrimStart | worker/src/index.ts:296 | removes exactly the leading whitespace |
| PageSimilarity.TrimEnd | worker/src/index.ts:296 | removes exactly the trailing whitespace |
| PageSimilarity.Trim | worker/src/index.ts:296 | `trim` leaves a piece of the title with only whitespace around it and none at its ends; a title without such whitespace is unchanged |
| PageSimilarity.Normalize | worker/src/index.ts:295-296 | the normalised title is the lower-cased, trimmed form of a prefix of the title; without separators it is the whole title trimmed and lower-cased, and without surrounding whitespace too, just lower-cased |
| PageSimilarity.QuickHeuristicCheck | worker/src/index.ts:291-309 | never "same"; "different" exactly when both titles are present with different normalised forms or both og:titles are present and differ; undecided on equal titles and og:titles |
| PageSimilarity.SuffixCut | worker/src/index.ts:296 | a title `x` + separator + one-line tail is cut back to `x` |
| PageSimilarity.TrackingSuffixIgnored | worker/src/index.ts:293-299 | titles differing only after a separator never make the heuristic say "different"; only og:titles then can |
| PageSimilarity.UnseparatedTitlesCompareWhole | worker/src/index.ts:293-299 | titles without separators are compared whole, so titles of different lengths mean "different" |
| PageSimilarity.EmDashTitleKept | worker/src/index.ts:295-299 | "Example Domain — Home" against "Example Domain" is judged different by the heuristic |
| PageSimilarity.Latin1 | worker/src/index.ts:311-317 | the binary string has one character per byte, with the byte's value as its code point |
| PageSimilarity.BinaryString | worker/src/index.ts:311-317 | the loop builds exactly the binary string of the screenshot bytes |
| PageSimilarity.Contains | worker/src/index.ts:383 | `includes` is true exactly when the needle occurs at some position |
| PageSimilarity.CompareWithVision | worker/src/index.ts:319-384 | the pages count as the same exactly when the upper-cased answer mentions SAME somewhere; the answers SAME and DIFFERENT decide as the prompt intends |
| PageSimilarity.VisionVerdicts | worker/src/index.ts:383 | the answer "NOT THE SAME" counts as same, since only the substring is tested |
| PageSimilarity.ArePagesSimilar | worker/src/index.ts:386-399 | pages are similar exactly when the heuristic is undecided and the vision model mentions SAME; a decided heuristic means "different" |
| RegexEscape.EscapePath | worker/src/index.ts:437 | escaping at most doubles the path's length |
| RegexEscape.Unescape | worker/src/index.ts:437 | reading literal atoms back never lengthens the text |
| RegexEscape.UnescapeEscape | worker/src/index.ts:437 | reading the escaped path back gives the path: escaping loses nothing |
| RegexEscape.EscapedIsLiteral | worker/src/index.ts:437 | the escaped path has no bare metacharacter |
| RegexEscape.SuggestedPattern | worker/src/index.ts:481 | the suggested pattern starts with `^` and ends with `$` |
| RegexEscape.SuggestedPatternIsExact | worker/src/index.ts:481 | the pattern's body is the path written as literal atoms, so it stands for that path exactly |
| BrowserProbe.Removed | worker/src/index.ts:477-479 | a name is removed exactly when it is an original key that is not required |
| BrowserProbe.RemovedCounts | worker/src/index.ts:477-479 | the filter keeps repeats: a name not required is removed as many times as it occurs among the original keys, a required one never |
| BrowserProbe.ApplyRequired | worker/src/index.ts:468-472 | the loop builds the specified query from the required names |
| BrowserProbe.ProbeWith | worker/src/index.ts:401-494 | for any page comparison: "Missing url" exactly for a missing or empty URL, "Invalid URL" exactly when it does not parse; a URL without parameters comes back as it is; no name is both required and removed; the rule allows exactly the required names |
| BrowserProbe.Probe | worker/src/index.ts:401-494 | the same rejections and answer shape with `arePagesSimlar` as the comparison |
| BrowserProbe.BrowserSanitize | worker/src/index.ts:401-494 | the handler returns the specified probe result or error, with pages compared by `arePagesSimlar` |
| BrowserProbe.IsolateRequired | worker/src/index.ts:443-466 | the parameter loop, including the unused `testUrl`, returns the specified list of required names, or the render failure that aborts it |
| BrowserProbe.WithRequiredValues | worker/src/index.ts:468-472 | in the built query a name has exactly one value when it is required and its first original value is non-empty, and no value otherwise |
| BrowserProbe.IsolateKeepsPrefix | worker/src/index.ts:443-466 | the loop keeps the first `m` keys, where `m` is the first point at which the bare URL plus the keys taken so far renders like the original |
| BrowserProbe.StaysSimilar | worker/src/index.ts:453-465 | once the control page looks like the original, no further key is marked required |
| BrowserProbe.FirstParamAlwaysRequired | worker/src/index.ts:453-465 | when the bare page differs from the original and the bare URL serialises to the same string, the first parameter is always marked required |
| BrowserProbe.LeadingTrackerKept | worker/src/index.ts:443-466 | for `?utm_source=x&id=5`, if the two control pages both differ from the original, both names are kept and nothing is removed |
| BrowserProbe.ProbePartitions | worker/src/index.ts:474-479 | each original key is either required or removed, never both, and only original keys are required |
| BrowserProbe.ProbeSanitizedUrl | worker/src/index.ts:468-484 | the rule allows exactly the required names; each required name whose first value on the original URL is non-empty is carried once, with that value, and the others are dropped (so `?id=&id=5` loses `id`); with none required, every key is removed |
| BrowserProbe.NoQueryShortCircuit | worker/src/index.ts:415-423 | a URL without a query comes back as it was, with nothing required or removed and no rule, whatever the browser does |
| BrowserProbe.BareLooksSame | worker/src/index.ts:431-440 | when the bare page looks like the original, the answer is the bare URL, nothing required, every key removed in order |
| AiSanitize.AiSanitizeUrl | worker/src/index.ts:181-244 | "Missing url" exactly for a missing or empty URL, "Invalid URL" exactly when it does not parse; an answer marked as failed has confidence 0, the URL unchanged, nothing removed and no rule |
| AiSanitize.NoParamsShortCircuit | worker/src/index.ts:195-204 | a URL without parameters comes back unchanged with confidence 1, and the model is never consulted |
| AiSanitize.NoToolCallIsReported | worker/src/index.ts:223-233 | a missing or wrongly named first tool call gives confidence 0, the URL unchanged, every parameter kept, no rule, and the failure marker |
| AiSanitize.FirstToolCallDecides | worker/src/index.ts:223-243 | a well-formed first `sanitize_url` call is passed back field for field, whatever follows it |
| AiSanitize.AnswerOrigins | worker/src/index.ts:181-244 | every successful answer is the no-parameter answer, the reported failure, or the model's own tool call; a failure is never passed off as a result |

## Left out

- Rule loading is not modelled. The Cloudflare KV read and JSON parse (worker/src/index.ts:11-15) and the YAML file read (utils/sanitizer.ts:121-124) are I/O, so the rule set is an input value.
- `loadSanitizationRules` runs on every call of the Node copy; the model takes its result as the same input.
- The network is modelled by oracles. HEAD requests are a function from URL to a response or a network error. `got` is a function giving its redirect list or None when it throws.
- Parsing and serialisation follow the WHATWG URL Standard, including section 5.2 (application/x-www-form-urlencoded). They are parameters, so percent-encoding, and the normalisation done by the `pathname` setter, are not modelled.
- `origin` is modelled as scheme, `//` and host. The opaque "null" origin of non-special schemes, and user credentials in URLs, are not modelled.
- `new URL(baseUrl)` in the browser prober is modelled as the parsed URL with its query and fragment dropped. The model assumes it does not throw.
- The rule set is a map, so `host in allRules` in the worker copy only finds real entries. Inherited object properties are not modelled. The same holds for `rule.ignorableParamValues?.[param]` (worker/src/sanitizer.ts:68): when the rule has `ignorableParamValues` and the URL carries a value for an allowed name such as `constructor`, the lookup finds an inherited function, `.includes` is then not a function and `sanitizeURL` throws, while `QueryRebuild.Ignorable` reads the absent entry as no values.
- Link extraction by linkify is an input: the spans, in order.
- Only non-negative, non-overlapping spans inside the text are covered by the splice lemmas (`TextRewriter.Spans`). `Rewrite` itself is defined for any spans, with JavaScript's clamping.
- A non-integer `maxLinks` is not modelled.
- The regular-expression engine used for rule patterns is an oracle. The one regular expression the heuristic writes inline (`/\s*[-|·]\s*.*$/`) is modelled exactly.
- Case mapping (`toLowerCase`, `toUpperCase`) is a parameter.
- `PageSimilarity.EmDashTitleKept` and `PageSimilarity.UnseparatedTitlesCompareWhole` assume a length-preserving `toLowerCase`.
- `btoa` is a foreign encoder: the vision oracle receives the binary string that `PageSimilarity.BinaryString` builds, and the base64 step is part of the oracle.
- Puppeteer rendering is an oracle returning a render or None on failure. Its timeout and viewport settings are not modelled. Rendering and the vision comparison are functions, so the model assumes that the same URL renders, and the same pair of renders compares, alike on every call; the handler actually launches a fresh browser with a 15-second timeout per render (worker/src/index.ts:257-261) and asks the vision model anew each time (worker/src/index.ts:328, 352).
- IsolateKeepsPrefix: relies on that repeatability. With renders or model answers that vary between calls, the required names need not form a prefix of the keys.
- StaysSimilar: relies on that repeatability. With varying renders or answers, a later control page that equals an earlier one may still be judged different, and a later parameter marked required.
- FirstParamAlwaysRequired: relies on that repeatability. It reuses the earlier verdict on the bare page for the loop's first control page, which the handler renders anew. It also requires that `new URL(baseUrl).toString()` gives `baseUrl` back, so that the first control URL is the bare URL already rendered; a serialiser that appends, say, a trailing `/` would send the loop to a different URL.
- SanitizeIdempotent: requires that the second run stays on the sanitised URL (no expand rule, no expansion, or none adopting another hop), that the sanitised URL selects the same rule, that a `sanitizePath` match returns the current path again, and that the rule lists no name twice. A matcher or HEAD service that answers differently on the second call is not covered.
- CopiesAgree: agreement is proved for the same redirect list. The copies obtain it differently: the worker's HEAD loop yields up to five hops without error and stops there, while `got` with `maxRedirects: 5` throws past five redirects and on a final 4xx/5xx answer, after which the Node copy keeps the original URL. So on such links the copies can sanitise different URLs.
- The vision and language-model calls are oracles. A failing vision call, which would also surface as "Browser rendering failed", is not modelled.
- The two vision turns are modelled as `describe` followed by `compare`. The prompt wording is not modelled.
- `AiSanitize`: the prompt passes `hostname`, but the model passes the `host` field, which includes the port. The prompt wording is not modelled.
- `confidence` is a `real` passed through unchanged. Its numeric meaning is not modelled.
- `JSON.parse` of the tool arguments is an oracle whose failure is `MalformedArguments`. The shape of the arguments is taken as given.
- A request body that is not JSON makes Hono answer 500; that is not modelled.
- Hono routing, CORS, status codes, the `/api/sanitize` route and the Telegram/Matrix bot adapters are glue and are not modelled.
- Console logging in the Node copy's `catch` is not modelled.
