/**
 * `expandShortURL` of worker/src/sanitizer.ts: follow a short link's
 * redirect chain with HEAD requests (`redirect: "manual"`), at most five
 * hops, collecting every hop. The network and URL parsing are parameters.
 */
module Redirects {
  import opened Base
  import opened Urls

  /** What `fetch(url, {method: "HEAD", redirect: "manual"})` gives. */
  datatype HeadResponse =
    | NetworkError
    | Response(status: int, location: Option<string>)

  type HeadOracle = string -> HeadResponse

  /** `new URL(location, base)`: None when it throws. */
  type Resolver = (string, string) -> Option<Url>

  /** `url.toString()`. */
  type Serializer = Url -> string

  /** Why the expansion throws. */
  datatype RedirectError = FetchFailed(url: string) | BadLocation(location: string)

  const MaxHops: nat := 5

  /** A redirect the loop follows: a 3xx status with a non-empty Location header. */
  predicate Follows(r: HeadResponse)
  {
    r.Response? && 300 <= r.status < 400 && r.location.Some? && r.location.value != ""
  }

  /**
   * The chain from `current` with at most `budget` more requests. It never
   * yields more hops than requests allowed.
   */
  function Chain(head: HeadOracle, resolve: Resolver, serialize: Serializer, current: string, budget: nat): (r: Result<seq<Url>, RedirectError>)
    ensures r.Ok? ==> |r.value| <= budget
    decreases budget
  {
    if budget == 0 then Ok([])
    else
      var response := head(current);
      if response.NetworkError? then Err(FetchFailed(current))
      else if !Follows(response) then Ok([])
      else
        match resolve(response.location.value, current)
        case None => Err(BadLocation(response.location.value))
        case Some(next) => Prepend([next], Chain(head, resolve, serialize, serialize(next), budget - 1))
  }

  /** `urls` followed by the hops of `rest`, or the error of `rest`. */
  function Prepend(urls: seq<Url>, rest: Result<seq<Url>, RedirectError>): Result<seq<Url>, RedirectError>
  {
    match rest
    case Ok(hops) => Ok(urls + hops)
    case Err(e) => Err(e)
  }

  lemma PrependAppend(a: seq<Url>, b: seq<Url>, rest: Result<seq<Url>, RedirectError>)
    ensures Prepend(a, Prepend(b, rest)) == Prepend(a + b, rest)
    ensures Prepend([], rest) == rest
  {
    if rest.Ok? {
      assert a + (b + rest.value) == (a + b) + rest.value;
      assert [] + rest.value == rest.value;
    }
  }

  /** The loop of `expandShortURL`. */
  method ExpandShortURL(head: HeadOracle, resolve: Resolver, serialize: Serializer, shortURL: Url)
    returns (r: Result<seq<Url>, RedirectError>)
    ensures r == Chain(head, resolve, serialize, serialize(shortURL), MaxHops)
  {
    var urls: seq<Url> := [];
    var currentUrl := serialize(shortURL);
    var i := 0;
    PrependAppend([], [], Chain(head, resolve, serialize, currentUrl, MaxHops));
    while i < MaxHops
      invariant 0 <= i <= MaxHops
      invariant Prepend(urls, Chain(head, resolve, serialize, currentUrl, MaxHops - i)) ==
                Chain(head, resolve, serialize, serialize(shortURL), MaxHops)
    {
      var response := head(currentUrl);
      if response.NetworkError? {
        return Err(FetchFailed(currentUrl));
      }
      if 300 <= response.status < 400 {
        var location := response.location;
        if location.Some? && location.value != "" {
          var nextUrl := resolve(location.value, currentUrl);
          if nextUrl.None? {
            return Err(BadLocation(location.value));
          }
          ghost var rest := Chain(head, resolve, serialize, serialize(nextUrl.value), MaxHops - i - 1);
          PrependAppend(urls, [nextUrl.value], rest);
          urls := urls + [nextUrl.value];
          currentUrl := serialize(nextUrl.value);
        } else {
          break;
        }
      } else {
        break;
      }
      i := i + 1;
    }
    assert urls + [] == urls;
    return Ok(urls);
  }

  /** The URL that request `k` of a chain starting at `start` is sent to. */
  function Requested(start: string, hops: seq<Url>, serialize: Serializer, k: nat): string
    requires k <= |hops|
  {
    if k == 0 then start else serialize(hops[k - 1])
  }

  /**
   * Every hop of `hops` is the Location of a 3xx answer, resolved against
   * the URL that was requested; and a chain shorter than `budget` ends at a
   * response that is not such a redirect.
   */
  predicate RedirectsFollowed(head: HeadOracle, resolve: Resolver, serialize: Serializer, start: string, hops: seq<Url>, budget: nat)
  {
    (forall k :: 0 <= k < |hops| ==>
      var response := head(Requested(start, hops, serialize, k));
      Follows(response) && resolve(response.location.value, Requested(start, hops, serialize, k)) == Some(hops[k])) &&
    (|hops| < budget ==>
      head(Requested(start, hops, serialize, |hops|)).Response? &&
      !Follows(head(Requested(start, hops, serialize, |hops|))))
  }

  /** A followed redirect to `next` in front of a chain followed from `next`. */
  lemma RedirectsFollowedCons(head: HeadOracle, resolve: Resolver, serialize: Serializer, start: string, next: Url, rest: seq<Url>, budget: nat)
    requires budget > 0 && Follows(head(start)) && resolve(head(start).location.value, start) == Some(next)
    requires RedirectsFollowed(head, resolve, serialize, serialize(next), rest, budget - 1)
    ensures RedirectsFollowed(head, resolve, serialize, start, [next] + rest, budget)
  {
    var hops := [next] + rest;
    forall k | 0 <= k < |hops|
      ensures var response := head(Requested(start, hops, serialize, k));
        Follows(response) && resolve(response.location.value, Requested(start, hops, serialize, k)) == Some(hops[k])
    {
      if k > 0 {
        RequestedCons(start, next, rest, serialize, k);
        var from := Requested(serialize(next), rest, serialize, k - 1);
        assert Follows(head(from)) && resolve(head(from).location.value, from) == Some(rest[k - 1]);
      }
    }
    if |hops| < budget {
      RequestedCons(start, next, rest, serialize, |hops|);
    }
  }

  lemma RequestedCons(start: string, next: Url, rest: seq<Url>, serialize: Serializer, k: nat)
    requires 1 <= k <= |rest| + 1
    ensures Requested(start, [next] + rest, serialize, k) == Requested(serialize(next), rest, serialize, k - 1)
    ensures k <= |rest| ==> ([next] + rest)[k] == rest[k - 1]
  {
  }

  /**
   * Every hop is the Location of a 3xx answer, resolved against the URL that
   * was requested; and a chain shorter than the budget ends at a response
   * that is not such a redirect.
   */
  lemma {:induction false} ChainHops(head: HeadOracle, resolve: Resolver, serialize: Serializer, start: string, budget: nat)
    requires Chain(head, resolve, serialize, start, budget).Ok?
    ensures var hops := Chain(head, resolve, serialize, start, budget).value;
      (forall k :: 0 <= k < |hops| ==>
        var response := head(Requested(start, hops, serialize, k));
        Follows(response) && resolve(response.location.value, Requested(start, hops, serialize, k)) == Some(hops[k])) &&
      (|hops| < budget ==>
        head(Requested(start, hops, serialize, |hops|)).Response? &&
        !Follows(head(Requested(start, hops, serialize, |hops|))))
    decreases budget
  {
    var hops := Chain(head, resolve, serialize, start, budget).value;
    if budget > 0 && Follows(head(start)) {
      var next := resolve(head(start).location.value, start).value;
      var tail := Chain(head, resolve, serialize, serialize(next), budget - 1);
      assert Chain(head, resolve, serialize, start, budget) == Prepend([next], tail);
      ChainHops(head, resolve, serialize, serialize(next), budget - 1);
      RedirectsFollowedCons(head, resolve, serialize, start, next, tail.value, budget);
    }
    assert RedirectsFollowed(head, resolve, serialize, start, hops, budget);
  }
}
