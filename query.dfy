/**
 * The query rebuild of `sanitizeURL` (both copies): a fresh `URLSearchParams`
 * receives, for each name of `allowedParams` in declared order, every value
 * of that name on the URL in order, except the values listed as ignorable
 * for it. Every other parameter is dropped.
 */
module QueryRebuild {
  import opened Urls
  import opened Rules

  /** `rule.ignorableParamValues?.[name]`, with an absent entry read as no values. */
  function Ignorable(rule: SanitizeRule, name: string): seq<string>
  {
    if name in rule.ignorableParamValues then rule.ignorableParamValues[name] else []
  }

  /** The values of `vs`, in order, that are not listed in `ignorable`. */
  function KeepValues(vs: seq<string>, ignorable: seq<string>): (r: seq<string>)
    ensures |r| <= |vs|
    decreases |vs|
  {
    if vs == [] then []
    else
      var last := vs[|vs| - 1];
      KeepValues(vs[..|vs| - 1], ignorable) + (if last in ignorable then [] else [last])
  }

  /** The pairs `name=v` for each `v` of `vs`, in order. */
  function Pairs(name: string, vs: seq<string>): (r: seq<Param>)
    ensures |r| == |vs|
    ensures forall i :: 0 <= i < |vs| ==> r[i] == Param(name, vs[i])
  {
    seq(|vs|, i requires 0 <= i < |vs| => Param(name, vs[i]))
  }

  /** What the names `allowed`, visited in order, append to the new query. */
  function Rebuild(allowed: seq<string>, rule: SanitizeRule, q: seq<Param>): seq<Param>
    decreases |allowed|
  {
    if allowed == [] then []
    else
      var name := allowed[|allowed| - 1];
      Rebuild(allowed[..|allowed| - 1], rule, q) + Pairs(name, KeepValues(GetAll(q, name), Ignorable(rule, name)))
  }

  /** The query `sanitizeURL` writes back into `url.search`. */
  function RebuildQuery(rule: SanitizeRule, q: seq<Param>): seq<Param>
  {
    Rebuild(rule.allowedParams, rule, q)
  }

  /** The nested loops that append the kept values to `sanitizedParams`. */
  method BuildSanitizedParams(rule: SanitizeRule, query: seq<Param>) returns (params: seq<Param>)
    ensures params == RebuildQuery(rule, query)
  {
    params := [];
    for i := 0 to |rule.allowedParams|
      invariant params == Rebuild(rule.allowedParams[..i], rule, query)
    {
      var name := rule.allowedParams[i];
      params := AppendKept(params, name, GetAll(query, name), Ignorable(rule, name));
      RebuildPrefixStep(rule.allowedParams, rule, query, i);
    }
    assert rule.allowedParams[..|rule.allowedParams|] == rule.allowedParams;
  }

  lemma RebuildPrefixStep(allowed: seq<string>, rule: SanitizeRule, q: seq<Param>, i: nat)
    requires i < |allowed|
    ensures Rebuild(allowed[..i + 1], rule, q) ==
      Rebuild(allowed[..i], rule, q) + Pairs(allowed[i], KeepValues(GetAll(q, allowed[i]), Ignorable(rule, allowed[i])))
  {
    assert allowed[..i + 1][..i] == allowed[..i];
  }

  /** The inner loop: `append(name, value)` for each value of `values` that is not ignorable. */
  method AppendKept(params: seq<Param>, name: string, values: seq<string>, ignorable: seq<string>) returns (out: seq<Param>)
    ensures out == params + Pairs(name, KeepValues(values, ignorable))
  {
    out := params;
    for j := 0 to |values|
      invariant out == params + Pairs(name, KeepValues(values[..j], ignorable))
    {
      assert values[..j + 1][..j] == values[..j];
      PairsConcat(name, KeepValues(values[..j], ignorable), if values[j] in ignorable then [] else [values[j]]);
      if values[j] !in ignorable {
        out := out + [Param(name, values[j])];
      }
    }
    assert values[..|values|] == values;
  }

  lemma PairsConcat(name: string, a: seq<string>, b: seq<string>)
    ensures Pairs(name, a + b) == Pairs(name, a) + Pairs(name, b)
  {
  }

  lemma PairsMembers(name: string, vs: seq<string>, p: Param)
    ensures p in Pairs(name, vs) <==> p.name == name && p.value in vs
  {
    if p.name == name && p.value in vs {
      var i :| 0 <= i < |vs| && vs[i] == p.value;
      assert Pairs(name, vs)[i] == p;
    }
  }

  lemma {:induction false} KeepValuesMembers(vs: seq<string>, ignorable: seq<string>)
    ensures forall v :: v in KeepValues(vs, ignorable) <==> v in vs && v !in ignorable
    decreases |vs|
  {
    if vs != [] {
      KeepValuesMembers(vs[..|vs| - 1], ignorable);
      assert vs == vs[..|vs| - 1] + [vs[|vs| - 1]];
    }
  }

  /** Filtering the kept values a second time changes nothing. */
  lemma {:induction false} KeepValuesIdempotent(vs: seq<string>, ignorable: seq<string>)
    ensures KeepValues(KeepValues(vs, ignorable), ignorable) == KeepValues(vs, ignorable)
    decreases |vs|
  {
    if vs != [] {
      var init, last := vs[..|vs| - 1], vs[|vs| - 1];
      var k := KeepValues(init, ignorable);
      KeepValuesIdempotent(init, ignorable);
      if last !in ignorable {
        assert KeepValues(vs, ignorable) == k + [last];
        assert (k + [last])[..|k + [last]| - 1] == k;
        assert KeepValues(k + [last], ignorable) == KeepValues(k, ignorable) + [last];
      } else {
        assert KeepValues(vs, ignorable) == k;
      }
    }
  }

  lemma {:induction false} GetAllPairs(name: string, vs: seq<string>, n: string)
    ensures GetAll(Pairs(name, vs), n) == if n == name then vs else []
    decreases |vs|
  {
    if vs != [] {
      GetAllPairs(name, vs[1..], n);
      assert Pairs(name, vs)[1..] == Pairs(name, vs[1..]);
    }
  }

  /**
   * A pair is in the rebuilt query exactly when its name is allowed, the pair
   * is on the original URL, and its value is not ignorable for that name:
   * `allowedParams` is the exhaustive list of what is retained and
   * `ignorableParamValues` only ever removes.
   */
  lemma {:induction false} RebuildMembers(allowed: seq<string>, rule: SanitizeRule, q: seq<Param>, p: Param)
    ensures p in Rebuild(allowed, rule, q) <==>
      p.name in allowed && p in q && p.value !in Ignorable(rule, p.name)
    decreases |allowed|
  {
    if allowed != [] {
      var init, name := allowed[..|allowed| - 1], allowed[|allowed| - 1];
      RebuildMembers(init, rule, q, p);
      var values := GetAll(q, name);
      var kept := KeepValues(values, Ignorable(rule, name));
      assert allowed == init + [name];
      assert Rebuild(allowed, rule, q) == Rebuild(init, rule, q) + Pairs(name, kept);
      PairsMembers(name, kept, p);
      if p.name == name {
        KeepValuesMembers(values, Ignorable(rule, name));
        assert p.value in kept <==> p.value in values && p.value !in Ignorable(rule, name);
        GetAllMembers(q, name);
        assert p.value in values <==> p in q;
      }
    }
  }

  /** The values a name gets in the rebuilt query: none when it is not allowed. */
  lemma {:induction false} RebuildOmitsOthers(allowed: seq<string>, rule: SanitizeRule, q: seq<Param>, n: string)
    requires n !in allowed
    ensures GetAll(Rebuild(allowed, rule, q), n) == []
    decreases |allowed|
  {
    if allowed != [] {
      var init, name := allowed[..|allowed| - 1], allowed[|allowed| - 1];
      assert allowed == init + [name];
      RebuildOmitsOthers(init, rule, q, n);
      GetAllConcat(Rebuild(init, rule, q), Pairs(name, KeepValues(GetAll(q, name), Ignorable(rule, name))), n);
      GetAllPairs(name, KeepValues(GetAll(q, name), Ignorable(rule, name)), n);
    }
  }

  /** `k` copies of `s`, one after another. */
  function Repeat<T>(s: seq<T>, k: nat): seq<T>
  {
    if k == 0 then [] else Repeat(s, k - 1) + s
  }

  /**
   * Each listing of `n` in `allowedParams` emits its kept values once more:
   * the rebuilt query holds them as many times as the name is listed.
   */
  lemma {:induction false} RebuildValuesRepeat(allowed: seq<string>, rule: SanitizeRule, q: seq<Param>, n: string)
    ensures GetAll(Rebuild(allowed, rule, q), n) == Repeat(KeepValues(GetAll(q, n), Ignorable(rule, n)), multiset(allowed)[n])
    decreases |allowed|
  {
    if allowed != [] {
      var init, name := allowed[..|allowed| - 1], allowed[|allowed| - 1];
      var kept := KeepValues(GetAll(q, name), Ignorable(rule, name));
      var mine := KeepValues(GetAll(q, n), Ignorable(rule, n));
      var before := Rebuild(init, rule, q);
      assert Rebuild(allowed, rule, q) == before + Pairs(name, kept);
      GetAllConcat(before, Pairs(name, kept), n);
      GetAllPairs(name, kept, n);
      RebuildValuesRepeat(init, rule, q, n);
      CountLast(allowed, n);
      RepeatStep(GetAll(before, n), GetAll(Pairs(name, kept), n), mine, multiset(init)[n], name == n);
    }
  }

  /**
   * A name listed once in `allowed` gets all its kept values in original
   * order, and nothing else.
   */
  lemma RebuildValuesOf(allowed: seq<string>, rule: SanitizeRule, q: seq<Param>, n: string)
    requires multiset(allowed)[n] == 1
    ensures GetAll(Rebuild(allowed, rule, q), n) == KeepValues(GetAll(q, n), Ignorable(rule, n))
  {
    RebuildValuesRepeat(allowed, rule, q, n);
    RepeatOnce(KeepValues(GetAll(q, n), Ignorable(rule, n)));
  }

  /**
   * A name listed twice in `allowedParams`, anywhere in the list, has its
   * kept values emitted twice.
   */
  lemma RepeatedNameEmitsTwice(rule: SanitizeRule, q: seq<Param>, n: string)
    requires multiset(rule.allowedParams)[n] == 2
    ensures GetAll(RebuildQuery(rule, q), n) ==
      KeepValues(GetAll(q, n), Ignorable(rule, n)) + KeepValues(GetAll(q, n), Ignorable(rule, n))
  {
    RebuildValuesRepeat(rule.allowedParams, rule, q, n);
    RepeatTwice(KeepValues(GetAll(q, n), Ignorable(rule, n)));
  }

  lemma RepeatStep<T>(prev: seq<T>, add: seq<T>, s: seq<T>, m: nat, hit: bool)
    requires prev == Repeat(s, m) && add == if hit then s else []
    ensures prev + add == Repeat(s, m + if hit then 1 else 0)
  {
    if !hit {
      assert prev + add == prev;
    }
  }

  lemma CountLast<T>(s: seq<T>, x: T)
    requires s != []
    ensures multiset(s)[x] == multiset(s[..|s| - 1])[x] + if s[|s| - 1] == x then 1 else 0
  {
    assert s == s[..|s| - 1] + [s[|s| - 1]];
    assert multiset(s) == multiset(s[..|s| - 1]) + multiset{s[|s| - 1]};
  }

  lemma RepeatOnce<T>(s: seq<T>)
    ensures Repeat(s, 1) == s
  {
    assert Repeat(s, 1) == [] + s;
  }

  lemma RepeatTwice<T>(s: seq<T>)
    ensures Repeat(s, 2) == s + s
  {
    assert Repeat(s, 1) == [] + s;
  }

  /**
   * With no name listed twice, rebuilding an already rebuilt query under the
   * same rule gives it back unchanged.
   */
  lemma RebuildQueryIdempotent(rule: SanitizeRule, q: seq<Param>)
    requires forall i, j :: 0 <= i < j < |rule.allowedParams| ==> rule.allowedParams[i] != rule.allowedParams[j]
    ensures RebuildQuery(rule, RebuildQuery(rule, q)) == RebuildQuery(rule, q)
  {
    RebuildPrefixIdempotent(rule.allowedParams, |rule.allowedParams|, rule, q);
    assert rule.allowedParams[..|rule.allowedParams|] == rule.allowedParams;
  }

  lemma {:induction false} RebuildPrefixIdempotent(allowed: seq<string>, k: nat, rule: SanitizeRule, q: seq<Param>)
    requires k <= |allowed|
    requires forall i, j :: 0 <= i < j < |allowed| ==> allowed[i] != allowed[j]
    ensures Rebuild(allowed[..k], rule, Rebuild(allowed, rule, q)) == Rebuild(allowed[..k], rule, q)
  {
    if k > 0 {
      var name := allowed[k - 1];
      assert allowed[..k][..k - 1] == allowed[..k - 1];
      RebuildPrefixIdempotent(allowed, k - 1, rule, q);
      UniqueCount(allowed, k - 1);
      RebuildValuesOf(allowed, rule, q, name);
      KeepValuesIdempotent(GetAll(q, name), Ignorable(rule, name));
    }
  }

  lemma {:induction false} UniqueCount(s: seq<string>, k: nat)
    requires k < |s|
    requires forall i, j :: 0 <= i < j < |s| ==> s[i] != s[j]
    ensures multiset(s)[s[k]] == 1
    decreases |s|
  {
    var init, last := s[..|s| - 1], s[|s| - 1];
    assert s == init + [last];
    assert multiset(s) == multiset(init) + multiset{last};
    if k == |s| - 1 {
      forall i | 0 <= i < |init| ensures init[i] != last {
        assert s[i] == init[i];
      }
    } else {
      UniqueCount(init, k);
    }
  }
}
