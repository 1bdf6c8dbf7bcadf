/**
 * Deciding whether two rendered pages show the same content
 * (`arePagesSimlar` in worker/src/index.ts): a cheap title/Open Graph
 * heuristic that can only ever say "different", and otherwise a two-turn
 * vision-model comparison whose answer counts as "same" when it mentions
 * SAME. The browser, the vision model and case mapping are parameters.
 */
module PageSimilarity {
  import opened Base

  /** What the headless browser reports for one page; missing Open Graph tags are "". */
  datatype PageRender = PageRender(screenshot: seq<bv8>, title: string, ogTitle: string, ogDescription: string)

  /**
   * The two turns of the vision comparison: describe the first screenshot,
   * then answer about the second one given that description. Each
   * screenshot reaches them as the binary string `Latin1` of its bytes; its
   * base64 encoding (`btoa`) and the request are part of the oracle.
   */
  datatype Vision = Vision(describe: string -> string, compare: (string, string) -> string)

  /** `String.prototype.toLowerCase` and `toUpperCase`. */
  datatype CaseMap = CaseMap(toLower: string -> string, toUpper: string -> string)

  /** The line terminators of ECMAScript. */
  predicate IsLineTerminator(c: char)
  {
    c == '\n' || c == '\r' || c == '\U{2028}' || c == '\U{2029}'
  }

  /** The class `\s` of ECMAScript regular expressions, which is also what `trim` removes. */
  predicate IsWhitespace(c: char)
  {
    IsLineTerminator(c) || c == '\t' || c == '\U{000B}' || c == '\U{000C}' || c == ' ' ||
    c == '\U{00A0}' || c == '\U{1680}' || ('\U{2000}' <= c <= '\U{200A}') ||
    c == '\U{202F}' || c == '\U{205F}' || c == '\U{3000}' || c == '\U{FEFF}'
  }

  /** The class `[-|·]`: hyphen-minus, vertical bar, middle dot. */
  predicate IsSeparator(c: char)
  {
    c == '-' || c == '|' || c == '\U{00B7}'
  }

  predicate NoLineTerminator(s: string)
  {
    forall i :: 0 <= i < |s| ==> !IsLineTerminator(s[i])
  }

  /** The first position at or after `p` that is not whitespace. */
  function SkipWs(t: string, p: nat): (q: nat)
    requires p <= |t|
    ensures p <= q <= |t|
    ensures forall i :: p <= i < q ==> IsWhitespace(t[i])
    ensures q < |t| ==> !IsWhitespace(t[q])
    decreases |t| - p
  {
    if p < |t| && IsWhitespace(t[p]) then SkipWs(t, p + 1) else p
  }

  /** Skipping whitespace stops at or before any non-whitespace character. */
  lemma SkipWsStops(t: string, p: nat, k: nat)
    requires p <= k < |t| && !IsWhitespace(t[k])
    ensures SkipWs(t, p) <= k
  {
  }

  /** `r` matches `\s*.*$` (no flags): some whitespace, then no line terminator up to the end. */
  predicate TailOk(r: string)
    decreases |r|
  {
    NoLineTerminator(r) || (r != [] && IsWhitespace(r[0]) && TailOk(r[1..]))
  }

  /** `TailOk` is the regular expression's meaning: a whitespace prefix and a rest free of line terminators. */
  lemma {:induction false} TailOkMeans(r: string)
    ensures TailOk(r) <==>
      exists k :: 0 <= k <= |r| && (forall i :: 0 <= i < k ==> IsWhitespace(r[i])) && NoLineTerminator(r[k..])
    decreases |r|
  {
    if r != [] {
      TailOkMeans(r[1..]);
      if TailOk(r) {
        if NoLineTerminator(r) {
          assert r[0..] == r;
        } else {
          var k :| 0 <= k <= |r[1..]| && (forall i :: 0 <= i < k ==> IsWhitespace(r[1..][i])) && NoLineTerminator(r[1..][k..]);
          assert r[1..][k..] == r[k + 1..];
          assert forall i :: 0 <= i < k + 1 ==> IsWhitespace(r[i]);
        }
      } else {
        forall k | 0 <= k <= |r| && (forall i :: 0 <= i < k ==> IsWhitespace(r[i]))
          ensures !NoLineTerminator(r[k..])
        {
          if k == 0 {
            assert r[0..] == r;
          } else {
            assert r[1..][k - 1..] == r[k..];
            assert forall i :: 0 <= i < k - 1 ==> IsWhitespace(r[1..][i]);
          }
        }
      }
    } else {
      assert NoLineTerminator(r[0..]);
    }
  }

  /** `/\s*[-|·]\s*.*$/` matches `t` starting at `p`. */
  predicate MatchesAt(t: string, p: nat)
    requires p <= |t|
  {
    var q := SkipWs(t, p);
    q < |t| && IsSeparator(t[q]) && TailOk(t[q + 1..])
  }

  /** The leftmost start at or after `p` where the regular expression matches. */
  function FirstMatch(t: string, p: nat): (r: Option<nat>)
    requires p <= |t|
    ensures r.Some? ==> p <= r.value < |t| && MatchesAt(t, r.value)
    ensures r.Some? ==> forall i :: p <= i < r.value ==> !MatchesAt(t, i)
    ensures r.None? ==> forall i :: p <= i <= |t| ==> !MatchesAt(t, i)
    decreases |t| - p
  {
    if p == |t| then None
    else if MatchesAt(t, p) then Some(p)
    else FirstMatch(t, p + 1)
  }

  /**
   * `t.replace(/\s*[-|·]\s*.*$/, "")`: the text before the leftmost match,
   * or `t` when nothing matches. A title with no separator is unchanged.
   */
  function StripSuffix(t: string): (r: string)
    ensures |r| <= |t| && r == t[..|r|]
    ensures r == t <==> forall p :: 0 <= p <= |t| ==> !MatchesAt(t, p)
    ensures r != t ==> MatchesAt(t, |r|) && forall p :: 0 <= p < |r| ==> !MatchesAt(t, p)
    ensures (forall i :: 0 <= i < |t| ==> !IsSeparator(t[i])) ==> r == t
  {
    match FirstMatch(t, 0)
    case None => t
    case Some(p) => t[..p]
  }

  /**
   * On a one-line title the normaliser cuts at the first separator, together
   * with the whitespace in front of it.
   */
  lemma FirstSeparatorCut(t: string, k: nat)
    requires NoLineTerminator(t)
    requires k < |t| && IsSeparator(t[k])
    requires forall i :: 0 <= i < k ==> !IsSeparator(t[i])
    ensures StripSuffix(t) == TrimEnd(t[..k])
  {
    var head := TrimEnd(t[..k]);
    var p := |head|;
    assert head == t[..p];
    forall i | p <= i < k
      ensures IsWhitespace(t[i])
    {
      assert t[..k][i] == t[i];
    }
    assert p == 0 || !IsWhitespace(t[p - 1]) by {
      if p > 0 {
        assert t[..k][p - 1] == t[p - 1];
      }
    }
    SeparatorMatches(t, p, k);
    NoEarlierMatch(t, p, k);
  }

  /** The pattern matches at the start of the whitespace run before a separator of a one-line title. */
  lemma SeparatorMatches(t: string, p: nat, k: nat)
    requires NoLineTerminator(t)
    requires p <= k < |t| && IsSeparator(t[k])
    requires forall i :: p <= i < k ==> IsWhitespace(t[i])
    ensures MatchesAt(t, p)
  {
    assert !IsWhitespace(t[k]);
    SkipWsTo(t, p, k);
    var rest := t[k + 1..];
    forall i | 0 <= i < |rest|
      ensures !IsLineTerminator(rest[i])
    {
      assert rest[i] == t[k + 1 + i];
    }
    assert NoLineTerminator(rest);
  }

  /** Before a non-whitespace character that precedes the first separator, the pattern cannot match. */
  lemma NoEarlierMatch(t: string, p: nat, k: nat)
    requires p <= k < |t|
    requires forall i :: 0 <= i < k ==> !IsSeparator(t[i])
    requires p == 0 || !IsWhitespace(t[p - 1])
    ensures forall p' :: 0 <= p' < p ==> !MatchesAt(t, p')
  {
    forall p' | 0 <= p' < p
      ensures !MatchesAt(t, p')
    {
      SkipWsStops(t, p', p - 1);
    }
  }

  /** Skipping a run of whitespace ends where the run ends. */
  lemma {:induction false} SkipWsTo(t: string, p: nat, k: nat)
    requires p <= k < |t| && !IsWhitespace(t[k])
    requires forall i :: p <= i < k ==> IsWhitespace(t[i])
    ensures SkipWs(t, p) == k
    decreases k - p
  {
    if p < k {
      SkipWsTo(t, p + 1, k);
    }
  }

  /** `t` without its leading whitespace. */
  function TrimStart(t: string): (r: string)
    ensures |r| <= |t| && r == t[|t| - |r|..]
    ensures forall i :: 0 <= i < |t| - |r| ==> IsWhitespace(t[i])
    ensures r == [] || !IsWhitespace(r[0])
    decreases |t|
  {
    if t != [] && IsWhitespace(t[0]) then TrimStart(t[1..]) else t
  }

  /** `t` without its trailing whitespace. */
  function TrimEnd(t: string): (r: string)
    ensures |r| <= |t| && r == t[..|r|]
    ensures forall i :: |r| <= i < |t| ==> IsWhitespace(t[i])
    ensures r == [] || !IsWhitespace(r[|r| - 1])
    decreases |t|
  {
    if t != [] && IsWhitespace(t[|t| - 1]) then TrimEnd(t[..|t| - 1]) else t
  }

  /**
   * `t.trim()`: a contiguous piece of `t` with only whitespace around it,
   * that neither starts nor ends with whitespace.
   */
  function Trim(t: string): (r: string)
    ensures exists i :: TrimmedAt(t, r, i)
    ensures r == [] || (!IsWhitespace(r[0]) && !IsWhitespace(r[|r| - 1]))
    ensures t == [] || (!IsWhitespace(t[0]) && !IsWhitespace(t[|t| - 1])) ==> r == t
  {
    var s := TrimStart(t);
    var r := TrimEnd(s);
    TrimmedWitness(t, s, r);
    TrimUnchanged(t);
    r
  }

  /**
   * A whitespace-free end `r` of a whitespace-free start `s` of `t` sits
   * where the leading whitespace of `t` ends.
   */
  lemma TrimmedWitness(t: string, s: string, r: string)
    requires |s| <= |t| && s == t[|t| - |s|..]
    requires forall i :: 0 <= i < |t| - |s| ==> IsWhitespace(t[i])
    requires s == [] || !IsWhitespace(s[0])
    requires |r| <= |s| && r == s[..|r|]
    requires forall i :: |r| <= i < |s| ==> IsWhitespace(s[i])
    requires r == [] || !IsWhitespace(r[|r| - 1])
    ensures TrimmedAt(t, r, |t| - |s|)
    ensures r == [] || (!IsWhitespace(r[0]) && !IsWhitespace(r[|r| - 1]))
  {
    var i := |t| - |s|;
    forall k | i + |r| <= k < |t|
      ensures IsWhitespace(t[k])
    {
      assert t[k] == s[k - i];
    }
  }

  /** Trimming a string without whitespace at its ends changes nothing. */
  lemma TrimUnchanged(t: string)
    ensures t == [] || (!IsWhitespace(t[0]) && !IsWhitespace(t[|t| - 1])) ==> TrimEnd(TrimStart(t)) == t
  {
  }

  /** `r` sits at `i` in `t` with nothing but whitespace before and after it. */
  predicate TrimmedAt(t: string, r: string, i: int)
  {
    OccursAt(t, r, i) &&
    (forall k :: 0 <= k < i ==> IsWhitespace(t[k])) &&
    (forall k :: i + |r| <= k < |t| ==> IsWhitespace(t[k]))
  }

  /** `needle` occurs in `haystack` at position `i`. */
  predicate OccursAt(haystack: string, needle: string, i: int)
  {
    0 <= i && i + |needle| <= |haystack| && haystack[i..i + |needle|] == needle
  }

  /**
   * The title normalisation: strip a separator-introduced suffix, trim,
   * lower-case. What is compared is always the lower-cased, trimmed form of
   * a prefix of the title; a title without separators is only trimmed and
   * lower-cased, and one without surrounding whitespace as well is only
   * lower-cased.
   */
  function Normalize(t: string, cases: CaseMap): (r: string)
    ensures exists p :: 0 <= p <= |t| && r == cases.toLower(Trim(t[..p]))
    ensures (forall i :: 0 <= i < |t| ==> !IsSeparator(t[i])) ==> r == cases.toLower(Trim(t))
    ensures (forall i :: 0 <= i < |t| ==> !IsSeparator(t[i])) && (t == [] || (!IsWhitespace(t[0]) && !IsWhitespace(t[|t| - 1]))) ==>
      r == cases.toLower(t)
  {
    var cut := StripSuffix(t);
    assert cut == t[..|cut|];
    cases.toLower(Trim(cut))
  }

  /**
   * `quickHeuristicCheck`: Some(false) when the titles differ even after
   * normalisation or both Open Graph titles are present and differ; None
   * (undecided) otherwise. It never concludes that the pages are the same.
   */
  function QuickHeuristicCheck(a: PageRender, b: PageRender, cases: CaseMap): (r: Option<bool>)
    ensures r != Some(true)
    ensures a.title == b.title && a.ogTitle == b.ogTitle ==> r.None?
    ensures a.ogTitle != "" && b.ogTitle != "" && a.ogTitle != b.ogTitle ==> r == Some(false)
    ensures a.title == "" || b.title == "" || a.title == b.title ==>
      (r == Some(false) <==> a.ogTitle != "" && b.ogTitle != "" && a.ogTitle != b.ogTitle)
    ensures r == Some(false) <==>
      (a.title != "" && b.title != "" && Normalize(a.title, cases) != Normalize(b.title, cases)) ||
      (a.ogTitle != "" && b.ogTitle != "" && a.ogTitle != b.ogTitle)
  {
    if a.title != "" && b.title != "" && a.title != b.title && Normalize(a.title, cases) != Normalize(b.title, cases) then
      Some(false)
    else if a.ogTitle != "" && b.ogTitle != "" && a.ogTitle != b.ogTitle then
      Some(false)
    else
      None
  }

  /** `haystack.includes(needle)`. */
  function Contains(haystack: string, needle: string): (r: bool)
    ensures r <==> exists i :: OccursAt(haystack, needle, i)
    decreases |haystack|
  {
    if |haystack| < |needle| then false
    else if haystack[..|needle|] == needle then
      assert OccursAt(haystack, needle, 0);
      true
    else
      var r := Contains(haystack[1..], needle);
      assert forall i :: OccursAt(haystack[1..], needle, i) <==> OccursAt(haystack, needle, i + 1) by {
        forall i ensures OccursAt(haystack[1..], needle, i) <==> OccursAt(haystack, needle, i + 1) {
          if 0 <= i && i + |needle| <= |haystack[1..]| {
            assert haystack[1..][i..i + |needle|] == haystack[i + 1..i + 1 + |needle|];
          }
        }
      }
      assert (exists i :: OccursAt(haystack, needle, i)) ==> r by {
        if exists i :: OccursAt(haystack, needle, i) {
          var i :| OccursAt(haystack, needle, i);
          assert i != 0;
          assert OccursAt(haystack[1..], needle, i - 1);
        }
      }
      r
  }

  /** The binary string of a byte buffer: one character per byte, with the byte's value as its code point. */
  function Latin1(buffer: seq<bv8>): (s: string)
    ensures |s| == |buffer|
    ensures forall i :: 0 <= i < |buffer| ==> s[i] as int == buffer[i] as int
  {
    seq(|buffer|, i requires 0 <= i < |buffer| => (buffer[i] as int) as char)
  }

  /** The loop of `arrayBufferToBase64` that builds the string `btoa` encodes. */
  method BinaryString(buffer: seq<bv8>) returns (binary: string)
    ensures binary == Latin1(buffer)
  {
    binary := "";
    for i := 0 to |buffer|
      invariant binary == Latin1(buffer[..i])
    {
      assert Latin1(buffer[..i + 1]) == Latin1(buffer[..i]) + [(buffer[i] as int) as char];
      binary := binary + [(buffer[i] as int) as char];
    }
    assert buffer[..|buffer|] == buffer;
  }

  /** The vision model's answer about the second screenshot, upper-cased. */
  function Answer(vision: Vision, cases: CaseMap, a: PageRender, b: PageRender): string
  {
    var description := vision.describe(Latin1(a.screenshot));
    cases.toUpper(vision.compare(description, Latin1(b.screenshot)))
  }

  /**
   * `compareWithVision`: the pages count as the same exactly when the
   * upper-cased answer mentions SAME anywhere; the two answers the prompt
   * asks for, SAME and DIFFERENT, decide as intended.
   */
  function CompareWithVision(vision: Vision, cases: CaseMap, a: PageRender, b: PageRender): (r: bool)
    ensures r <==> exists i :: OccursAt(Answer(vision, cases, a, b), "SAME", i)
    ensures Answer(vision, cases, a, b) == "SAME" ==> r
    ensures Answer(vision, cases, a, b) == "DIFFERENT" ==> !r
  {
    var answer := Answer(vision, cases, a, b);
    assert OccursAt("SAME", "SAME", 0);
    assert forall i :: !OccursAt("DIFFERENT", "SAME", i) by {
      var d := "DIFFERENT";
      forall i | 0 <= i && i + 4 <= |d| ensures !OccursAt(d, "SAME", i) {
        assert d[i..i + 4][0] == d[i] != 'S';
      }
    }
    Contains(answer, "SAME")
  }

  /**
   * Any answer that mentions SAME counts as same, even one that denies it:
   * "NOT THE SAME" makes the pages count as the same.
   */
  lemma VisionVerdicts(vision: Vision, cases: CaseMap, a: PageRender, b: PageRender)
    requires Answer(vision, cases, a, b) == "NOT THE SAME"
    ensures CompareWithVision(vision, cases, a, b)
  {
    assert OccursAt("NOT THE SAME", "SAME", 8);
  }

  /**
   * `arePagesSimlar`: the heuristic's verdict when it has one, else the
   * vision model's. Pages are judged the same only when the heuristic is
   * undecided and the vision model answered SAME; when the heuristic
   * decides, the pages are different whatever the vision model would say.
   */
  function ArePagesSimilar(vision: Vision, cases: CaseMap, a: PageRender, b: PageRender): (r: bool)
    ensures r <==> QuickHeuristicCheck(a, b, cases).None? && CompareWithVision(vision, cases, a, b)
    ensures QuickHeuristicCheck(a, b, cases).Some? ==> !r
  {
    match QuickHeuristicCheck(a, b, cases)
    case Some(v) => v
    case None => CompareWithVision(vision, cases, a, b)
  }

  /**
   * A suffix introduced by a separator is ignored: `x` followed by a
   * separator and a one-line tail is cut back to `x`, when `x` holds no
   * separator and does not end in whitespace.
   */
  lemma SuffixCut(x: string, s: char, y: string)
    requires forall i :: 0 <= i < |x| ==> !IsSeparator(x[i])
    requires x == [] || !IsWhitespace(x[|x| - 1])
    requires IsSeparator(s) && NoLineTerminator(y)
    ensures StripSuffix(x + [s] + y) == x
  {
    var t := x + [s] + y;
    assert !IsWhitespace(s);
    assert t[|x|] == s;
    assert SkipWs(t, |x|) == |x|;
    assert t[|x| + 1..] == y;
    assert MatchesAt(t, |x|);
    forall p | 0 <= p < |x| ensures !MatchesAt(t, p) {
      assert t[|x| - 1] == x[|x| - 1];
      SkipWsStops(t, p, |x| - 1);
      var q := SkipWs(t, p);
      assert t[q] == x[q];
    }
    assert t[..|x|] == x;
  }

  /**
   * Titles that differ only in what follows a separator ("Story - Site" and
   * "Story | Site (tracking)") do not make the heuristic call the pages
   * different; only conflicting Open Graph titles still can.
   */
  lemma TrackingSuffixIgnored(a: PageRender, b: PageRender, cases: CaseMap, x: string, s1: char, y1: string, s2: char, y2: string)
    requires forall i :: 0 <= i < |x| ==> !IsSeparator(x[i])
    requires x == [] || !IsWhitespace(x[|x| - 1])
    requires IsSeparator(s1) && NoLineTerminator(y1) && IsSeparator(s2) && NoLineTerminator(y2)
    requires a.title == x + [s1] + y1 && b.title == x + [s2] + y2
    ensures QuickHeuristicCheck(a, b, cases) == Some(false) <==>
      a.ogTitle != "" && b.ogTitle != "" && a.ogTitle != b.ogTitle
  {
    SuffixCut(x, s1, y1);
    SuffixCut(x, s2, y2);
    assert Normalize(a.title, cases) == Normalize(b.title, cases);
  }

  /**
   * Titles without a separator and without surrounding whitespace are
   * compared whole; with a length-preserving lower-casing, titles of
   * different lengths make the heuristic call the pages different.
   */
  lemma UnseparatedTitlesCompareWhole(a: PageRender, b: PageRender, cases: CaseMap)
    requires forall s :: |cases.toLower(s)| == |s|
    requires a.title != "" && b.title != "" && |a.title| != |b.title|
    requires forall i :: 0 <= i < |a.title| ==> !IsSeparator(a.title[i])
    requires forall i :: 0 <= i < |b.title| ==> !IsSeparator(b.title[i])
    requires !IsWhitespace(a.title[0]) && !IsWhitespace(a.title[|a.title| - 1])
    requires !IsWhitespace(b.title[0]) && !IsWhitespace(b.title[|b.title| - 1])
    ensures QuickHeuristicCheck(a, b, cases) == Some(false)
  {
    assert StripSuffix(a.title) == a.title && Trim(a.title) == a.title;
    assert StripSuffix(b.title) == b.title && Trim(b.title) == b.title;
    var na, nb := cases.toLower(a.title), cases.toLower(b.title);
    assert |na| == |a.title| && |nb| == |b.title|;
    assert Normalize(a.title, cases) == na && Normalize(b.title, cases) == nb;
  }

  /**
   * An em dash is not one of the separators: "Example Domain — Home" is not
   * cut back to "Example Domain", so these two pages are called different
   * without asking the vision model.
   */
  lemma EmDashTitleKept(a: PageRender, b: PageRender, cases: CaseMap)
    requires forall s :: |cases.toLower(s)| == |s|
    requires a.title == "Example Domain \U{2014} Home" && b.title == "Example Domain"
    ensures QuickHeuristicCheck(a, b, cases) == Some(false)
  {
    assert forall i :: 0 <= i < |a.title| ==> !IsSeparator(a.title[i]);
    UnseparatedTitlesCompareWhole(a, b, cases);
  }
}
