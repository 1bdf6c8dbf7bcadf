/**
 * `sanitizeLinkInText` (identical loop in worker/src/sanitizer.ts and
 * utils/sanitizer.ts): take the first `maxLinks` links linkify found, and
 * for each whose sanitisation succeeds splice the new URL over the link's
 * span, shifted by the length change of the earlier replacements. Link
 * extraction is an input: the links with their spans, in text order.
 */
module TextRewriter {
  import opened Base
  import opened JsText

  /** A link found in the text: its href and its span `[start, end)`. */
  datatype Link = Link(href: string, start: int, end: int)

  /** The loop state: `sanitizedText`, `sanitizedLinks` and `offset`. */
  datatype Progress = Progress(text: string, links: seq<string>, offset: int)

  /** `sanitizeURL(href)`: the sanitised URL, or None when it throws. */
  type LinkSanitizer = string -> Option<string>

  /** The default of `maxLinks` in both copies. */
  const DefaultMaxLinks: int := 1

  /** One iteration of the loop body; a link whose sanitisation throws changes nothing. */
  function Step(p: Progress, link: Link, outcome: Option<string>): Progress
  {
    match outcome
    case None => p
    case Some(sanitized) =>
      var start := link.start + p.offset;
      var end := link.end + p.offset;
      Progress(
        Substring(p.text, 0, start) + sanitized + SubstringFrom(p.text, end),
        p.links + [sanitized],
        p.offset + |sanitized| - (end - start))
  }

  /** The loop over `links`, from state `p`. */
  function Run(p: Progress, links: seq<Link>, sanitize: LinkSanitizer): Progress
    decreases |links|
  {
    if links == [] then p
    else Run(Step(p, links[0], sanitize(links[0].href)), links[1..], sanitize)
  }

  /**
   * What `sanitizeLinkInText` returns: the rewritten text and the sanitised
   * links. No links leave the text alone; there are never more sanitised
   * links than found ones; and when the processed spans are well formed the
   * text is the expected splice, as long as the original plus the length
   * changes.
   */
  function Rewrite(text: string, found: seq<Link>, maxLinks: int, sanitize: LinkSanitizer): (r: (string, seq<string>))
    ensures found == [] ==> r == (text, [])
    ensures |r.1| <= |found|
    ensures Spans(text, SlicePrefix(found, maxLinks), 0) ==>
      r.0 == Expected(text, SlicePrefix(found, maxLinks), sanitize, 0) &&
      |r.0| == |text| + Shift(SlicePrefix(found, maxLinks), sanitize)
  {
    if found == [] then (text, [])
    else
      var links := SlicePrefix(found, maxLinks);
      var p := Run(Progress(text, [], 0), links, sanitize);
      RunLinks(Progress(text, [], 0), links, sanitize);
      assert Spans(text, links, 0) ==> p.text == Expected(text, links, sanitize, 0) && |p.text| == |text| + Shift(links, sanitize) by {
        if Spans(text, links, 0) {
          SplicedText(text, links, sanitize);
        }
      }
      (p.text, p.links)
  }

  /** `sanitizeLinkInText(text, rules, maxLinks)`, with linkify's result as `found`. */
  method SanitizeLinkInText(text: string, found: seq<Link>, maxLinks: int, sanitize: LinkSanitizer)
    returns (outText: string, links: seq<string>)
    ensures (outText, links) == Rewrite(text, found, maxLinks, sanitize)
    ensures found == [] ==> outText == text && links == []
  {
    if |found| == 0 {
      return text, [];
    }
    var sanitizedLinks: seq<string> := [];
    var sanitizedText := text;
    var offset := 0;
    var linksToProcess := SlicePrefix(found, maxLinks);
    for i := 0 to |linksToProcess|
      invariant Run(Progress(sanitizedText, sanitizedLinks, offset), linksToProcess[i..], sanitize) ==
                Run(Progress(text, [], 0), linksToProcess, sanitize)
    {
      var link := linksToProcess[i];
      var outcome := sanitize(link.href);
      if outcome.Some? {
        var sanitized := outcome.value;
        sanitizedLinks := sanitizedLinks + [sanitized];
        var start := link.start + offset;
        var end := link.end + offset;
        sanitizedText := Substring(sanitizedText, 0, start) + sanitized + SubstringFrom(sanitizedText, end);
        offset := offset + |sanitized| - (end - start);
      }
      assert linksToProcess[i..][1..] == linksToProcess[i + 1..];
    }
    return sanitizedText, sanitizedLinks;
  }

  /** The sanitised URLs of the links whose sanitisation succeeds, in order. */
  function Successes(links: seq<Link>, sanitize: LinkSanitizer): seq<string>
    decreases |links|
  {
    if links == [] then []
    else
      (match sanitize(links[0].href) case Some(u) => [u] case None => []) + Successes(links[1..], sanitize)
  }

  lemma {:induction false} RunLinks(p: Progress, links: seq<Link>, sanitize: LinkSanitizer)
    ensures Run(p, links, sanitize).links == p.links + Successes(links, sanitize)
    ensures |Successes(links, sanitize)| <= |links|
    decreases |links|
  {
    if links != [] {
      var q := Step(p, links[0], sanitize(links[0].href));
      RunLinks(q, links[1..], sanitize);
    }
  }

  /**
   * The returned list holds, in order, the sanitised URLs of the processed
   * links that succeeded; only the first `maxLinks` links are processed.
   */
  lemma ReturnedLinks(text: string, found: seq<Link>, maxLinks: int, sanitize: LinkSanitizer)
    ensures Rewrite(text, found, maxLinks, sanitize).1 == Successes(SlicePrefix(found, maxLinks), sanitize)
    ensures 0 <= maxLinks ==> |Rewrite(text, found, maxLinks, sanitize).1| <= if maxLinks < |found| then maxLinks else |found|
  {
    if found != [] {
      RunLinks(Progress(text, [], 0), SlicePrefix(found, maxLinks), sanitize);
    }
  }

  /** With the default `maxLinks`, only the first link is processed. */
  lemma DefaultProcessesFirstLinkOnly(text: string, found: seq<Link>, sanitize: LinkSanitizer)
    requires found != []
    ensures Rewrite(text, found, DefaultMaxLinks, sanitize) == Rewrite(text, found[..1], DefaultMaxLinks, sanitize)
    ensures |Rewrite(text, found, DefaultMaxLinks, sanitize).1| <= 1
  {
    assert SlicePrefix(found, 1) == found[..1] == SlicePrefix(found[..1], 1);
    ReturnedLinks(text, found, DefaultMaxLinks, sanitize);
  }

  /**
   * The spans lie in `text`, from position `from` on, in order and without
   * overlap, as linkify reports them.
   */
  predicate Spans(text: string, links: seq<Link>, from: int)
    decreases |links|
  {
    links == [] ||
    (from <= links[0].start <= links[0].end <= |text| && Spans(text, links[1..], links[0].end))
  }

  /** `Spans` spelled out: every span lies in the text after `from`, and each ends before the next starts. */
  lemma {:induction false} SpansMeans(text: string, links: seq<Link>, from: int)
    ensures Spans(text, links, from) <==>
      (forall i :: 0 <= i < |links| ==> from <= links[i].start <= links[i].end <= |text|) &&
      (forall i :: 0 <= i < |links| - 1 ==> links[i].end <= links[i + 1].start)
    decreases |links|
  {
    if links != [] {
      var tail := links[1..];
      SpansMeans(text, tail, links[0].end);
      assert forall i :: 0 <= i < |tail| ==> tail[i] == links[i + 1];
      if Spans(text, links, from) {
        forall i | 0 <= i < |links| ensures from <= links[i].start <= links[i].end <= |text| {
          if i > 0 {
            assert tail[i - 1] == links[i];
          }
        }
        forall i | 0 <= i < |links| - 1 ensures links[i].end <= links[i + 1].start {
          assert tail[i] == links[i + 1];
          if i > 0 {
            assert tail[i - 1] == links[i];
          }
        }
      }
      if (forall i :: 0 <= i < |links| ==> from <= links[i].start <= links[i].end <= |text|) &&
         (forall i :: 0 <= i < |links| - 1 ==> links[i].end <= links[i + 1].start) {
        forall i | 0 <= i < |tail| ensures links[0].end <= tail[i].start <= tail[i].end <= |text| {
          SpansOrdered(links, i + 1);
        }
        assert forall i :: 0 <= i < |tail| - 1 ==> tail[i].end <= tail[i + 1].start;
      }
    }
  }

  /** The first `n` of a list of well-formed spans are well formed too. */
  lemma {:induction false} SpansPrefix(text: string, links: seq<Link>, from: int, n: nat)
    requires Spans(text, links, from) && n <= |links|
    ensures Spans(text, links[..n], from)
    decreases n
  {
    if n > 0 {
      var pre := links[..n];
      assert pre[0] == links[0] && pre[1..] == links[1..][..n - 1];
      SpansPrefix(text, links[1..], links[0].end, n - 1);
    }
  }

  /**
   * For well-formed spans, `sanitizeLinkInText` splices each processed
   * link's piece over its span: the result is the expected rewrite of the
   * first `maxLinks` links.
   */
  lemma RewriteSplices(text: string, found: seq<Link>, maxLinks: int, sanitize: LinkSanitizer)
    requires Spans(text, found, 0)
    ensures Spans(text, SlicePrefix(found, maxLinks), 0)
    ensures Rewrite(text, found, maxLinks, sanitize).0 == Expected(text, SlicePrefix(found, maxLinks), sanitize, 0)
  {
    SpansPrefix(text, found, 0, |SlicePrefix(found, maxLinks)|);
  }

  lemma {:induction false} SpansOrdered(links: seq<Link>, k: nat)
    requires 0 < k < |links|
    requires forall i :: 0 <= i < |links| ==> links[i].start <= links[i].end
    requires forall i :: 0 <= i < |links| - 1 ==> links[i].end <= links[i + 1].start
    ensures links[0].end <= links[k].start
    decreases k
  {
    if k > 1 {
      SpansOrdered(links, k - 1);
    }
  }

  /** What stands in the final text for one link: its sanitised URL, or the original span. */
  function Piece(text: string, link: Link, outcome: Option<string>): string
  {
    match outcome
    case Some(u) => u
    case None => Substring(text, link.start, link.end)
  }

  /**
   * The intended result, written without offsets: the text from `from` on,
   * with each link's span replaced by its piece.
   */
  function Expected(text: string, links: seq<Link>, sanitize: LinkSanitizer, from: nat): string
    requires from <= |text| && Spans(text, links, from)
    decreases |links|
  {
    if links == [] then text[from..]
    else
      text[from..links[0].start] + Piece(text, links[0], sanitize(links[0].href)) +
      Expected(text, links[1..], sanitize, links[0].end)
  }

  /** The length change one link causes: zero when its sanitisation throws. */
  function Delta(link: Link, outcome: Option<string>): int
  {
    match outcome
    case Some(u) => |u| - (link.end - link.start)
    case None => 0
  }

  /** The sum of the length changes of `links`. */
  function Shift(links: seq<Link>, sanitize: LinkSanitizer): int
    decreases |links|
  {
    if links == [] then 0
    else Delta(links[0], sanitize(links[0].href)) + Shift(links[1..], sanitize)
  }

  lemma ExpectedCons(text: string, links: seq<Link>, sanitize: LinkSanitizer, from: nat)
    requires from <= |text| && Spans(text, links, from) && links != []
    ensures from <= links[0].start <= links[0].end <= |text| && Spans(text, links[1..], links[0].end)
    ensures Expected(text, links, sanitize, from) ==
      text[from..links[0].start] + Piece(text, links[0], sanitize(links[0].href)) +
      Expected(text, links[1..], sanitize, links[0].end)
  {
      }

  lemma SliceOfJoin(done: string, rest: string, k: nat)
    requires k <= |rest|
    ensures (done + rest)[..|done| + k] == done + rest[..k]
    ensures (done + rest)[|done| + k..] == rest[k..]
  {
  }

  /** One step keeps the shape "done, then the untouched rest of the text". */
  lemma StepSplices(text: string, link: Link, outcome: Option<string>, p: Progress, done: string, from: nat)
    requires from <= link.start <= link.end <= |text|
    requires p.text == done + text[from..] && p.offset == |done| - from
    ensures Step(p, link, outcome).text == done + text[from..link.start] + Piece(text, link, outcome) + text[link.end..]
    ensures Step(p, link, outcome).offset == |done + text[from..link.start] + Piece(text, link, outcome)| - link.end
  {
    match outcome
    case Some(u) => SplicedStep(text, link, u, p, done, from);
    case None => UntouchedStep(text, link, done, from);
  }

  /** A successful link: its span in the current text is exactly the shifted span. */
  lemma SplicedStep(text: string, link: Link, u: string, p: Progress, done: string, from: nat)
    requires from <= link.start <= link.end <= |text|
    requires p.text == done + text[from..] && p.offset == |done| - from
    ensures Substring(p.text, 0, link.start + p.offset) == done + text[from..link.start]
    ensures SubstringFrom(p.text, link.end + p.offset) == text[link.end..]
  {
    var rest := text[from..];
    var a, b := link.start - from, link.end - from;
    assert rest[..a] == text[from..link.start];
    assert rest[b..] == text[link.end..];
    SliceOfJoin(done, rest, a);
    SliceOfJoin(done, rest, b);
  }

  /** A link whose sanitisation throws: the text already holds its original span. */
  lemma UntouchedStep(text: string, link: Link, done: string, from: nat)
    requires from <= link.start <= link.end <= |text|
    ensures done + text[from..] == done + text[from..link.start] + Substring(text, link.start, link.end) + text[link.end..]
  {
    var rest := text[from..];
    var a, b := link.start - from, link.end - from;
    assert rest[..a] == text[from..link.start];
    assert rest[a..b] == text[link.start..link.end];
    assert rest[b..] == text[link.end..];
    assert rest == rest[..a] + rest[a..b] + rest[b..];
  }

  /**
   * The offset bookkeeping is right: from any state whose text is `done`
   * followed by the untouched rest of `text` from `from`, and whose offset is
   * the length change so far, the loop produces `done` followed by the
   * expected rewrite of the rest, and its final offset is the total length
   * change.
   */
  lemma {:induction false} RunSplices(text: string, links: seq<Link>, sanitize: LinkSanitizer, p: Progress, done: string, from: nat)
    requires from <= |text| && Spans(text, links, from)
    requires p.text == done + text[from..] && p.offset == |done| - from
    ensures Run(p, links, sanitize).text == done + Expected(text, links, sanitize, from)
    ensures Run(p, links, sanitize).offset == |done| + |Expected(text, links, sanitize, from)| - |text|
    decreases |links|
  {
    if links != [] {
      var link := links[0];
      var outcome := sanitize(link.href);
      var done' := done + text[from..link.start] + Piece(text, link, outcome);
      StepSplices(text, link, outcome, p, done, from);
      var q := Step(p, link, outcome);
      assert q.text == done' + text[link.end..];
      assert q.offset == |done'| - link.end;
      assert Run(p, links, sanitize) == Run(q, links[1..], sanitize);
      RunSplices(text, links[1..], sanitize, q, done', link.end);
      ExpectedCons(text, links, sanitize, from);
      var e' := Expected(text, links[1..], sanitize, link.end);
      JoinAfter(done, text[from..link.start], Piece(text, link, outcome), e');
    }
  }

  lemma JoinAfter(done: string, a: string, b: string, e: string)
    ensures done + a + b + e == done + (a + b + e)
  {
  }

  /** The expected rewrite is longer than the text by exactly the total length change. */
  lemma {:induction false} ExpectedLength(text: string, links: seq<Link>, sanitize: LinkSanitizer, from: nat)
    requires from <= |text| && Spans(text, links, from)
    ensures |Expected(text, links, sanitize, from)| == |text| - from + Shift(links, sanitize)
    decreases |links|
  {
    if links != [] {
      ExpectedLength(text, links[1..], sanitize, links[0].end);
    }
  }

  /**
   * For well-formed spans, the loop's text is the expected rewrite, its
   * final offset is the sum of the length changes of the successful links,
   * and the final text is as long as the original plus that offset.
   */
  lemma SplicedText(text: string, links: seq<Link>, sanitize: LinkSanitizer)
    requires Spans(text, links, 0)
    ensures Run(Progress(text, [], 0), links, sanitize).text == Expected(text, links, sanitize, 0)
    ensures Run(Progress(text, [], 0), links, sanitize).offset == Shift(links, sanitize)
    ensures |Run(Progress(text, [], 0), links, sanitize).text| == |text| + Run(Progress(text, [], 0), links, sanitize).offset
  {
    assert text == [] + text[0..];
    RunSplices(text, links, sanitize, Progress(text, [], 0), [], 0);
    assert [] + Expected(text, links, sanitize, 0) == Expected(text, links, sanitize, 0);
    ExpectedLength(text, links, sanitize, 0);
  }

  /**
   * Link `k`'s piece sits in the expected rewrite at its original start
   * shifted by the length changes of the links before it.
   */
  lemma {:induction false} PieceAt(text: string, links: seq<Link>, sanitize: LinkSanitizer, from: nat, k: nat)
    requires from <= |text| && Spans(text, links, from) && k < |links|
    ensures var e := Expected(text, links, sanitize, from);
      var pos := links[k].start - from + Shift(links[..k], sanitize);
      var piece := Piece(text, links[k], sanitize(links[k].href));
      0 <= pos && pos + |piece| <= |e| && e[pos..pos + |piece|] == piece
    decreases k
  {
    ExpectedCons(text, links, sanitize, from);
    if k == 0 {
      assert links[..0] == [];
      FirstPieceAt(text, links, sanitize, from);
    } else {
      PieceAt(text, links[1..], sanitize, links[0].end, k - 1);
      LaterPieceAt(text, links, sanitize, from, k);
    }
  }

  /** The step of `PieceAt` past the first link: a piece of the rest's rewrite, moved behind the first piece. */
  lemma LaterPieceAt(text: string, links: seq<Link>, sanitize: LinkSanitizer, from: nat, k: nat)
    requires from <= |text| && Spans(text, links, from) && 0 < k < |links|
    requires var e := Expected(text, links[1..], sanitize, links[0].end);
      var pos := links[1..][k - 1].start - links[0].end + Shift(links[1..][..k - 1], sanitize);
      var piece := Piece(text, links[1..][k - 1], sanitize(links[1..][k - 1].href));
      0 <= pos && pos + |piece| <= |e| && e[pos..pos + |piece|] == piece
    ensures var e := Expected(text, links, sanitize, from);
      var pos := links[k].start - from + Shift(links[..k], sanitize);
      var piece := Piece(text, links[k], sanitize(links[k].href));
      0 <= pos && pos + |piece| <= |e| && e[pos..pos + |piece|] == piece
  {
    ExpectedCons(text, links, sanitize, from);
    var l := links[0];
    var head := text[from..l.start] + Piece(text, l, sanitize(l.href));
    var rest := Expected(text, links[1..], sanitize, l.end);
    assert links[1..][k - 1] == links[k];
    ShiftedPosition(text, links, sanitize, from, k);
    var pos' := links[k].start - l.end + Shift(links[1..][..k - 1], sanitize);
    SliceAfter(head, rest, pos', |Piece(text, links[k], sanitize(links[k].href))|);
  }

  /** Link `k`'s position in the whole rewrite is its position in the rewrite of the rest, after the first piece. */
  lemma ShiftedPosition(text: string, links: seq<Link>, sanitize: LinkSanitizer, from: nat, k: nat)
    requires from <= |text| && Spans(text, links, from) && 0 < k < |links|
    ensures links[k].start - from + Shift(links[..k], sanitize) ==
      |text[from..links[0].start] + Piece(text, links[0], sanitize(links[0].href))| +
      (links[k].start - links[0].end + Shift(links[1..][..k - 1], sanitize))
  {
    ExpectedCons(text, links, sanitize, from);
    PieceDelta(text, links[0], sanitize(links[0].href));
    ShiftCons(links, sanitize, k);
  }

  lemma FirstPieceAt(text: string, links: seq<Link>, sanitize: LinkSanitizer, from: nat)
    requires from <= |text| && Spans(text, links, from) && links != []
    ensures var e := Expected(text, links, sanitize, from);
      var pos := links[0].start - from;
      var piece := Piece(text, links[0], sanitize(links[0].href));
      0 <= pos && pos + |piece| <= |e| && e[pos..pos + |piece|] == piece
  {
    var l := links[0];
    var piece0 := Piece(text, l, sanitize(l.href));
    var rest := Expected(text, links[1..], sanitize, l.end);
    ExpectedCons(text, links, sanitize, from);
    SliceAfter(text[from..l.start], piece0 + rest, 0, |piece0|);
    assert Expected(text, links, sanitize, from) == text[from..l.start] + (piece0 + rest);
  }

  /** A piece's length is the span's length plus the link's length change. */
  lemma PieceDelta(text: string, link: Link, outcome: Option<string>)
    requires 0 <= link.start <= link.end <= |text|
    ensures |Piece(text, link, outcome)| == link.end - link.start + Delta(link, outcome)
  {
  }

  /** The shift before link `k` is the first link's change plus the shift of the rest before it. */
  lemma ShiftCons(links: seq<Link>, sanitize: LinkSanitizer, k: nat)
    requires 0 < k <= |links|
    ensures Shift(links[..k], sanitize) ==
      Delta(links[0], sanitize(links[0].href)) + Shift(links[1..][..k - 1], sanitize)
  {
    assert links[..k][1..] == links[1..][..k - 1];
    assert links[..k][0] == links[0];
  }

  lemma SliceAfter(head: string, rest: string, i: nat, n: nat)
    requires i + n <= |rest|
    ensures (head + rest)[|head| + i..|head| + i + n] == rest[i..i + n]
  {
  }

  /**
   * In the text the loop returns, each processed link's replacement (or its
   * untouched span) starts at the link's original start shifted by the
   * length changes of the earlier successful links, and not of itself.
   */
  lemma ReplacementLandsAtShiftedStart(text: string, links: seq<Link>, sanitize: LinkSanitizer, k: nat)
    requires Spans(text, links, 0) && k < |links|
    ensures var t := Run(Progress(text, [], 0), links, sanitize).text;
      var pos := links[k].start + Shift(links[..k], sanitize);
      var piece := Piece(text, links[k], sanitize(links[k].href));
      0 <= pos && pos + |piece| <= |t| && t[pos..pos + |piece|] == piece
  {
    SplicedText(text, links, sanitize);
    PieceAt(text, links, sanitize, 0, k);
  }
}
