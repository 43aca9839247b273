// The plain-text content pipeline: tokenize, then group media.
module Pipeline {
  import opened Common
  import opened Content
  import opened Tokenizer
  import opened Grouper

  // Read the content as segments, cut those into stretches, one per output
  // segment: each stretch is passed through or is one media run collapsed.
  // What is read is what the kept matches come out as.
  ghost predicate Accounts(
    p: Parsers, emoji: map<string, Url>, rules: Rules, content: string, kept: seq<RawMatch>, segments: seq<Segment>)
    requires forall m :: m in kept ==> RegexMatch(content, m)
  {
    exists chunks ::
      && Covers(p, emoji, content, Flatten(chunks)) && Renders(p, emoji, content, kept, Flatten(chunks))
      && Explains(rules, chunks, segments)
  }

  // The tokenizer itself never emits a media segment.
  lemma CoveringSegmentsAreMediaFree(p: Parsers, emoji: map<string, Url>, content: string, segments: seq<Segment>)
    requires Covers(p, emoji, content, segments)
    ensures MediaFree(segments)
  {
    var pieces :| Segments(pieces) == segments && Source(pieces) == content
                  && AllRead(p, emoji, pieces) && Coalesced(pieces);
    ReadPiecesAreMediaFree(p, emoji, pieces);
  }

  lemma {:induction false} ReadPiecesAreMediaFree(p: Parsers, emoji: map<string, Url>, pieces: seq<Piece>)
    requires AllRead(p, emoji, pieces)
    ensures MediaFree(Segments(pieces))
  {
    if pieces != [] {
      assert Reads(p, emoji, pieces[|pieces| - 1]);
      ReadPiecesAreMediaFree(p, emoji, pieces[..|pieces| - 1]);
    }
  }

  // Two media segments of one kind have something solid between them.
  ghost predicate RunsAreMaximal(rules: Rules, segs: seq<Segment>)
  {
    forall i, j :: 0 <= i < j < |segs| && segs[i].Media? && segs[j].Media? && segs[i].kind == segs[j].kind
                   ==> SolidBetween(rules, segs, i, j)
  }

  ghost predicate SolidBetween(rules: Rules, segs: seq<Segment>, i: int, j: int)
    requires 0 <= i < j < |segs|
  {
    exists m :: i < m < j && !Light(rules, segs[m])
  }

  // Grouping segments that cover the content: each output segment stands for a
  // stretch of them, runs are maximal and no media URL is left.
  lemma GroupedTokens(p: Parsers, emoji: map<string, Url>, rules: Rules, content: string, inline: seq<Segment>)
    returns (chunks: seq<seq<Segment>>)
    requires Covers(p, emoji, content, inline)
    ensures Flatten(chunks) == inline && Explains(rules, chunks, Group(rules, inline))
    ensures RunsAreMaximal(rules, Group(rules, inline)) && NoMediaUrls(rules, Group(rules, inline))
  {
    chunks := GroupConserves(rules, inline);
    var out := Group(rules, inline);
    GroupLeavesNoMediaUrls(rules, inline);
    CoveringSegmentsAreMediaFree(p, emoji, content, inline);
    forall i, j | 0 <= i < j < |out| && out[i].Media? && out[j].Media? && out[i].kind == out[j].kind
      ensures SolidBetween(rules, out, i, j)
    {
      GroupedRunsAreMaximal(rules, inline, i, j);
    }
  }

  // For any regex output that meets the contract: where the pass finishes, no
  // source character is lost, every media URL ends up in a media segment, and media
  // runs are maximal.
  method TokenizeInlineWithGrouping(
    p: Parsers, emoji: map<string, Url>, rules: Rules, content: string, found: seq<seq<RawMatch>>)
    returns (segments: Option<seq<Segment>>)
    requires LowerKeepsText(p)
    requires forall m :: m in Flatten(found) ==> RegexMatch(content, m)
    ensures var kept := Resolve(Sort(Flatten(found)));
            AllInBounds(content, kept) && (segments.Some? <==> NoneCut(content, kept))
    ensures var kept := Resolve(Sort(Flatten(found)));
            segments.Some? ==>
              (forall m :: m in kept ==> RegexMatch(content, m)) && Accounts(p, emoji, rules, content, kept, segments.value)
    ensures segments.Some? ==> RunsAreMaximal(rules, segments.value) && NoMediaUrls(rules, segments.value)
  {
    var inline := TokenizeInline(p, emoji, content, found);
    if inline.None? {
      return None;
    }
    var grouped := GroupConsecutiveMedia(rules, inline.value);
    ghost var chunks := GroupedTokens(p, emoji, rules, content, inline.value);
    return Some(grouped);
  }
}
