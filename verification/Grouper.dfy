// Consecutive media URLs collapse into one media segment.
module Grouper {
  import opened Common
  import opened Content

  // What the grouper asks about URLs and characters.
  datatype Rules = Rules(mediaKind: Url -> Option<MediaKind>, whitespace: char -> bool)

  predicate IsBridgingText(rules: Rules, s: string)
  {
    forall i :: 0 <= i < |s| ==> rules.whitespace(s[i]) || s[i] in {',', '\U{00B7}', '|'}
  }

  // A text run that may stand between two URLs of one media run.
  predicate Bridges(rules: Rules, seg: Segment)
  {
    seg.Text? && IsBridgingText(rules, seg.text)
  }

  predicate AnyMediaUrl(rules: Rules, seg: Segment)
  {
    seg.AdCandidateUrl? && rules.mediaKind(seg.url).Some?
  }

  /******* The pass *******/

  datatype State = State(out: seq<Segment>, urls: seq<Url>, kind: Option<MediaKind>, bridge: seq<Segment>)

  const START: State := State([], [], None, [])

  function Flush(st: State): State
  {
    State(st.out + (if st.kind.Some? then [Media(st.urls, st.kind.value)] else []) + st.bridge, [], None, [])
  }

  function Step(rules: Rules, st: State, seg: Segment): State
  {
    if AnyMediaUrl(rules, seg) then
      var kind := rules.mediaKind(seg.url);
      if st.kind == kind then st.(urls := st.urls + [seg.url], bridge := [])
      else State(Flush(st).out, [seg.url], kind, [])
    else if st.kind.Some? && Bridges(rules, seg) then st.(bridge := st.bridge + [seg])
    else State(Flush(st).out + [seg], [], None, [])
  }

  function Fold(rules: Rules, input: seq<Segment>): State
  {
    if input == [] then START else Step(rules, Fold(rules, input[..|input| - 1]), input[|input| - 1])
  }

  function Group(rules: Rules, input: seq<Segment>): seq<Segment>
  {
    Flush(Fold(rules, input)).out
  }

  method FlushMedia(out: seq<Segment>, urls: seq<Url>, kind: Option<MediaKind>, bridge: seq<Segment>)
    returns (out': seq<Segment>)
    ensures out' == Flush(State(out, urls, kind, bridge)).out
  {
    out' := out;
    if kind.Some? {
      if |urls| == 1 {
        var only := urls[0];
        assert urls == [only];
        out' := out' + [Media([only], kind.value)];
      } else {
        out' := out' + [Media(urls, kind.value)];
      }
    }
    out' := out' + bridge;
  }

  method GroupConsecutiveMedia(rules: Rules, input: seq<Segment>) returns (out: seq<Segment>)
    ensures out == Group(rules, input)
  {
    out := [];
    var urls: seq<Url>, kind: Option<MediaKind>, bridge: seq<Segment> := [], None, [];
    for i := 0 to |input|
      invariant State(out, urls, kind, bridge) == Fold(rules, input[..i])
    {
      var seg := input[i];
      assert input[..i + 1][..i] == input[..i];
      if seg.AdCandidateUrl? {
        var k := rules.mediaKind(seg.url);
        if k.Some? {
          if kind == k {
            urls := urls + [seg.url];
            bridge := [];
            continue;
          }
          out := FlushMedia(out, urls, kind, bridge);
          urls, kind, bridge := [seg.url], k, [];
        } else {
          out := FlushMedia(out, urls, kind, bridge);
          urls, kind, bridge := [], None, [];
          out := out + [seg];
        }
      } else if kind.Some? && Bridges(rules, seg) {
        bridge := bridge + [seg];
      } else {
        out := FlushMedia(out, urls, kind, bridge);
        urls, kind, bridge := [], None, [];
        out := out + [seg];
      }
    }
    assert input[..|input|] == input;
    out := FlushMedia(out, urls, kind, bridge);
  }

  /******* What a pass does to its input *******/

  // Text of whitespace, commas, middle dots and bars only.
  ghost predicate Light(rules: Rules, seg: Segment)
  {
    && seg.Text?
    && forall i :: 0 <= i < |seg.text| ==>
         rules.whitespace(seg.text[i]) || seg.text[i] == ',' || seg.text[i] == '\U{00B7}' || seg.text[i] == '|'
  }

  ghost predicate MediaUrl(rules: Rules, seg: Segment, kind: MediaKind)
  {
    seg.AdCandidateUrl? && rules.mediaKind(seg.url) == Some(kind)
  }

  ghost predicate MediaUrlOfSomeKind(rules: Rules, seg: Segment)
  {
    seg.AdCandidateUrl? && rules.mediaKind(seg.url) != None
  }

  lemma BridgesAreLight(rules: Rules, seg: Segment)
    ensures Bridges(rules, seg) <==> Light(rules, seg)
  {
  }

  // The URLs of a run, in order.
  function RunUrls(run: seq<Segment>): seq<Url>
  {
    if run == [] then []
    else RunUrls(run[..|run| - 1]) + (if run[|run| - 1].AdCandidateUrl? then [run[|run| - 1].url] else [])
  }

  // A media run: starts and ends with a URL of the kind, in between only such
  // URLs and bridging text.
  ghost predicate IsRun(rules: Rules, run: seq<Segment>, kind: MediaKind)
  {
    && run != [] && MediaUrl(rules, run[0], kind) && MediaUrl(rules, run[|run| - 1], kind)
    && forall i :: 0 <= i < |run| ==> MediaUrl(rules, run[i], kind) || Light(rules, run[i])
  }

  // An output segment against the stretch of input it stands for: one segment
  // passed through, or one media run collapsed.
  ghost predicate StandsFor(rules: Rules, seg: Segment, chunk: seq<Segment>)
  {
    || (chunk == [seg] && !MediaUrlOfSomeKind(rules, seg))
    || (seg.Media? && IsRun(rules, chunk, seg.kind) && seg.urls == RunUrls(chunk))
  }

  ghost predicate Explains(rules: Rules, chunks: seq<seq<Segment>>, out: seq<Segment>)
  {
    |chunks| == |out| && forall i :: 0 <= i < |out| ==> StandsFor(rules, out[i], chunks[i])
  }

  ghost function Singletons(segs: seq<Segment>): (chunks: seq<seq<Segment>>)
    ensures |chunks| == |segs| && forall i :: 0 <= i < |segs| ==> chunks[i] == [segs[i]]
  {
    seq(|segs|, i requires 0 <= i < |segs| => [segs[i]])
  }

  lemma {:induction false} FlattenSingletons(segs: seq<Segment>)
    ensures Flatten(Singletons(segs)) == segs
  {
    if segs != [] {
      FlattenSingletons(segs[..|segs| - 1]);
      assert Singletons(segs)[..|segs| - 1] == Singletons(segs[..|segs| - 1]);
    }
  }

  // A state mid-pass: finished chunks, then the open run, then its bridge.
  ghost predicate Tracks(rules: Rules, input: seq<Segment>, st: State, chunks: seq<seq<Segment>>, run: seq<Segment>)
  {
    && Explains(rules, chunks, st.out)
    && input == Flatten(chunks) + run + st.bridge
    && (forall i :: 0 <= i < |st.bridge| ==> Light(rules, st.bridge[i]))
    && (st.kind.None? ==> run == [] && st.urls == [] && st.bridge == [])
    && (st.kind.Some? ==> IsRun(rules, run, st.kind.value) && st.urls == RunUrls(run))
  }

  lemma ExplainsMore(rules: Rules, chunks: seq<seq<Segment>>, out: seq<Segment>, more: seq<seq<Segment>>, out': seq<Segment>)
    requires Explains(rules, chunks, out) && Explains(rules, more, out')
    ensures Explains(rules, chunks + more, out + out') && Flatten(chunks + more) == Flatten(chunks) + Flatten(more)
  {
    FlattenAppend(chunks, more);
  }

  lemma FlushExplained(rules: Rules, input: seq<Segment>, st: State, chunks: seq<seq<Segment>>, run: seq<Segment>)
    returns (all: seq<seq<Segment>>)
    requires Tracks(rules, input, st, chunks, run)
    ensures Explains(rules, all, Flush(st).out) && Flatten(all) == input
  {
    if st.kind.None? {
      all := chunks;
      assert Flush(st).out == st.out && input == Flatten(chunks);
    } else {
      var media := Media(st.urls, st.kind.value);
      assert StandsFor(rules, media, run);
      assert [run][..0] == [] && Flatten([run]) == run;
      ExplainsMore(rules, chunks, st.out, [run], [media]);
      FlattenSingletons(st.bridge);
      ExplainsMore(rules, chunks + [run], st.out + [media], Singletons(st.bridge), st.bridge);
      all := chunks + [run] + Singletons(st.bridge);
    }
  }

  lemma {:induction false} RunUrlsAppend(a: seq<Segment>, b: seq<Segment>)
    ensures RunUrls(a + b) == RunUrls(a) + RunUrls(b)
  {
    if b == [] {
      assert a + b == a;
    } else {
      var init := b[..|b| - 1];
      RunUrlsAppend(a, init);
      AppendLast(a, b);
      Assoc(RunUrls(a), RunUrls(init), if b[|b| - 1].AdCandidateUrl? then [b[|b| - 1].url] else []);
    }
  }

  lemma {:induction false} BridgesHaveNoUrls(rules: Rules, bridge: seq<Segment>)
    requires forall i :: 0 <= i < |bridge| ==> Light(rules, bridge[i])
    ensures RunUrls(bridge) == []
  {
    if bridge != [] {
      BridgesHaveNoUrls(rules, bridge[..|bridge| - 1]);
    }
  }

  // A run extended over its bridge by one more URL of its kind.
  lemma RunGrows(rules: Rules, run: seq<Segment>, bridge: seq<Segment>, seg: Segment, kind: MediaKind)
    requires IsRun(rules, run, kind) && MediaUrl(rules, seg, kind)
    requires forall i :: 0 <= i < |bridge| ==> Light(rules, bridge[i])
    ensures IsRun(rules, run + bridge + [seg], kind)
    ensures RunUrls(run + bridge + [seg]) == RunUrls(run) + [seg.url]
  {
    RunUrlsAppend(run + bridge, [seg]);
    RunUrlsAppend(run, bridge);
    BridgesHaveNoUrls(rules, bridge);
    assert [seg][..0] == [] && RunUrls([seg]) == [seg.url];
    var all := run + bridge + [seg];
    forall i | 0 <= i < |all|
      ensures MediaUrl(rules, all[i], kind) || Light(rules, all[i])
    {
      if |run| <= i < |run| + |bridge| {
        assert all[i] == bridge[i - |run|];
      }
    }
  }

  lemma OneUrl(rules: Rules, seg: Segment, kind: MediaKind)
    requires MediaUrl(rules, seg, kind)
    ensures IsRun(rules, [seg], kind) && RunUrls([seg]) == [seg.url]
  {
    assert [seg][..0] == [];
  }

  lemma OneChunk(rules: Rules, seg: Segment)
    requires !AnyMediaUrl(rules, seg)
    ensures Explains(rules, [[seg]], [seg]) && Flatten([[seg]]) == [seg]
  {
    assert [[seg]][..0] == [];
  }

  // The open run takes the URL, over its bridge.
  lemma TrackGrow(rules: Rules, input: seq<Segment>, st: State, chunks: seq<seq<Segment>>, run: seq<Segment>, seg: Segment)
    returns (run': seq<Segment>)
    requires Tracks(rules, input, st, chunks, run) && AnyMediaUrl(rules, seg) && st.kind == rules.mediaKind(seg.url)
    ensures Tracks(rules, input + [seg], Step(rules, st, seg), chunks, run')
  {
    run' := run + st.bridge + [seg];
    RunGrows(rules, run, st.bridge, seg, st.kind.value);
    assert input + [seg] == Flatten(chunks) + run' + [];
  }

  // A URL of another kind opens a new run.
  lemma TrackOpen(rules: Rules, input: seq<Segment>, st: State, chunks: seq<seq<Segment>>, run: seq<Segment>, seg: Segment)
    returns (chunks': seq<seq<Segment>>)
    requires Tracks(rules, input, st, chunks, run) && AnyMediaUrl(rules, seg) && st.kind != rules.mediaKind(seg.url)
    ensures Tracks(rules, input + [seg], Step(rules, st, seg), chunks', [seg])
  {
    chunks' := FlushExplained(rules, input, st, chunks, run);
    OneUrl(rules, seg, rules.mediaKind(seg.url).value);
    assert input + [seg] == Flatten(chunks') + [seg] + [];
  }

  // Anything solid closes the run and stands for itself.
  lemma TrackClose(rules: Rules, input: seq<Segment>, st: State, chunks: seq<seq<Segment>>, run: seq<Segment>, seg: Segment)
    returns (chunks': seq<seq<Segment>>)
    requires Tracks(rules, input, st, chunks, run) && !AnyMediaUrl(rules, seg) && !(st.kind.Some? && Bridges(rules, seg))
    ensures Tracks(rules, input + [seg], Step(rules, st, seg), chunks', [])
  {
    var flushed := FlushExplained(rules, input, st, chunks, run);
    OneChunk(rules, seg);
    ExplainsMore(rules, flushed, Flush(st).out, [[seg]], [seg]);
    chunks' := flushed + [[seg]];
    assert input + [seg] == Flatten(chunks') + [] + [];
  }

  lemma StepTracked(rules: Rules, input: seq<Segment>, st: State, chunks: seq<seq<Segment>>, run: seq<Segment>, seg: Segment)
    returns (chunks': seq<seq<Segment>>, run': seq<Segment>)
    requires Tracks(rules, input, st, chunks, run)
    ensures Tracks(rules, input + [seg], Step(rules, st, seg), chunks', run')
  {
    chunks', run' := chunks, run;
    if AnyMediaUrl(rules, seg) && st.kind == rules.mediaKind(seg.url) {
      run' := TrackGrow(rules, input, st, chunks, run, seg);
    } else if AnyMediaUrl(rules, seg) {
      chunks' := TrackOpen(rules, input, st, chunks, run, seg);
      run' := [seg];
    } else if st.kind.Some? && Bridges(rules, seg) {
      BridgesAreLight(rules, seg);
      Assoc(Flatten(chunks) + run, st.bridge, [seg]);
    } else {
      chunks' := TrackClose(rules, input, st, chunks, run, seg);
      run' := [];
    }
  }

  lemma {:induction false} FoldTracked(rules: Rules, input: seq<Segment>) returns (chunks: seq<seq<Segment>>, run: seq<Segment>)
    ensures Tracks(rules, input, Fold(rules, input), chunks, run)
  {
    if input == [] {
      chunks, run := [], [];
    } else {
      var init := input[..|input| - 1];
      chunks, run := FoldTracked(rules, init);
      chunks, run := StepTracked(rules, init, Fold(rules, init), chunks, run, input[|input| - 1]);
      assert init + [input[|input| - 1]] == input;
    }
  }

  // Nothing is lost or moved: the input is cut into consecutive stretches, one
  // per output segment; a stretch is a segment passed through as it is or a
  // media run collapsed with all its URLs in order.
  lemma GroupConserves(rules: Rules, input: seq<Segment>) returns (chunks: seq<seq<Segment>>)
    ensures Flatten(chunks) == input && Explains(rules, chunks, Group(rules, input))
  {
    var open, run := FoldTracked(rules, input);
    chunks := FlushExplained(rules, input, Fold(rules, input), open, run);
  }

  // Where an element of the input sits in its cut.
  lemma {:induction false} Locate(chunks: seq<seq<Segment>>, i: nat) returns (j: nat, o: nat)
    requires i < |Flatten(chunks)|
    ensures j < |chunks| && o < |chunks[j]| && chunks[j][o] == Flatten(chunks)[i]
    ensures i == |Flatten(chunks[..j])| + o
  {
    var init, last := chunks[..|chunks| - 1], chunks[|chunks| - 1];
    if i < |Flatten(init)| {
      j, o := Locate(init, i);
      assert init[..j] == chunks[..j];
    } else {
      j, o := |chunks| - 1, i - |Flatten(init)|;
    }
  }

  lemma {:induction false} FlattenPrefix(chunks: seq<seq<Segment>>, j: nat)
    requires j <= |chunks|
    ensures Flatten(chunks[..j]) <= Flatten(chunks)
  {
    assert chunks == chunks[..j] + chunks[j..];
    FlattenAppend(chunks[..j], chunks[j..]);
  }

  // A text that holds any other character is never dropped nor spanned: it is an
  // output segment of its own, after exactly what stood before it.
  lemma HeavyTextStays(rules: Rules, input: seq<Segment>, i: nat) returns (chunks: seq<seq<Segment>>, j: nat)
    requires i < |input| && input[i].Text? && !Light(rules, input[i])
    ensures Flatten(chunks) == input && Explains(rules, chunks, Group(rules, input))
    ensures j < |chunks| && chunks[j] == [input[i]] && Flatten(chunks[..j]) == input[..i]
    ensures Group(rules, input)[j] == input[i]
  {
    chunks := GroupConserves(rules, input);
    var o;
    j, o := Locate(chunks, i);
    var seg := Group(rules, input)[j];
    assert StandsFor(rules, seg, chunks[j]);
    if seg.Media? && IsRun(rules, chunks[j], seg.kind) {
      assert MediaUrl(rules, chunks[j][o], seg.kind) || Light(rules, chunks[j][o]);
    }
    FlattenPrefix(chunks, j);
  }

  /******* Fixed points *******/

  ghost predicate NoMediaUrls(rules: Rules, segs: seq<Segment>)
  {
    forall i :: 0 <= i < |segs| ==> !MediaUrlOfSomeKind(rules, segs[i])
  }

  lemma {:induction false} FoldPassesThrough(rules: Rules, input: seq<Segment>)
    requires NoMediaUrls(rules, input)
    ensures Fold(rules, input) == State(input, [], None, [])
  {
    if input != [] {
      var init, last := input[..|input| - 1], input[|input| - 1];
      FoldPassesThrough(rules, init);
      assert Flush(State(init, [], None, [])).out == init;
      assert Step(rules, State(init, [], None, []), last) == State(init + [last], [], None, []);
    }
  }

  lemma GroupLeavesNoMediaUrls(rules: Rules, input: seq<Segment>)
    ensures NoMediaUrls(rules, Group(rules, input))
  {
    var chunks := GroupConserves(rules, input);
    var out := Group(rules, input);
    forall i | 0 <= i < |out|
      ensures !MediaUrlOfSomeKind(rules, out[i])
    {
      assert StandsFor(rules, out[i], chunks[i]);
    }
  }

  lemma GroupIsIdempotent(rules: Rules, input: seq<Segment>)
    ensures Group(rules, Group(rules, input)) == Group(rules, input)
  {
    var once := Group(rules, input);
    GroupLeavesNoMediaUrls(rules, input);
    FoldPassesThrough(rules, once);
    assert once + [] + [] == once;
  }

  /******* Runs are as long as they can be *******/

  // The last segment that is not bridging text.
  function LastSolid(rules: Rules, segs: seq<Segment>): Option<Segment>
  {
    if segs == [] then None
    else if Bridges(rules, segs[|segs| - 1]) then LastSolid(rules, segs[..|segs| - 1])
    else Some(segs[|segs| - 1])
  }

  predicate EndsInMedia(rules: Rules, segs: seq<Segment>, kind: MediaKind)
  {
    var last := LastSolid(rules, segs);
    last.Some? && last.value.Media? && last.value.kind == kind
  }

  // No media segment follows one of its kind over bridging text alone.
  predicate Apart(rules: Rules, segs: seq<Segment>)
  {
    segs == [] ||
    (Apart(rules, segs[..|segs| - 1]) &&
     var last := segs[|segs| - 1];
     last.Media? ==> !EndsInMedia(rules, segs[..|segs| - 1], last.kind))
  }

  ghost predicate MediaFree(segs: seq<Segment>)
  {
    forall i :: 0 <= i < |segs| ==> !segs[i].Media?
  }

  // Mid-pass: what is out is apart, and the open run, if any, may be flushed
  // without touching a run of its kind.
  ghost predicate Separates(rules: Rules, st: State)
  {
    && Apart(rules, st.out)
    && (forall i :: 0 <= i < |st.bridge| ==> Bridges(rules, st.bridge[i]))
    && (st.kind.None? ==> st.bridge == [] && forall k :: !EndsInMedia(rules, st.out, k))
    && (st.kind.Some? ==> !EndsInMedia(rules, st.out, st.kind.value))
  }

  lemma AppendOne(rules: Rules, segs: seq<Segment>, seg: Segment)
    ensures LastSolid(rules, segs + [seg]) == if Bridges(rules, seg) then LastSolid(rules, segs) else Some(seg)
    ensures Apart(rules, segs + [seg])
       <==> Apart(rules, segs) && (seg.Media? ==> !EndsInMedia(rules, segs, seg.kind))
  {
    assert (segs + [seg])[..|segs|] == segs;
  }

  lemma {:induction false} AppendBridge(rules: Rules, segs: seq<Segment>, bridge: seq<Segment>)
    requires forall i :: 0 <= i < |bridge| ==> Bridges(rules, bridge[i])
    ensures LastSolid(rules, segs + bridge) == LastSolid(rules, segs)
    ensures Apart(rules, segs) ==> Apart(rules, segs + bridge)
  {
    if bridge == [] {
      assert segs + bridge == segs;
    } else {
      var init, last := bridge[..|bridge| - 1], bridge[|bridge| - 1];
      AppendBridge(rules, segs, init);
      AppendOne(rules, segs + init, last);
      assert segs + init + [last] == segs + bridge;
    }
  }

  lemma FlushSeparates(rules: Rules, st: State)
    requires Separates(rules, st)
    ensures Apart(rules, Flush(st).out)
    ensures forall k :: EndsInMedia(rules, Flush(st).out, k) ==> st.kind == Some(k)
  {
    if st.kind.None? {
      assert Flush(st).out == st.out;
    } else {
      var media := Media(st.urls, st.kind.value);
      AppendOne(rules, st.out, media);
      AppendBridge(rules, st.out + [media], st.bridge);
    }
  }

  lemma StepSeparates(rules: Rules, st: State, seg: Segment)
    requires Separates(rules, st) && !seg.Media?
    ensures Separates(rules, Step(rules, st, seg))
  {
    FlushSeparates(rules, st);
    var out := Flush(st).out;
    AppendOne(rules, out, seg);
    forall k
      ensures EndsInMedia(rules, out + [seg], k) ==> Bridges(rules, seg) && st.kind == Some(k)
    {
      assert EndsInMedia(rules, out + [seg], k) ==> EndsInMedia(rules, out, k);
    }
  }

  lemma {:induction false} FoldSeparates(rules: Rules, input: seq<Segment>)
    requires MediaFree(input)
    ensures Separates(rules, Fold(rules, input))
  {
    if input != [] {
      FoldSeparates(rules, input[..|input| - 1]);
      StepSeparates(rules, Fold(rules, input[..|input| - 1]), input[|input| - 1]);
    }
  }

  lemma {:induction false} ApartMeans(rules: Rules, segs: seq<Segment>, i: nat, j: nat)
    requires Apart(rules, segs) && i < j < |segs| && segs[i].Media? && segs[j].Media? && segs[i].kind == segs[j].kind
    ensures exists m :: i < m < j && !Light(rules, segs[m])
  {
    if j < |segs| - 1 {
      ApartMeans(rules, segs[..|segs| - 1], i, j);
    } else if forall m :: i < m < j ==> Light(rules, segs[m]) {
      forall m | i < m < j
        ensures Bridges(rules, segs[m])
      {
        BridgesAreLight(rules, segs[m]);
      }
      assert segs[..i + 1] + segs[i + 1..j] == segs[..j];
      AppendBridge(rules, segs[..i + 1], segs[i + 1..j]);
      assert false;
    }
  }

  // On media-free input no two media segments of one kind are left with nothing
  // but bridging text between them.
  lemma GroupedRunsAreMaximal(rules: Rules, input: seq<Segment>, i: nat, j: nat)
    requires MediaFree(input) && i < j < |Group(rules, input)|
    requires Group(rules, input)[i].Media? && Group(rules, input)[j].Media?
    requires Group(rules, input)[i].kind == Group(rules, input)[j].kind
    ensures exists m :: i < m < j && !Light(rules, Group(rules, input)[m])
  {
    FoldSeparates(rules, input);
    FlushSeparates(rules, Fold(rules, input));
    ApartMeans(rules, Group(rules, input), i, j);
  }
}
