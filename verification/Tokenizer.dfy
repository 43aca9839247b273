// The inline tokenizer: regex matches, overlap resolution, classification.
module Tokenizer {
  import opened Common
  import opened Content

  datatype PatternKind = NostrUriPattern | EmojiPattern | HashtagPattern | UrlPattern | Bolt11Pattern | Bolt12Pattern | CashuPattern

  datatype RawMatch = RawMatch(start: nat, end: nat, capStart: nat, capEnd: nat, kind: PatternKind)

  // Library code the tokenizer calls.
  datatype Parsers = Parsers(
    nostr: string -> Option<NostrUri>,
    url: string -> Option<Url>,
    lower: string -> string)

  /******* Sorting: by start, longer first, ties in pattern order *******/

  predicate NoLater(a: RawMatch, b: RawMatch)
  {
    a.start < b.start || (a.start == b.start && a.end >= b.end)
  }

  predicate SameRank(a: RawMatch, b: RawMatch)
  {
    a.start == b.start && a.end == b.end
  }

  function Insert(s: seq<RawMatch>, m: RawMatch): seq<RawMatch>
  {
    if s == [] || NoLater(s[|s| - 1], m) then s + [m] else Insert(s[..|s| - 1], m) + [s[|s| - 1]]
  }

  function Sort(ms: seq<RawMatch>): seq<RawMatch>
  {
    if ms == [] then [] else Insert(Sort(ms[..|ms| - 1]), ms[|ms| - 1])
  }

  ghost predicate Sorted(s: seq<RawMatch>)
  {
    forall i, j :: 0 <= i < j < |s| ==> Precedes(s[i], s[j])
  }

  // The earlier start first, the longer match first among equal starts.
  ghost predicate Precedes(a: RawMatch, b: RawMatch)
  {
    a.start <= b.start && (a.start == b.start ==> b.end <= a.end)
  }

  // The matches ranked like m, in order.
  function Tied(s: seq<RawMatch>, m: RawMatch): seq<RawMatch>
  {
    if s == [] then [] else Tied(s[..|s| - 1], m) + (if SameRank(s[|s| - 1], m) then [s[|s| - 1]] else [])
  }

  lemma SortedAppend(s: seq<RawMatch>, m: RawMatch)
    requires Sorted(s) && forall x :: x in s ==> Precedes(x, m)
    ensures Sorted(s + [m])
  {
  }

  lemma {:induction false} InsertAdds(s: seq<RawMatch>, m: RawMatch)
    ensures multiset(Insert(s, m)) == multiset(s) + multiset{m}
    ensures forall x :: x in Insert(s, m) ==> x in s || x == m
  {
    if !(s == [] || NoLater(s[|s| - 1], m)) {
      InsertAdds(s[..|s| - 1], m);
      assert s == s[..|s| - 1] + [s[|s| - 1]];
    }
  }

  lemma {:induction false} InsertSorts(s: seq<RawMatch>, m: RawMatch)
    requires Sorted(s)
    ensures Sorted(Insert(s, m))
  {
    if s == [] || NoLater(s[|s| - 1], m) {
      assert forall x :: x in s ==> x == s[|s| - 1] || Precedes(x, s[|s| - 1]);
      SortedAppend(s, m);
    } else {
      var init, last := s[..|s| - 1], s[|s| - 1];
      InsertSorts(init, m);
      InsertAdds(init, m);
      SortedAppend(Insert(init, m), last);
    }
  }

  lemma {:induction false} InsertIsStable(s: seq<RawMatch>, m: RawMatch, k: RawMatch)
    ensures Tied(Insert(s, m), k) == Tied(s, k) + (if SameRank(m, k) then [m] else [])
  {
    if s == [] || NoLater(s[|s| - 1], m) {
      assert (s + [m])[..|s|] == s;
    } else {
      var init, last := s[..|s| - 1], s[|s| - 1];
      InsertIsStable(init, m, k);
      assert (Insert(init, m) + [last])[..|Insert(init, m)|] == Insert(init, m);
    }
  }

  lemma {:induction false} SortSorts(ms: seq<RawMatch>)
    ensures Sorted(Sort(ms)) && multiset(Sort(ms)) == multiset(ms)
    ensures forall m :: m in Sort(ms) ==> m in ms
    ensures forall k :: Tied(Sort(ms), k) == Tied(ms, k)
  {
    if ms != [] {
      var init, last := ms[..|ms| - 1], ms[|ms| - 1];
      SortSorts(init);
      InsertSorts(Sort(init), last);
      InsertAdds(Sort(init), last);
      assert ms == init + [last];
      forall k
        ensures Tied(Sort(ms), k) == Tied(ms, k)
      {
        InsertIsStable(Sort(init), last, k);
      }
    }
  }

  // One match list per pattern, gathered in pattern order and sorted.
  method CollectMatches(found: seq<seq<RawMatch>>) returns (out: seq<RawMatch>)
    ensures out == Sort(Flatten(found))
  {
    out := [];
    for i := 0 to |found|
      invariant out == Flatten(found[..i])
    {
      assert found[..i + 1][..i] == found[..i];
      var before := out;
      for j := 0 to |found[i]|
        invariant out == before + found[i][..j]
      {
        out := out + [found[i][j]];
      }
    }
    assert found[..|found|] == found;
    out := Sort(out);
  }

  /******* Overlap resolution *******/

  function Resolve(ms: seq<RawMatch>): seq<RawMatch>
  {
    if ms == [] then []
    else
      var kept, m := Resolve(ms[..|ms| - 1]), ms[|ms| - 1];
      if kept != [] && m.start < kept[|kept| - 1].end then kept else kept + [m]
  }

  method ResolveOverlaps(matches: seq<RawMatch>) returns (out: seq<RawMatch>)
    ensures out == Resolve(matches)
  {
    out := [];
    for i := 0 to |matches|
      invariant out == Resolve(matches[..i])
    {
      assert matches[..i + 1][..i] == matches[..i];
      if out != [] && matches[i].start < out[|out| - 1].end {
        continue;
      }
      out := out + [matches[i]];
    }
    assert matches[..|matches|] == matches;
  }

  ghost predicate Disjoint(ms: seq<RawMatch>)
  {
    forall i, j :: 0 <= i < j < |ms| ==> ms[i].end <= ms[j].start
  }

  lemma DisjointAppend(kept: seq<RawMatch>, m: RawMatch)
    requires Disjoint(kept) && kept != [] && kept[|kept| - 1].start <= kept[|kept| - 1].end <= m.start
    ensures Disjoint(kept + [m])
  {
    var last := kept[|kept| - 1];
    assert forall i :: 0 <= i < |kept| - 1 ==> kept[i].end <= last.start;
  }

  lemma {:induction false} KeptAreDisjoint(ms: seq<RawMatch>)
    requires forall m :: m in ms ==> m.start < m.end
    ensures Disjoint(Resolve(ms))
    ensures forall k :: k in Resolve(ms) ==> k in ms
  {
    if ms != [] {
      var init, m := ms[..|ms| - 1], ms[|ms| - 1];
      KeptAreDisjoint(init);
      assert ms == init + [m];
      var kept := Resolve(init);
      if kept != [] && kept[|kept| - 1].end <= m.start {
        assert kept[|kept| - 1] in ms;
        DisjointAppend(kept, m);
      }
    }
  }

  // m is kept, or overlaps a kept match that ranks no later.
  ghost predicate Accounted(kept: seq<RawMatch>, m: RawMatch)
  {
    m in kept || exists k :: k in kept && Shadows(k, m)
  }

  ghost predicate Shadows(k: RawMatch, m: RawMatch)
  {
    k.start <= m.start < k.end && (k.start == m.start ==> m.end <= k.end)
  }

  lemma AccountedStill(kept: seq<RawMatch>, more: RawMatch, m: RawMatch)
    requires Accounted(kept, m)
    ensures Accounted(kept + [more], m)
  {
    if m in kept {
      assert m in kept + [more];
    } else {
      var k :| k in kept && Shadows(k, m);
      assert k in kept + [more];
    }
  }

  // Nothing is dropped without an overlapping kept match that ranks no later.
  lemma {:induction false} EveryMatchIsAccounted(ms: seq<RawMatch>)
    requires Sorted(ms)
    ensures forall k :: k in Resolve(ms) ==> k in ms
    ensures forall m :: m in ms ==> Accounted(Resolve(ms), m)
  {
    if ms != [] {
      var init, m := ms[..|ms| - 1], ms[|ms| - 1];
      EveryMatchIsAccounted(init);
      assert ms == init + [m];
      var kept := Resolve(init);
      if kept != [] && m.start < kept[|kept| - 1].end {
        var last := kept[|kept| - 1];
        assert last in init && Shadows(last, m);
        assert Accounted(kept, m);
      } else {
        assert m in kept + [m];
        forall x | x in init
          ensures Accounted(kept + [m], x)
        {
          AccountedStill(kept, m, x);
        }
      }
    }
  }

  /******* Classification *******/

  // A segment together with the slice of content it stands for.
  datatype Piece = Piece(segment: Segment, src: string)

  // Leading occurrences of c dropped.
  function TrimLeading(s: string, c: char): string
  {
    if s != "" && s[0] == c then TrimLeading(s[1..], c) else s
  }

  // Trailing punctuation dropped.
  function TrimPunctuation(s: string): (r: string)
    ensures r <= s
  {
    if s != "" && s[|s| - 1] in {'.', ',', ';', ':', '!', '?', ')'} then TrimPunctuation(s[..|s| - 1]) else s
  }

  function AsciiLower(c: char): char
  {
    if 'A' <= c <= 'Z' then c + 32 as char else c
  }

  // `nostr:` in any ASCII case.
  predicate HasNostrScheme(raw: string)
  {
    |raw| >= 6
    && AsciiLower(raw[0]) == 'n' && AsciiLower(raw[1]) == 'o' && AsciiLower(raw[2]) == 's'
    && AsciiLower(raw[3]) == 't' && AsciiLower(raw[4]) == 'r' && raw[5] == ':'
  }

  function CanonicalNostrUri(raw: string): string
  {
    if HasNostrScheme(raw) then raw else "nostr:" + TrimLeading(raw, '@')
  }

  /******* The one slice by bytes *******/

  // How many bytes UTF-8 takes for a character.
  function Utf8Width(c: char): (width: nat)
    ensures width > 0
  {
    if c < '\U{0080}' then 1 else if c < '\U{0800}' then 2 else if c < '\U{10000}' then 3 else 4
  }

  function ByteLength(s: string): nat
  {
    if s == "" then 0 else Utf8Width(s[0]) + ByteLength(s[1..])
  }

  // The first n bytes, or None when byte n does not start a character: there the
  // slice panics.
  function BytePrefix(s: string, n: nat): Option<string>
  {
    if n == 0 then Some("")
    else if s == "" || Utf8Width(s[0]) > n then None
    else
      var rest := BytePrefix(s[1..], n - Utf8Width(s[0]));
      if rest.None? then None else Some([s[0]] + rest.value)
  }

  // Six bytes or more, the sixth of them inside a character.
  predicate CutsCharacter(raw: string)
  {
    ByteLength(raw) >= 6 && BytePrefix(raw, 6).None?
  }

  // The canonical URI as computed, None for a panic.
  function ComputeNostrUri(raw: string): Option<string>
  {
    if ByteLength(raw) >= 6 then
      var head := BytePrefix(raw, 6);
      if head.None? then None
      else if HasNostrScheme(head.value) then Some(raw)
      else Some("nostr:" + TrimLeading(raw, '@'))
    else Some("nostr:" + TrimLeading(raw, '@'))
  }

  lemma {:induction false} PrefixIsPrefix(s: string, n: nat)
    requires BytePrefix(s, n).Some?
    ensures BytePrefix(s, n).value <= s && |BytePrefix(s, n).value| <= n <= ByteLength(s)
  {
    if n != 0 {
      PrefixIsPrefix(s[1..], n - Utf8Width(s[0]));
    }
  }

  lemma {:induction false} AsciiPrefix(s: string, n: nat)
    requires n <= |s| && forall i :: 0 <= i < n ==> s[i] < '\U{0080}'
    ensures BytePrefix(s, n) == Some(s[..n]) && ByteLength(s) >= n
  {
    if n != 0 {
      AsciiPrefix(s[1..], n - 1);
      assert s[..n] == [s[0]] + s[1..][..n - 1];
    }
  }

  lemma SchemeIsAscii(s: string)
    requires HasNostrScheme(s)
    ensures forall i :: 0 <= i < 6 ==> s[i] < '\U{0080}'
  {
    assert forall i :: 0 <= i < 6 ==> AsciiLower(s[i]) < '\U{0080}';
  }

  // Comparing the first six bytes is comparing the first six characters, where the
  // slice is defined.
  lemma SchemeByBytes(raw: string)
    ensures ComputeNostrUri(raw) == if CutsCharacter(raw) then None else Some(CanonicalNostrUri(raw))
  {
    if HasNostrScheme(raw) {
      SchemeIsAscii(raw);
      AsciiPrefix(raw, 6);
    } else if BytePrefix(raw, 6).Some? {
      PrefixIsPrefix(raw, 6);
    }
  }

  // A nostr match can be cut: the pattern ignores case, and the long s is an s.
  lemma LongSIsCut(content: string, m: RawMatch)
    requires content == "npub1\U{017F}" && m == RawMatch(0, 6, 0, 6, NostrUriPattern)
    ensures RegexMatch(content, m) && content[m.start..m.end] == content && CutsCharacter(content)
  {
    var ascii, tail := content[..5], content[5..];
    assert tail == ['\U{017F}'] && Utf8Width(tail[0]) == 2;
    AsciiThen(content, 5, 1);
    assert tail[1..] == "";
  }

  lemma {:induction false} AsciiThen(s: string, n: nat, more: nat)
    requires n <= |s| && forall i :: 0 <= i < n ==> s[i] < '\U{0080}'
    ensures BytePrefix(s, n + more).Some? <==> BytePrefix(s[n..], more).Some?
    ensures ByteLength(s) == n + ByteLength(s[n..])
  {
    if n != 0 {
      AsciiThen(s[1..], n - 1, more);
      assert s[1..][n - 1..] == s[n..];
    }
  }

  function ClassifyMatch(p: Parsers, emoji: map<string, Url>, kind: PatternKind, raw: string, capture: string): Option<Segment>
  {
    match kind
    case NostrUriPattern =>
      (match p.nostr(CanonicalNostrUri(raw))
       case None => None
       case Some(uri) => if uri.Profile? then Some(Mention(uri)) else Some(EventRef(uri)))
    case EmojiPattern => Some(Emoji(capture, if capture in emoji then Some(emoji[capture]) else None))
    case HashtagPattern =>
      var tag := p.lower(TrimLeading(capture, '#'));
      if tag == "" then None else Some(Hashtag(tag))
    case UrlPattern => None
    case Bolt11Pattern => Some(Invoice(Bolt11, raw))
    case Bolt12Pattern => Some(Invoice(Bolt12, raw))
    case CashuPattern => Some(Invoice(Cashu, raw))
  }

  // Where slicing the content by the match is defined.
  predicate InBounds(content: string, m: RawMatch)
  {
    && m.start <= m.end <= |content| && m.start <= m.capStart <= m.capEnd <= m.end
    && (m.kind.HashtagPattern? ==> m.start < m.capStart)
  }

  function TextPiece(s: string): seq<Piece>
  {
    if s == "" then [] else [Piece(Text(s), s)]
  }

  // The separator, then the tag; or the whole match when the tag is empty.
  function HashtagPieces(prefix: string, rest: string, seg: Option<Segment>): seq<Piece>
  {
    TextPiece(prefix) + [if seg.Some? then Piece(seg.value, rest) else Piece(Text(prefix + rest), prefix + rest)]
  }

  // The parsed URL, then the punctuation trimmed off it.
  function UrlPieces(trimmed: string, trailing: string, url: Option<Url>): seq<Piece>
  {
    if url.Some? then [Piece(AdCandidateUrl(url.value), trimmed)] + TextPiece(trailing)
    else [Piece(Text(trimmed + trailing), trimmed + trailing)]
  }

  function MatchPieces(p: Parsers, emoji: map<string, Url>, content: string, m: RawMatch): seq<Piece>
    requires InBounds(content, m)
  {
    var raw, capture := content[m.start..m.end], content[m.capStart..m.capEnd];
    var seg := ClassifyMatch(p, emoji, m.kind, raw, capture);
    match m.kind
    case HashtagPattern => HashtagPieces(content[m.start..m.capStart - 1], content[m.capStart - 1..m.end], seg)
    case UrlPattern =>
      var trimmed := TrimPunctuation(raw);
      UrlPieces(trimmed, raw[|trimmed|..], p.url(trimmed))
    case _ => [Piece(if seg.Some? then seg.value else Text(raw), raw)]
  }

  function EndOf(ms: seq<RawMatch>): nat
  {
    if ms == [] then 0 else ms[|ms| - 1].end
  }

  predicate AllInBounds(content: string, ms: seq<RawMatch>)
  {
    forall i :: 0 <= i < |ms| ==> InBounds(content, ms[i])
  }

  function Gap(content: string, from: nat, to: nat): seq<Piece>
    requires to <= |content|
  {
    if to > from then TextPiece(content[from..to]) else []
  }

  function MatchParts(p: Parsers, emoji: map<string, Url>, content: string, ms: seq<RawMatch>): (parts: seq<seq<Piece>>)
    requires AllInBounds(content, ms)
    ensures |parts| == |ms|
  {
    if ms == [] then []
    else
      MatchParts(p, emoji, content, ms[..|ms| - 1]) + [MatchPieces(p, emoji, content, ms[|ms| - 1])]
  }

  lemma {:induction false} MatchPartAt(p: Parsers, emoji: map<string, Url>, content: string, ms: seq<RawMatch>, i: nat)
    requires AllInBounds(content, ms) && i < |ms|
    ensures MatchParts(p, emoji, content, ms)[i] == MatchPieces(p, emoji, content, ms[i])
  {
    if i < |ms| - 1 {
      MatchPartAt(p, emoji, content, ms[..|ms| - 1], i);
    }
  }

  // The first n matches' pieces, with the text between them.
  ghost function Weave(content: string, ms: seq<RawMatch>, parts: seq<seq<Piece>>, n: nat): seq<Piece>
    requires AllInBounds(content, ms) && n <= |ms| == |parts|
  {
    if n == 0 then []
    else Weave(content, ms, parts, n - 1) + Gap(content, EndOf(ms[..n - 1]), ms[n - 1].start) + parts[n - 1]
  }

  ghost function Pieces(p: Parsers, emoji: map<string, Url>, content: string, ms: seq<RawMatch>): seq<Piece>
    requires AllInBounds(content, ms)
  {
    Weave(content, ms, MatchParts(p, emoji, content, ms), |ms|) + Gap(content, EndOf(ms), |content|)
  }

  function Segments(pieces: seq<Piece>): seq<Segment>
  {
    if pieces == [] then [] else Segments(pieces[..|pieces| - 1]) + [pieces[|pieces| - 1].segment]
  }

  lemma {:induction false} SegmentsAppend(a: seq<Piece>, b: seq<Piece>)
    ensures Segments(a + b) == Segments(a) + Segments(b)
  {
    if b == [] {
      assert a + b == a;
    } else {
      var init := b[..|b| - 1];
      SegmentsAppend(a, init);
      AppendLast(a, b);
      Assoc(Segments(a), Segments(init), [b[|b| - 1].segment]);
    }
  }

  function Source(pieces: seq<Piece>): string
  {
    if pieces == [] then "" else Source(pieces[..|pieces| - 1]) + pieces[|pieces| - 1].src
  }

  // Adjacent text runs become one.
  function AppendSegment(out: seq<Segment>, next: Segment): seq<Segment>
  {
    if out != [] && out[|out| - 1].Text? && next.Text?
    then out[..|out| - 1] + [Text(out[|out| - 1].text + next.text)]
    else out + [next]
  }

  function Join(segments: seq<Segment>): seq<Segment>
  {
    if segments == [] then [] else AppendSegment(Join(segments[..|segments| - 1]), segments[|segments| - 1])
  }

  method CoalesceText(input: seq<Segment>) returns (out: seq<Segment>)
    ensures out == Join(input)
  {
    out := [];
    for i := 0 to |input|
      invariant out == Join(input[..i])
    {
      assert input[..i + 1][..i] == input[..i];
      if out != [] && out[|out| - 1].Text? && input[i].Text? {
        out := out[..|out| - 1] + [Text(out[|out| - 1].text + input[i].text)];
      } else {
        out := out + [input[i]];
      }
    }
    assert input[..|input|] == input;
  }

  lemma SegmentsOfFew(a: Piece, text: string)
    ensures Segments([a]) == [a.segment]
    ensures Segments(TextPiece(text)) == if text == "" then [] else [Text(text)]
    ensures Segments(TextPiece(text) + [a]) == Segments(TextPiece(text)) + [a.segment]
    ensures Segments([a] + TextPiece(text)) == [a.segment] + Segments(TextPiece(text))
  {
    assert [a][..0] == [];
    if text != "" {
      assert TextPiece(text)[..0] == [];
    }
    SegmentsAppend(TextPiece(text), [a]);
    SegmentsAppend([a], TextPiece(text));
  }

  method EmitHashtag(prefix: string, rest: string, seg: Option<Segment>) returns (out: seq<Segment>)
    ensures out == Segments(HashtagPieces(prefix, rest, seg))
  {
    out := [];
    if prefix != "" {
      out := [Text(prefix)];
    }
    if seg.Some? {
      SegmentsOfFew(Piece(seg.value, rest), prefix);
      out := out + [seg.value];
    } else {
      SegmentsOfFew(Piece(Text(prefix + rest), prefix + rest), prefix);
      out := out + [Text(prefix + rest)];
    }
  }

  method EmitUrl(trimmed: string, trailing: string, url: Option<Url>) returns (out: seq<Segment>)
    ensures out == Segments(UrlPieces(trimmed, trailing, url))
  {
    if url.None? {
      SegmentsOfFew(Piece(Text(trimmed + trailing), trimmed + trailing), "");
      return [Text(trimmed + trailing)];
    }
    SegmentsOfFew(Piece(AdCandidateUrl(url.value), trimmed), trailing);
    if trailing != "" {
      return [AdCandidateUrl(url.value), Text(trailing)];
    }
    return [AdCandidateUrl(url.value)];
  }

  // A nostr match whose sixth byte is inside a character.
  predicate IsCut(content: string, m: RawMatch)
    requires InBounds(content, m)
  {
    m.kind.NostrUriPattern? && CutsCharacter(content[m.start..m.end])
  }

  predicate NoneCut(content: string, ms: seq<RawMatch>)
    requires AllInBounds(content, ms)
  {
    forall i :: 0 <= i < |ms| ==> !IsCut(content, ms[i])
  }

  // Which matches are cut.
  function Cuts(content: string, ms: seq<RawMatch>): (cuts: seq<bool>)
    requires AllInBounds(content, ms)
    ensures |cuts| == |ms|
  {
    if ms == [] then [] else Cuts(content, ms[..|ms| - 1]) + [IsCut(content, ms[|ms| - 1])]
  }

  lemma {:induction false} CutAt(content: string, ms: seq<RawMatch>, i: nat)
    requires AllInBounds(content, ms) && i < |ms|
    ensures Cuts(content, ms)[i] == IsCut(content, ms[i])
  {
    if i < |ms| - 1 {
      CutAt(content, ms[..|ms| - 1], i);
    }
  }

  lemma NoCutIsNoneCut(content: string, ms: seq<RawMatch>)
    requires AllInBounds(content, ms)
    ensures NoneCut(content, ms) <==> true !in Cuts(content, ms)
  {
    forall i | 0 <= i < |ms|
      ensures Cuts(content, ms)[i] == IsCut(content, ms[i])
    {
      CutAt(content, ms, i);
    }
  }

  // What the classify loop emits for one match; None when it panics.
  method EmitMatch(p: Parsers, emoji: map<string, Url>, content: string, m: RawMatch) returns (out: Option<seq<Segment>>)
    requires InBounds(content, m)
    ensures out == if IsCut(content, m) then None else Some(Segments(MatchPieces(p, emoji, content, m)))
  {
    var raw, capture := content[m.start..m.end], content[m.capStart..m.capEnd];
    if m.kind.NostrUriPattern? {
      SchemeByBytes(raw);
      if ComputeNostrUri(raw).None? {
        return None;
      }
    }
    var seg := ClassifyMatch(p, emoji, m.kind, raw, capture);
    var segments;
    match m.kind {
      case HashtagPattern =>
        var prefix, rest := content[m.start..m.capStart - 1], content[m.capStart - 1..m.end];
        assert MatchPieces(p, emoji, content, m) == HashtagPieces(prefix, rest, seg);
        segments := EmitHashtag(prefix, rest, seg);
      case UrlPattern =>
        var trimmed := TrimPunctuation(raw);
        assert MatchPieces(p, emoji, content, m) == UrlPieces(trimmed, raw[|trimmed|..], p.url(trimmed));
        segments := EmitUrl(trimmed, raw[|trimmed|..], p.url(trimmed));
      case _ =>
        assert MatchPieces(p, emoji, content, m) == [Piece(if seg.Some? then seg.value else Text(raw), raw)];
        segments := [if seg.Some? then seg.value else Text(raw)];
        SegmentsOfFew(Piece(if seg.Some? then seg.value else Text(raw), raw), "");
    }
    return Some(segments);
  }

  lemma WeaveSegments(content: string, ms: seq<RawMatch>, parts: seq<seq<Piece>>, n: nat)
    requires AllInBounds(content, ms) && n < |ms| == |parts|
    ensures Segments(Weave(content, ms, parts, n + 1))
         == Segments(Weave(content, ms, parts, n))
            + Segments(Gap(content, EndOf(ms[..n]), ms[n].start)) + Segments(parts[n])
    ensures EndOf(ms[..n + 1]) == ms[n].end
  {
    var done, gap := Weave(content, ms, parts, n), Gap(content, EndOf(ms[..n]), ms[n].start);
    SegmentsAppend(done, gap);
    SegmentsAppend(done + gap, parts[n]);
  }

  // The text between two offsets, if any.
  method EmitGap(content: string, from: nat, to: nat) returns (out: seq<Segment>)
    requires to <= |content|
    ensures out == Segments(Gap(content, from, to))
  {
    if to > from {
      out := [Text(content[from..to])];
      assert Gap(content, from, to)[..0] == [];
    } else {
      out := [];
    }
  }

  // What has been emitted for the first n matches.
  ghost predicate Emitted(content: string, ms: seq<RawMatch>, parts: seq<seq<Piece>>, n: nat, out: seq<Segment>)
    requires AllInBounds(content, ms) && n <= |ms| == |parts|
  {
    out == Segments(Weave(content, ms, parts, n))
  }

  // The body of the classify loop: the text before a match, then the match.
  method EmitNext(
    p: Parsers, emoji: map<string, Url>, content: string, matches: seq<RawMatch>, ghost parts: seq<seq<Piece>>, ghost cuts: seq<bool>,
    i: nat, cursor: nat, out: seq<Segment>)
    returns (next: Option<seq<Segment>>, end: nat)
    requires AllInBounds(content, matches) && i < |matches| == |parts| == |cuts|
    requires parts[i] == MatchPieces(p, emoji, content, matches[i]) && cuts[i] == IsCut(content, matches[i])
    requires cursor == EndOf(matches[..i]) && Emitted(content, matches, parts, i, out)
    ensures end == EndOf(matches[..i + 1])
    ensures next.None? <==> cuts[i]
    ensures next.Some? ==> Emitted(content, matches, parts, i + 1, next.value)
  {
    var between := EmitGap(content, cursor, matches[i].start);
    var more := EmitMatch(p, emoji, content, matches[i]);
    end := matches[i].end;
    if more.None? {
      return None, end;
    }
    WeaveSegments(content, matches, parts, i);
    return Some(out + between + more.value), end;
  }

  // The classify loop, up to the text after the last match.
  method EmitMatches(
    p: Parsers, emoji: map<string, Url>, content: string, matches: seq<RawMatch>,
    ghost parts: seq<seq<Piece>>, ghost cuts: seq<bool>)
    returns (emitted: Option<seq<Segment>>)
    requires AllInBounds(content, matches)
    requires parts == MatchParts(p, emoji, content, matches) && cuts == Cuts(content, matches)
    ensures emitted.Some? <==> true !in cuts
    ensures emitted.Some? ==> Emitted(content, matches, parts, |matches|, emitted.value)
  {
    var out: seq<Segment> := [];
    var cursor := 0;
    for i := 0 to |matches|
      invariant cursor == EndOf(matches[..i])
      invariant Emitted(content, matches, parts, i, out)
      invariant true !in cuts[..i]
    {
      MatchPartAt(p, emoji, content, matches, i);
      CutAt(content, matches, i);
      var next;
      next, cursor := EmitNext(p, emoji, content, matches, parts, cuts, i, cursor, out);
      if next.None? {
        return None;
      }
      out := next.value;
    }
    assert cuts[..|cuts|] == cuts;
    return Some(out);
  }

  method Classify(p: Parsers, emoji: map<string, Url>, content: string, matches: seq<RawMatch>)
    returns (segments: Option<seq<Segment>>)
    requires AllInBounds(content, matches)
    ensures segments == if NoneCut(content, matches) then Some(Join(Segments(Pieces(p, emoji, content, matches)))) else None
  {
    ghost var parts := MatchParts(p, emoji, content, matches);
    ghost var woven := Weave(content, matches, parts, |matches|);
    var emitted := EmitMatches(p, emoji, content, matches, parts, Cuts(content, matches));
    NoCutIsNoneCut(content, matches);
    if emitted.None? {
      return None;
    }
    var cursor := EndOf(matches);
    SegmentsAppend(woven, Gap(content, cursor, |content|));
    var tail := EmitGap(content, cursor, |content|);
    var joined := CoalesceText(emitted.value + tail);
    return Some(joined);
  }

  /******* Conservation *******/

  lemma {:induction false} SourceAppend(a: seq<Piece>, b: seq<Piece>)
    ensures Source(a + b) == Source(a) + Source(b)
  {
    if b == [] {
      assert a + b == a;
    } else {
      var init := b[..|b| - 1];
      SourceAppend(a, init);
      AppendLast(a, b);
      Assoc(Source(a), Source(init), b[|b| - 1].src);
    }
  }

  // The first k characters are c and the next is not.
  ghost predicate LeadingRun(s: string, c: char, k: int)
  {
    0 <= k <= |s| && (forall i :: 0 <= i < k ==> s[i] == c) && (k < |s| ==> s[k] != c)
  }

  lemma {:induction false} TrimmedRun(s: string, c: char) returns (k: nat)
    ensures LeadingRun(s, c, k) && TrimLeading(s, c) == s[k..]
  {
    if s != "" && s[0] == c {
      var rest := TrimmedRun(s[1..], c);
      k := rest + 1;
      assert forall i :: 1 <= i < k ==> s[i] == s[1..][i - 1];
      assert s[1..][rest..] == s[k..];
    } else {
      k := 0;
      assert s[0..] == s;
    }
  }

  // What follows the leading hashes of the capture has no lower-case form.
  ghost predicate EmptyTag(p: Parsers, capture: string)
  {
    exists k :: LeadingRun(capture, '#', k) && p.lower(capture[k..]) == ""
  }

  lemma RunIsUnique(s: string, c: char, j: int, k: int)
    requires LeadingRun(s, c, j) && LeadingRun(s, c, k)
    ensures j == k
  {
  }

  lemma EmptyTagIs(p: Parsers, capture: string)
    ensures EmptyTag(p, capture) <==> p.lower(TrimLeading(capture, '#')) == ""
  {
    var k := TrimmedRun(capture, '#');
    forall j | LeadingRun(capture, '#', j)
      ensures j == k
    {
      RunIsUnique(capture, '#', j, k);
    }
  }

  // A hashtag match whose tag comes out empty re-emits the whole match after its
  // separator, so a non-empty separator is emitted twice.
  ghost predicate EmitsTwice(p: Parsers, content: string, m: RawMatch)
    requires InBounds(content, m)
  {
    m.kind.HashtagPattern? && EmptyTag(p, content[m.capStart..m.capEnd]) && m.start < m.capStart - 1
  }

  lemma SourceOfText(s: string)
    ensures Source(TextPiece(s)) == s
  {
    if s != "" {
      assert TextPiece(s)[..0] == [];
    }
  }

  lemma SourceOfOne(piece: Piece)
    ensures Source([piece]) == piece.src
  {
    assert [piece][..0] == [];
  }

  // The pieces of a match stand for its slice, or for more than its slice.
  predicate Spells(content: string, m: RawMatch, part: seq<Piece>)
    requires InBounds(content, m)
  {
    Source(part) == content[m.start..m.end]
  }

  predicate Overflows(m: RawMatch, part: seq<Piece>)
  {
    |Source(part)| > m.end - m.start
  }

  lemma HashtagSource(prefix: string, rest: string, seg: Option<Segment>)
    ensures Source(HashtagPieces(prefix, rest, seg)) == if seg.Some? then prefix + rest else prefix + (prefix + rest)
  {
    var last := if seg.Some? then Piece(seg.value, rest) else Piece(Text(prefix + rest), prefix + rest);
    SourceOfText(prefix);
    SourceOfOne(last);
    SourceAppend(TextPiece(prefix), [last]);
  }

  lemma UrlSource(trimmed: string, trailing: string, url: Option<Url>)
    ensures Source(UrlPieces(trimmed, trailing, url)) == trimmed + trailing
  {
    SourceOfOne(UrlPieces(trimmed, trailing, url)[0]);
    if url.Some? {
      SourceOfText(trailing);
      SourceAppend([Piece(AdCandidateUrl(url.value), trimmed)], TextPiece(trailing));
    }
  }

  lemma HashtagSegment(p: Parsers, emoji: map<string, Url>, raw: string, capture: string)
    ensures ClassifyMatch(p, emoji, HashtagPattern, raw, capture).None? <==> p.lower(TrimLeading(capture, '#')) == ""
  {
  }

  lemma HashtagMatchSource(p: Parsers, emoji: map<string, Url>, content: string, m: RawMatch, prefix: string, rest: string)
    requires InBounds(content, m) && m.kind.HashtagPattern?
    requires prefix == content[m.start..m.capStart - 1] && rest == content[m.capStart - 1..m.end]
    ensures var source := Source(MatchPieces(p, emoji, content, m));
            source == if p.lower(TrimLeading(content[m.capStart..m.capEnd], '#')) == "" then prefix + (prefix + rest) else prefix + rest
  {
    var raw, capture := content[m.start..m.end], content[m.capStart..m.capEnd];
    var seg := ClassifyMatch(p, emoji, HashtagPattern, raw, capture);
    assert MatchPieces(p, emoji, content, m) == HashtagPieces(prefix, rest, seg);
    HashtagSegment(p, emoji, raw, capture);
    HashtagSource(prefix, rest, seg);
  }

  lemma SplitMatch(content: string, m: RawMatch, prefix: string, rest: string)
    requires InBounds(content, m) && m.kind.HashtagPattern?
    requires prefix == content[m.start..m.capStart - 1] && rest == content[m.capStart - 1..m.end]
    ensures content[m.start..m.end] == prefix + rest
    ensures |prefix + (prefix + rest)| == |prefix| + (m.end - m.start)
    ensures prefix == "" ==> prefix + (prefix + rest) == prefix + rest
  {
  }

  lemma HashtagVerdict(p: Parsers, emoji: map<string, Url>, content: string, m: RawMatch)
    requires InBounds(content, m) && m.kind.HashtagPattern?
    ensures var part := MatchPieces(p, emoji, content, m);
            if EmitsTwice(p, content, m) then Overflows(m, part) else Spells(content, m, part)
  {
    var prefix, rest := content[m.start..m.capStart - 1], content[m.capStart - 1..m.end];
    HashtagMatchSource(p, emoji, content, m, prefix, rest);
    EmptyTagIs(p, content[m.capStart..m.capEnd]);
    SplitMatch(content, m, prefix, rest);
  }

  // A URL match, cut where its trailing punctuation starts.
  lemma UrlMatchPieces(p: Parsers, emoji: map<string, Url>, content: string, m: RawMatch) returns (trimmed: string, trailing: string)
    requires InBounds(content, m) && m.kind.UrlPattern?
    ensures MatchPieces(p, emoji, content, m) == UrlPieces(trimmed, trailing, p.url(trimmed))
    ensures content[m.start..m.end] == trimmed + trailing
  {
    var raw := content[m.start..m.end];
    trimmed := TrimPunctuation(raw);
    trailing := raw[|trimmed|..];
  }

  lemma UrlMatchSource(p: Parsers, emoji: map<string, Url>, content: string, m: RawMatch)
    requires InBounds(content, m) && m.kind.UrlPattern?
    ensures Spells(content, m, MatchPieces(p, emoji, content, m))
  {
    var trimmed, trailing := UrlMatchPieces(p, emoji, content, m);
    UrlSource(trimmed, trailing, p.url(trimmed));
  }

  lemma MatchSource(p: Parsers, emoji: map<string, Url>, content: string, m: RawMatch)
    requires InBounds(content, m)
    ensures var part := MatchPieces(p, emoji, content, m);
            if EmitsTwice(p, content, m) then Overflows(m, part) else Spells(content, m, part)
  {
    if m.kind.HashtagPattern? {
      HashtagVerdict(p, emoji, content, m);
    } else if m.kind.UrlPattern? {
      UrlMatchSource(p, emoji, content, m);
    } else {
      SourceOfOne(MatchPieces(p, emoji, content, m)[0]);
    }
  }

  lemma GapSource(content: string, from: nat, to: nat)
    requires from <= to <= |content|
    ensures Source(Gap(content, from, to)) == content[from..to]
  {
    SourceOfText(content[from..to]);
  }

  lemma Stitch(content: string, from: nat, start: nat, end: nat)
    requires from <= start <= end <= |content|
    ensures content[..from] + content[from..start] + content[start..end] == content[..end]
  {
  }

  lemma SourceOfWeave(content: string, ms: seq<RawMatch>, parts: seq<seq<Piece>>, n: nat)
    requires AllInBounds(content, ms) && Disjoint(ms) && n < |ms| == |parts|
    ensures var from := EndOf(ms[..n]);
            && from <= ms[n].start && EndOf(ms[..n + 1]) == ms[n].end
            && Source(Weave(content, ms, parts, n + 1))
               == Source(Weave(content, ms, parts, n)) + content[from..ms[n].start] + Source(parts[n])
  {
    var from := EndOf(ms[..n]);
    var done, gap := Weave(content, ms, parts, n), Gap(content, from, ms[n].start);
    SourceAppend(done, gap);
    SourceAppend(done + gap, parts[n]);
    GapSource(content, from, ms[n].start);
  }

  ghost predicate AllSpell(content: string, ms: seq<RawMatch>, parts: seq<seq<Piece>>, n: nat)
    requires AllInBounds(content, ms) && n <= |ms| == |parts|
  {
    forall i :: 0 <= i < n ==> Spells(content, ms[i], parts[i])
  }

  lemma {:induction false} SpellingWeave(content: string, ms: seq<RawMatch>, parts: seq<seq<Piece>>, n: nat)
    requires AllInBounds(content, ms) && Disjoint(ms) && n <= |ms| == |parts| && AllSpell(content, ms, parts, n)
    ensures EndOf(ms[..n]) <= |content| && Source(Weave(content, ms, parts, n)) == content[..EndOf(ms[..n])]
  {
    if n != 0 {
      SpellingWeave(content, ms, parts, n - 1);
      SourceOfWeave(content, ms, parts, n - 1);
      assert Spells(content, ms[n - 1], parts[n - 1]);
      Stitch(content, EndOf(ms[..n - 1]), ms[n - 1].start, ms[n - 1].end);
    }
  }

  // One more match adds to the length what its pieces add beyond its slice.
  lemma WeaveStepLength(content: string, ms: seq<RawMatch>, parts: seq<seq<Piece>>, n: nat)
    requires AllInBounds(content, ms) && Disjoint(ms) && n < |ms| == |parts|
    ensures |Source(Weave(content, ms, parts, n + 1))| - EndOf(ms[..n + 1])
         == |Source(Weave(content, ms, parts, n))| - EndOf(ms[..n]) + (|Source(parts[n])| - (ms[n].end - ms[n].start))
  {
    SourceOfWeave(content, ms, parts, n);
  }

  lemma EndInBounds(content: string, ms: seq<RawMatch>, n: nat)
    requires AllInBounds(content, ms) && n <= |ms|
    ensures EndOf(ms[..n]) <= |content|
  {
    assert n > 0 ==> InBounds(content, ms[n - 1]);
  }

  ghost predicate SpellsOrOverflows(content: string, m: RawMatch, part: seq<Piece>)
    requires InBounds(content, m)
  {
    Spells(content, m, part) || Overflows(m, part)
  }

  lemma PartLength(content: string, m: RawMatch, part: seq<Piece>)
    requires InBounds(content, m) && SpellsOrOverflows(content, m, part)
    ensures |Source(part)| >= m.end - m.start
    ensures !Spells(content, m, part) ==> |Source(part)| > m.end - m.start
  {
  }

  lemma AllSpellStep(content: string, ms: seq<RawMatch>, parts: seq<seq<Piece>>, n: nat)
    requires AllInBounds(content, ms) && n < |ms| == |parts|
    ensures AllSpell(content, ms, parts, n + 1) <==> AllSpell(content, ms, parts, n) && Spells(content, ms[n], parts[n])
  {
  }

  lemma {:induction false} WeaveLength(content: string, ms: seq<RawMatch>, parts: seq<seq<Piece>>, n: nat)
    requires AllInBounds(content, ms) && Disjoint(ms) && n <= |ms| == |parts|
    requires forall i :: 0 <= i < n ==> SpellsOrOverflows(content, ms[i], parts[i])
    ensures |Source(Weave(content, ms, parts, n))| >= EndOf(ms[..n])
    ensures !AllSpell(content, ms, parts, n) ==> |Source(Weave(content, ms, parts, n))| > EndOf(ms[..n])
  {
    if n != 0 {
      var k := n - 1;
      WeaveLength(content, ms, parts, k);
      WeaveStepLength(content, ms, parts, k);
      PartLength(content, ms[k], parts[k]);
      AllSpellStep(content, ms, parts, k);
    }
  }

  ghost predicate NoneEmitTwice(p: Parsers, content: string, ms: seq<RawMatch>)
    requires AllInBounds(content, ms)
  {
    forall i :: 0 <= i < |ms| ==> !EmitsTwice(p, content, ms[i])
  }

  lemma MatchSources(p: Parsers, emoji: map<string, Url>, content: string, ms: seq<RawMatch>)
    requires AllInBounds(content, ms)
    ensures var parts := MatchParts(p, emoji, content, ms);
            && (forall i :: 0 <= i < |ms| ==> SpellsOrOverflows(content, ms[i], parts[i]))
            && (AllSpell(content, ms, parts, |ms|) <==> NoneEmitTwice(p, content, ms))
  {
    var parts := MatchParts(p, emoji, content, ms);
    forall i | 0 <= i < |ms|
      ensures if EmitsTwice(p, content, ms[i]) then Overflows(ms[i], parts[i]) else Spells(content, ms[i], parts[i])
    {
      MatchPartAt(p, emoji, content, ms, i);
      MatchSource(p, emoji, content, ms[i]);
    }
  }

  // The text after the last match completes the source.
  lemma SourceWithTail(content: string, end: nat, woven: seq<Piece>)
    requires end <= |content|
    ensures Source(woven + Gap(content, end, |content|)) == Source(woven) + content[end..]
  {
    SourceAppend(woven, Gap(content, end, |content|));
    GapSource(content, end, |content|);
    assert content[end..|content|] == content[end..];
  }

  lemma SourceOfPieces(p: Parsers, emoji: map<string, Url>, content: string, ms: seq<RawMatch>)
    requires AllInBounds(content, ms) && EndOf(ms) <= |content|
    ensures Source(Pieces(p, emoji, content, ms))
         == Source(Weave(content, ms, MatchParts(p, emoji, content, ms), |ms|)) + content[EndOf(ms)..]
  {
    SourceWithTail(content, EndOf(ms), Weave(content, ms, MatchParts(p, emoji, content, ms), |ms|));
  }

  lemma TailCompletes(content: string, end: nat, source: string)
    requires end <= |content|
    ensures source == content[..end] ==> source + content[end..] == content
    ensures |source| > end ==> source + content[end..] != content
  {
    assert content[..end] + content[end..] == content;
    assert |source + content[end..]| == |source| + |content| - end;
  }

  // The pieces spell the content exactly, in order, unless a kept hashtag has an
  // empty tag behind a separator.
  lemma PiecesSpellContentIff(p: Parsers, emoji: map<string, Url>, content: string, ms: seq<RawMatch>)
    requires AllInBounds(content, ms) && Disjoint(ms)
    ensures Source(Pieces(p, emoji, content, ms)) == content <==> NoneEmitTwice(p, content, ms)
  {
    var parts := MatchParts(p, emoji, content, ms);
    var end, source := EndOf(ms), Source(Weave(content, ms, parts, |ms|));
    assert ms[..|ms|] == ms;
    EndInBounds(content, ms, |ms|);
    MatchSources(p, emoji, content, ms);
    SourceOfPieces(p, emoji, content, ms);
    TailCompletes(content, end, source);
    if NoneEmitTwice(p, content, ms) {
      SpellingWeave(content, ms, parts, |ms|);
    } else {
      WeaveLength(content, ms, parts, |ms|);
    }
  }

  /******* What each segment says about its source *******/

  // The regex contract: non-empty in-bounds matches; a hashtag captures a
  // non-empty tag behind its `#`; a shortcode captures what its colons enclose.
  predicate RegexMatch(content: string, m: RawMatch)
  {
    && InBounds(content, m) && m.start < m.end
    && (m.kind.HashtagPattern? ==>
          m.capStart < m.capEnd == m.end && content[m.capStart - 1] == '#' && content[m.capStart] != '#')
    && (m.kind.EmojiPattern? ==>
          m.start + 1 == m.capStart && m.capEnd + 1 == m.end && content[m.start] == ':' && content[m.capEnd] == ':')
  }

  // Lower-casing a non-empty string leaves it non-empty.
  ghost predicate LowerKeepsText(p: Parsers)
  {
    forall s :: s != "" ==> p.lower(s) != ""
  }

  // The slice reads as the segment.
  predicate Reads(p: Parsers, emoji: map<string, Url>, piece: Piece)
  {
    var src := piece.src;
    match piece.segment
    case Text(t) => t == src
    case Mention(uri) => uri.Profile? && p.nostr(CanonicalNostrUri(src)) == Some(uri)
    case EventRef(uri) => !uri.Profile? && p.nostr(CanonicalNostrUri(src)) == Some(uri)
    case Hashtag(tag) => src != "" && src[0] == '#' && tag == p.lower(src[1..]) && tag != ""
    case AdCandidateUrl(url) => p.url(src) == Some(url)
    case Emoji(code, image) =>
      src == [':'] + code + [':'] && image == if code in emoji then Some(emoji[code]) else None
    case Invoice(_, value) => value == src
    case _ => false
  }

  ghost predicate AllRead(p: Parsers, emoji: map<string, Url>, pieces: seq<Piece>)
  {
    forall i :: 0 <= i < |pieces| ==> Reads(p, emoji, pieces[i])
  }

  lemma HashtagReads(p: Parsers, emoji: map<string, Url>, content: string, m: RawMatch)
    requires RegexMatch(content, m) && m.kind.HashtagPattern? && LowerKeepsText(p)
    ensures !EmitsTwice(p, content, m) && AllRead(p, emoji, MatchPieces(p, emoji, content, m))
  {
    var capture, rest := content[m.capStart..m.capEnd], content[m.capStart - 1..m.end];
    assert capture[0] == content[m.capStart];
    assert TrimLeading(capture, '#') == capture && rest[1..] == capture;
    EmptyTagIs(p, capture);
  }

  lemma EmojiReads(p: Parsers, emoji: map<string, Url>, content: string, m: RawMatch)
    requires RegexMatch(content, m) && m.kind.EmojiPattern?
    ensures AllRead(p, emoji, MatchPieces(p, emoji, content, m))
  {
    var raw, capture := content[m.start..m.end], content[m.capStart..m.capEnd];
    assert raw == [':'] + capture + [':'];
    assert MatchPieces(p, emoji, content, m)
        == [Piece(Emoji(capture, if capture in emoji then Some(emoji[capture]) else None), raw)];
  }

  lemma UrlReads(p: Parsers, emoji: map<string, Url>, content: string, m: RawMatch)
    requires RegexMatch(content, m) && m.kind.UrlPattern?
    ensures AllRead(p, emoji, MatchPieces(p, emoji, content, m))
  {
    var trimmed, trailing := UrlMatchPieces(p, emoji, content, m);
  }

  lemma NostrReads(p: Parsers, emoji: map<string, Url>, content: string, m: RawMatch)
    requires RegexMatch(content, m) && m.kind.NostrUriPattern?
    ensures AllRead(p, emoji, MatchPieces(p, emoji, content, m))
  {
  }

  lemma MatchReads(p: Parsers, emoji: map<string, Url>, content: string, m: RawMatch)
    requires RegexMatch(content, m) && LowerKeepsText(p)
    ensures !EmitsTwice(p, content, m) && AllRead(p, emoji, MatchPieces(p, emoji, content, m))
  {
    match m.kind {
      case HashtagPattern => HashtagReads(p, emoji, content, m);
      case EmojiPattern => EmojiReads(p, emoji, content, m);
      case UrlPattern => UrlReads(p, emoji, content, m);
      case NostrUriPattern => NostrReads(p, emoji, content, m);
      case _ =>
    }
  }

  lemma {:induction false} WeaveReads(
    p: Parsers, emoji: map<string, Url>, content: string, ms: seq<RawMatch>, parts: seq<seq<Piece>>, n: nat)
    requires AllInBounds(content, ms) && n <= |ms| == |parts|
    requires forall i :: 0 <= i < n ==> AllRead(p, emoji, parts[i])
    ensures AllRead(p, emoji, Weave(content, ms, parts, n))
  {
    if n != 0 {
      WeaveReads(p, emoji, content, ms, parts, n - 1);
      assert AllRead(p, emoji, Gap(content, EndOf(ms[..n - 1]), ms[n - 1].start));
      assert AllRead(p, emoji, parts[n - 1]);
    }
  }

  /******* What a match comes out as *******/

  // The scheme in any ASCII case, letter by letter.
  ghost predicate SpelledScheme(raw: string)
  {
    && |raw| >= 6 && raw[0] in {'n', 'N'} && raw[1] in {'o', 'O'} && raw[2] in {'s', 'S'}
    && raw[3] in {'t', 'T'} && raw[4] in {'r', 'R'} && raw[5] == ':'
  }

  // The URI that is parsed: the match with its scheme, or with the scheme put in
  // place of its leading at signs.
  ghost predicate Canonical(raw: string, uri: string)
  {
    if SpelledScheme(raw) then uri == raw
    else exists k :: LeadingRun(raw, '@', k) && uri == "nostr:" + raw[k..]
  }

  lemma CanonicalIs(raw: string)
    ensures Canonical(raw, CanonicalNostrUri(raw))
  {
    LowerIsOneOfTwo(raw);
    var k := TrimmedRun(raw, '@');
  }

  lemma LowerIsOneOfTwo(raw: string)
    ensures HasNostrScheme(raw) <==> SpelledScheme(raw)
  {
    assert forall c :: AsciiLower(c) == 'n' <==> c in {'n', 'N'};
    assert forall c :: AsciiLower(c) == 'o' <==> c in {'o', 'O'};
    assert forall c :: AsciiLower(c) == 's' <==> c in {'s', 'S'};
    assert forall c :: AsciiLower(c) == 't' <==> c in {'t', 'T'};
    assert forall c :: AsciiLower(c) == 'r' <==> c in {'r', 'R'};
  }

  ghost predicate Punctuation(c: char)
  {
    c == '.' || c == ',' || c == ';' || c == ':' || c == '!' || c == '?' || c == ')'
  }

  // Where the trailing punctuation of a URL match starts.
  ghost predicate UrlEnds(raw: string, k: int)
  {
    0 <= k <= |raw| && (k > 0 ==> !Punctuation(raw[k - 1])) && forall i :: k <= i < |raw| ==> Punctuation(raw[i])
  }

  lemma {:induction false} TrimmedEnds(raw: string)
    ensures UrlEnds(raw, |TrimPunctuation(raw)|)
  {
    if raw != "" && Punctuation(raw[|raw| - 1]) {
      var init := raw[..|raw| - 1];
      TrimmedEnds(init);
      assert TrimPunctuation(raw) == TrimPunctuation(init);
      assert forall i :: 0 <= i < |init| ==> init[i] == raw[i];
    }
  }

  function TextOf(s: string): seq<Segment>
  {
    if |s| == 0 then [] else [Text(s)]
  }

  // The segments of a nostr match, given how its URI parses.
  function NostrSegments(raw: string, parsed: Option<NostrUri>): seq<Segment>
  {
    match parsed
    case None => [Text(raw)]
    case Some(Profile(u)) => [Mention(Profile(u))]
    case Some(Event(u)) => [EventRef(Event(u))]
    case Some(Address(u)) => [EventRef(Address(u))]
  }

  function UrlSegments(raw: string, k: nat, parsed: Option<Url>): seq<Segment>
    requires k <= |raw|
  {
    if parsed.None? then [Text(raw)] else [AdCandidateUrl(parsed.value)] + TextOf(raw[k..])
  }

  ghost predicate NostrOut(p: Parsers, raw: string, segs: seq<Segment>)
  {
    exists uri :: Canonical(raw, uri) && segs == NostrSegments(raw, p.nostr(uri))
  }

  ghost predicate UrlOut(p: Parsers, raw: string, segs: seq<Segment>)
  {
    exists k :: UrlEnds(raw, k) && segs == UrlSegments(raw, k, p.url(raw[..k]))
  }

  function EmojiSegment(emoji: map<string, Url>, code: string): Segment
  {
    Emoji(code, if code in emoji then Some(emoji[code]) else None)
  }

  // What a regex match has to come out as: its own segment wherever it parses, text
  // only where it does not.
  ghost predicate ComesOutAs(p: Parsers, emoji: map<string, Url>, content: string, m: RawMatch, segs: seq<Segment>)
    requires RegexMatch(content, m)
  {
    match m.kind
    case NostrUriPattern => NostrOut(p, content[m.start..m.end], segs)
    case EmojiPattern => segs == [EmojiSegment(emoji, content[m.start + 1..m.end - 1])]
    case HashtagPattern =>
      segs == TextOf(content[m.start..m.capStart - 1]) + [Hashtag(p.lower(content[m.capStart..m.end]))]
    case UrlPattern => UrlOut(p, content[m.start..m.end], segs)
    case Bolt11Pattern => segs == [Invoice(Bolt11, content[m.start..m.end])]
    case Bolt12Pattern => segs == [Invoice(Bolt12, content[m.start..m.end])]
    case CashuPattern => segs == [Invoice(Cashu, content[m.start..m.end])]
  }

  // The one segment a match that is neither hashtag nor URL comes out as.
  function OneSegment(p: Parsers, emoji: map<string, Url>, kind: PatternKind, raw: string, capture: string): Segment
  {
    var seg := ClassifyMatch(p, emoji, kind, raw, capture);
    if seg.Some? then seg.value else Text(raw)
  }

  lemma OneSegmentOut(p: Parsers, emoji: map<string, Url>, content: string, m: RawMatch)
    requires InBounds(content, m) && !m.kind.UrlPattern? && !m.kind.HashtagPattern?
    ensures Segments(MatchPieces(p, emoji, content, m))
         == [OneSegment(p, emoji, m.kind, content[m.start..m.end], content[m.capStart..m.capEnd])]
  {
    var raw, capture := content[m.start..m.end], content[m.capStart..m.capEnd];
    var piece := Piece(OneSegment(p, emoji, m.kind, raw, capture), raw);
    assert MatchPieces(p, emoji, content, m) == [piece];
    SegmentsOfFew(piece, "");
  }

  lemma NostrComesOut(p: Parsers, emoji: map<string, Url>, raw: string, capture: string)
    ensures NostrOut(p, raw, [OneSegment(p, emoji, NostrUriPattern, raw, capture)])
  {
    CanonicalIs(raw);
    assert [OneSegment(p, emoji, NostrUriPattern, raw, capture)] == NostrSegments(raw, p.nostr(CanonicalNostrUri(raw)));
  }

  lemma UrlPiecesSegments(raw: string, k: nat, url: Option<Url>)
    requires k <= |raw|
    ensures Segments(UrlPieces(raw[..k], raw[k..], url)) == UrlSegments(raw, k, url)
  {
    assert raw[..k] + raw[k..] == raw;
    SegmentsOfFew(UrlPieces(raw[..k], raw[k..], url)[0], raw[k..]);
  }

  lemma UrlComesOut(p: Parsers, emoji: map<string, Url>, content: string, m: RawMatch)
    requires InBounds(content, m) && m.kind.UrlPattern?
    ensures UrlOut(p, content[m.start..m.end], Segments(MatchPieces(p, emoji, content, m)))
  {
    var raw := content[m.start..m.end];
    var k := |TrimPunctuation(raw)|;
    TrimmedEnds(raw);
    assert TrimPunctuation(raw) == raw[..k];
    assert MatchPieces(p, emoji, content, m) == UrlPieces(raw[..k], raw[k..], p.url(raw[..k]));
    UrlPiecesSegments(raw, k, p.url(raw[..k]));
  }

  lemma HashtagPiecesSegments(sep: string, rest: string, seg: Segment)
    ensures Segments(HashtagPieces(sep, rest, Some(seg))) == TextOf(sep) + [seg]
  {
    SegmentsOfFew(Piece(seg, rest), sep);
  }

  lemma HashtagComesOut(p: Parsers, emoji: map<string, Url>, content: string, m: RawMatch)
    requires RegexMatch(content, m) && m.kind.HashtagPattern? && LowerKeepsText(p)
    ensures ComesOutAs(p, emoji, content, m, Segments(MatchPieces(p, emoji, content, m)))
  {
    var sep, rest, capture := content[m.start..m.capStart - 1], content[m.capStart - 1..m.end], content[m.capStart..m.capEnd];
    assert capture[0] == content[m.capStart] && TrimLeading(capture, '#') == capture;
    assert MatchPieces(p, emoji, content, m) == HashtagPieces(sep, rest, Some(Hashtag(p.lower(capture))));
    HashtagPiecesSegments(sep, rest, Hashtag(p.lower(capture)));
  }

  lemma NostrMatchComesOut(p: Parsers, emoji: map<string, Url>, content: string, m: RawMatch)
    requires RegexMatch(content, m) && m.kind.NostrUriPattern?
    ensures ComesOutAs(p, emoji, content, m, Segments(MatchPieces(p, emoji, content, m)))
  {
    OneSegmentOut(p, emoji, content, m);
    NostrComesOut(p, emoji, content[m.start..m.end], content[m.capStart..m.capEnd]);
  }

  lemma EmojiComesOut(p: Parsers, emoji: map<string, Url>, content: string, m: RawMatch)
    requires RegexMatch(content, m) && m.kind.EmojiPattern?
    ensures ComesOutAs(p, emoji, content, m, Segments(MatchPieces(p, emoji, content, m)))
  {
    OneSegmentOut(p, emoji, content, m);
    assert content[m.start + 1..m.end - 1] == content[m.capStart..m.capEnd];
  }

  lemma InvoiceComesOut(p: Parsers, emoji: map<string, Url>, content: string, m: RawMatch)
    requires RegexMatch(content, m) && (m.kind.Bolt11Pattern? || m.kind.Bolt12Pattern? || m.kind.CashuPattern?)
    ensures ComesOutAs(p, emoji, content, m, Segments(MatchPieces(p, emoji, content, m)))
  {
    OneSegmentOut(p, emoji, content, m);
  }

  // Every regex match comes out as what it has to.
  lemma MatchComesOut(p: Parsers, emoji: map<string, Url>, content: string, m: RawMatch)
    requires RegexMatch(content, m) && LowerKeepsText(p)
    ensures ComesOutAs(p, emoji, content, m, Segments(MatchPieces(p, emoji, content, m)))
  {
    match m.kind
    case HashtagPattern => HashtagComesOut(p, emoji, content, m);
    case UrlPattern => UrlComesOut(p, emoji, content, m);
    case NostrUriPattern => NostrMatchComesOut(p, emoji, content, m);
    case EmojiPattern => EmojiComesOut(p, emoji, content, m);
    case _ => InvoiceComesOut(p, emoji, content, m);
  }

  // The segments other than text, in order.
  function NonTexts(segs: seq<Segment>): seq<Segment>
  {
    if segs == [] then []
    else NonTexts(segs[..|segs| - 1]) + (if segs[|segs| - 1].Text? then [] else [segs[|segs| - 1]])
  }

  lemma {:induction false} NonTextsAppend(a: seq<Segment>, b: seq<Segment>)
    ensures NonTexts(a + b) == NonTexts(a) + NonTexts(b)
  {
    if b == [] {
      assert a + b == a;
    } else {
      var init, last := b[..|b| - 1], b[|b| - 1];
      NonTextsAppend(a, init);
      AppendLast(a, b);
      Assoc(NonTexts(a), NonTexts(init), if last.Text? then [] else [last]);
    }
  }

  lemma NonTextsOfOne(seg: Segment)
    ensures NonTexts([seg]) == if seg.Text? then [] else [seg]
  {
    assert [seg][..0] == [];
  }

  lemma AppendKeepsNonTexts(out: seq<Segment>, next: Segment)
    ensures NonTexts(AppendSegment(out, next)) == NonTexts(out) + NonTexts([next])
  {
    NonTextsOfOne(next);
    if out != [] && out[|out| - 1].Text? && next.Text? {
      var init, joined := out[..|out| - 1], Text(out[|out| - 1].text + next.text);
      NonTextsAppend(init, [joined]);
      NonTextsOfOne(joined);
    } else {
      NonTextsAppend(out, [next]);
    }
  }

  lemma {:induction false} JoinKeepsNonTexts(segs: seq<Segment>)
    ensures NonTexts(Join(segs)) == NonTexts(segs)
  {
    if segs != [] {
      var init, last := segs[..|segs| - 1], segs[|segs| - 1];
      JoinKeepsNonTexts(init);
      AppendKeepsNonTexts(Join(init), last);
      NonTextsAppend(init, [last]);
      assert segs == init + [last];
    }
  }

  // The segments of each part.
  function Outs(parts: seq<seq<Piece>>): (outs: seq<seq<Segment>>)
    ensures |outs| == |parts|
  {
    if parts == [] then [] else Outs(parts[..|parts| - 1]) + [Segments(parts[|parts| - 1])]
  }

  lemma {:induction false} OutsAt(parts: seq<seq<Piece>>, i: nat)
    requires i < |parts|
    ensures Outs(parts)[i] == Segments(parts[i])
  {
    if i < |parts| - 1 {
      OutsAt(parts[..|parts| - 1], i);
    }
  }

  lemma GapIsText(content: string, from: nat, to: nat)
    requires to <= |content|
    ensures NonTexts(Segments(Gap(content, from, to))) == []
  {
    if to > from {
      SegmentsOfFew(Piece(Text(""), ""), content[from..to]);
      NonTextsOfOne(Text(content[from..to]));
    }
  }

  lemma ThreeNonTexts(done: seq<Segment>, gap: seq<Segment>, more: seq<Segment>)
    requires NonTexts(gap) == []
    ensures NonTexts(done + gap + more) == NonTexts(done) + NonTexts(more)
  {
    NonTextsAppend(done + gap, more);
    NonTextsAppend(done, gap);
    assert NonTexts(done) + [] == NonTexts(done);
  }

  // The text between matches aside, the woven pieces are those of the matches.
  lemma {:induction false} WeaveNonTexts(content: string, ms: seq<RawMatch>, parts: seq<seq<Piece>>, n: nat)
    requires AllInBounds(content, ms) && n <= |ms| == |parts|
    ensures NonTexts(Segments(Weave(content, ms, parts, n))) == NonTexts(Flatten(Outs(parts[..n])))
  {
    if n != 0 {
      var k := n - 1;
      var more := Segments(parts[k]);
      WeaveNonTexts(content, ms, parts, k);
      WeaveSegments(content, ms, parts, k);
      GapIsText(content, EndOf(ms[..k]), ms[k].start);
      ThreeNonTexts(Segments(Weave(content, ms, parts, k)), Segments(Gap(content, EndOf(ms[..k]), ms[k].start)), more);
      OutsStep(parts, k);
      NonTextsAppend(Flatten(Outs(parts[..k])), more);
    }
  }

  lemma OutsStep(parts: seq<seq<Piece>>, k: nat)
    requires k < |parts|
    ensures Flatten(Outs(parts[..k + 1])) == Flatten(Outs(parts[..k])) + Segments(parts[k])
  {
    assert parts[..k + 1][..k] == parts[..k];
    var outs := Outs(parts[..k]);
    assert (outs + [Segments(parts[k])])[..|outs|] == outs;
  }

  // The segments other than text are those the kept matches come out as, in order.
  ghost predicate Renders(p: Parsers, emoji: map<string, Url>, content: string, kept: seq<RawMatch>, segments: seq<Segment>)
    requires forall m :: m in kept ==> RegexMatch(content, m)
  {
    exists outs: seq<seq<Segment>> ::
      && |outs| == |kept| && NonTexts(segments) == NonTexts(Flatten(outs))
      && forall i :: 0 <= i < |kept| ==> ComesOutAs(p, emoji, content, kept[i], outs[i])
  }

  lemma ClassifiedRenders(p: Parsers, emoji: map<string, Url>, content: string, ms: seq<RawMatch>)
    requires LowerKeepsText(p) && AllInBounds(content, ms) && forall m :: m in ms ==> RegexMatch(content, m)
    ensures Renders(p, emoji, content, ms, Join(Segments(Pieces(p, emoji, content, ms))))
  {
    var parts := MatchParts(p, emoji, content, ms);
    var outs, tail := Outs(parts), Gap(content, EndOf(ms), |content|);
    var woven := Weave(content, ms, parts, |ms|);
    forall i | 0 <= i < |ms|
      ensures ComesOutAs(p, emoji, content, ms[i], outs[i])
    {
      assert ms[i] in ms;
      OutsAt(parts, i);
      MatchPartAt(p, emoji, content, ms, i);
      MatchComesOut(p, emoji, content, ms[i]);
    }
    JoinKeepsNonTexts(Segments(woven + tail));
    SegmentsAppend(woven, tail);
    NonTextsAppend(Segments(woven), Segments(tail));
    GapIsText(content, EndOf(ms), |content|);
    WeaveNonTexts(content, ms, parts, |ms|);
    assert parts[..|ms|] == parts;
  }

  /******* Coalescing keeps sources *******/

  function AppendPiece(out: seq<Piece>, next: Piece): seq<Piece>
  {
    if out != [] && out[|out| - 1].segment.Text? && next.segment.Text?
    then out[..|out| - 1] + [Piece(Text(out[|out| - 1].segment.text + next.segment.text), out[|out| - 1].src + next.src)]
    else out + [next]
  }

  function JoinPieces(pieces: seq<Piece>): seq<Piece>
  {
    if pieces == [] then [] else AppendPiece(JoinPieces(pieces[..|pieces| - 1]), pieces[|pieces| - 1])
  }

  // No two text runs stand next to each other.
  ghost predicate Coalesced(pieces: seq<Piece>)
  {
    forall i :: 0 <= i < |pieces| - 1 ==> !(pieces[i].segment.Text? && pieces[i + 1].segment.Text?)
  }

  lemma AppendPieceKeeps(p: Parsers, emoji: map<string, Url>, out: seq<Piece>, next: Piece)
    requires AllRead(p, emoji, out) && Reads(p, emoji, next) && Coalesced(out)
    ensures AllRead(p, emoji, AppendPiece(out, next)) && Coalesced(AppendPiece(out, next))
  {
    if out != [] {
      assert Reads(p, emoji, out[|out| - 1]);
    }
  }

  lemma AppendPieceSource(out: seq<Piece>, next: Piece)
    ensures Source(AppendPiece(out, next)) == Source(out) + next.src
    ensures Segments(AppendPiece(out, next)) == AppendSegment(Segments(out), next.segment)
  {
    assert (out + [next])[..|out|] == out;
    if out != [] {
      var init, last := out[..|out| - 1], out[|out| - 1];
      assert Segments(out) == Segments(init) + [last.segment] && Source(out) == Source(init) + last.src;
      if last.segment.Text? && next.segment.Text? {
        var joined := Piece(Text(last.segment.text + next.segment.text), last.src + next.src);
        assert (init + [joined])[..|init|] == init;
        assert Source(init) + last.src + next.src == Source(init) + (last.src + next.src);
      }
    }
  }

  lemma {:induction false} JoinPiecesKeeps(p: Parsers, emoji: map<string, Url>, pieces: seq<Piece>)
    requires AllRead(p, emoji, pieces)
    ensures Source(JoinPieces(pieces)) == Source(pieces)
    ensures Segments(JoinPieces(pieces)) == Join(Segments(pieces))
    ensures AllRead(p, emoji, JoinPieces(pieces)) && Coalesced(JoinPieces(pieces))
  {
    if pieces != [] {
      var init, next := pieces[..|pieces| - 1], pieces[|pieces| - 1];
      JoinPiecesKeeps(p, emoji, init);
      AppendPieceKeeps(p, emoji, JoinPieces(init), next);
      AppendPieceSource(JoinPieces(init), next);
      assert Segments(pieces)[..|Segments(pieces)| - 1] == Segments(init);
    }
  }

  /******* The tokenizer *******/

  // The segments can be laid over consecutive slices that together are the
  // content, each slice reading as its segment.
  ghost predicate Covers(p: Parsers, emoji: map<string, Url>, content: string, segments: seq<Segment>)
  {
    exists pieces :: Segments(pieces) == segments && Source(pieces) == content
                     && AllRead(p, emoji, pieces) && Coalesced(pieces)
  }

  lemma ClassifiedCovers(p: Parsers, emoji: map<string, Url>, content: string, ms: seq<RawMatch>)
    requires LowerKeepsText(p) && Disjoint(ms) && AllInBounds(content, ms)
    requires forall m :: m in ms ==> RegexMatch(content, m)
    ensures Covers(p, emoji, content, Join(Segments(Pieces(p, emoji, content, ms))))
  {
    var parts := MatchParts(p, emoji, content, ms);
    forall i | 0 <= i < |ms|
      ensures AllRead(p, emoji, parts[i]) && !EmitsTwice(p, content, ms[i])
    {
      assert ms[i] in ms;
      MatchPartAt(p, emoji, content, ms, i);
      MatchReads(p, emoji, content, ms[i]);
    }
    WeaveReads(p, emoji, content, ms, parts, |ms|);
    assert AllRead(p, emoji, Gap(content, EndOf(ms), |content|));
    PiecesSpellContentIff(p, emoji, content, ms);
    JoinPiecesKeeps(p, emoji, Pieces(p, emoji, content, ms));
  }

  // What survives sorting and overlap resolution.
  lemma KeptMatches(content: string, found: seq<RawMatch>)
    requires forall m :: m in found ==> RegexMatch(content, m)
    ensures var kept := Resolve(Sort(found));
            && Disjoint(kept) && AllInBounds(content, kept)
            && forall m :: m in kept ==> RegexMatch(content, m)
  {
    var sorted := Sort(found);
    SortSorts(found);
    assert forall m :: m in sorted ==> RegexMatch(content, m);
    KeptAreDisjoint(sorted);
    var kept := Resolve(sorted);
    forall i | 0 <= i < |kept|
      ensures InBounds(content, kept[i])
    {
      assert kept[i] in kept;
    }
  }

  lemma NothingCoversNothing(p: Parsers, emoji: map<string, Url>)
    ensures Covers(p, emoji, "", [])
  {
    assert Segments([]) == [] && Source([]) == "" && AllRead(p, emoji, []) && Coalesced([]);
  }

  lemma NothingIsKept(p: Parsers, emoji: map<string, Url>, kept: seq<RawMatch>)
    requires forall m :: m in kept ==> RegexMatch("", m)
    ensures kept == [] && Renders(p, emoji, "", kept, [])
  {
    if kept != [] {
      assert kept[0] in kept;
    }
    var outs: seq<seq<Segment>> := [];
    assert NonTexts(Flatten(outs)) == NonTexts([]);
  }

  // `found` is what the regex engine reports, one list per pattern.  The pass
  // finishes exactly when no kept nostr match is cut.
  method TokenizeInline(p: Parsers, emoji: map<string, Url>, content: string, found: seq<seq<RawMatch>>)
    returns (segments: Option<seq<Segment>>)
    requires LowerKeepsText(p)
    requires forall m :: m in Flatten(found) ==> RegexMatch(content, m)
    ensures var kept := Resolve(Sort(Flatten(found)));
            && AllInBounds(content, kept)
            && (segments.Some? <==> NoneCut(content, kept))
            && (segments.Some? ==>
                  && Covers(p, emoji, content, segments.value)
                  && (forall m :: m in kept ==> RegexMatch(content, m)) && Renders(p, emoji, content, kept, segments.value)
                  && segments.value == if content == "" then [] else Join(Segments(Pieces(p, emoji, content, kept))))
  {
    KeptMatches(content, Flatten(found));
    if content == "" {
      NothingCoversNothing(p, emoji);
      NothingIsKept(p, emoji, Resolve(Sort(Flatten(found))));
      return Some([]);
    }
    var matches := CollectMatches(found);
    var resolved := ResolveOverlaps(matches);
    ClassifiedCovers(p, emoji, content, resolved);
    ClassifiedRenders(p, emoji, content, resolved);
    segments := Classify(p, emoji, content, resolved);
  }
}
