// What a document tree means, independently of the machine, and exactly when the
// machine renders that meaning.
module MarkdownMeaning {
  import opened Common
  import opened Content
  import opened Markdown
  import opened MarkdownLaws

  /******* Plain string content (section 6.4 of CommonMark) *******/

  // What a picture's description says once all markup is stripped.
  function SpanPlain(span: Span): string
    decreases span, 1
  {
    match span
    case Words(t) => t
    case Verbatim(c) => c
    case Soft => "\n"
    case Hard => "\n"
    case Em(children) => SpansPlain(children)
    case Bold(children) => SpansPlain(children)
    case Anchor(_, children) => SpansPlain(children)
    case Picture(_, _, children) => SpansPlain(children)
  }

  function SpansPlain(spans: seq<Span>): string
    decreases spans, 0
  {
    if spans == [] then "" else SpansPlain(spans[..|spans| - 1]) + SpanPlain(spans[|spans| - 1])
  }

  // What is left of a text that was tokenized and then flattened.
  function Shown(env: Env, text: string): string
  {
    PlainTexts(InlineAll(env.tokenize(text)))
  }

  // The texts that are tokenized on their way into the alt text: those under
  // emphasis, strong or a link.  Directly under a picture text stays raw.
  function WrappedTexts(span: Span, wrapped: bool): set<string>
    decreases span, 1
  {
    match span
    case Words(t) => if wrapped then {t} else {}
    case Verbatim(_) => {}
    case Soft => {}
    case Hard => {}
    case Em(children) => AllWrappedTexts(children, true)
    case Bold(children) => AllWrappedTexts(children, true)
    case Anchor(_, children) => AllWrappedTexts(children, true)
    case Picture(_, _, children) => AllWrappedTexts(children, false)
  }

  function AllWrappedTexts(spans: seq<Span>, wrapped: bool): set<string>
    decreases spans, 0
  {
    if spans == [] then {} else AllWrappedTexts(spans[..|spans| - 1], wrapped) + WrappedTexts(spans[|spans| - 1], wrapped)
  }

  // Tokenizing and flattening gives each text back.
  ghost predicate TextsSurvive(env: Env, texts: set<string>)
  {
    forall t :: t in texts ==> Shown(env, t) == t
  }

  /******* Weighing text *******/

  // Every character weighs at least one; `extra` says how much more.
  function Weight(extra: char -> nat, s: string): nat
  {
    if s == "" then 0 else Weight(extra, s[..|s| - 1]) + 1 + extra(s[|s| - 1])
  }

  // Tokenizing and flattening makes none of the texts heavier.
  ghost predicate NoneHeavier(extra: char -> nat, env: Env, texts: set<string>)
  {
    forall t :: t in texts ==> Weight(extra, Shown(env, t)) <= Weight(extra, t)
  }

  lemma {:induction false} WeightAppend(extra: char -> nat, a: string, b: string)
    ensures Weight(extra, a + b) == Weight(extra, a) + Weight(extra, b)
  {
    if b == "" {
      assert a + b == a;
    } else {
      WeightAppend(extra, a, b[..|b| - 1]);
      AppendLast(a, b);
    }
  }

  lemma LongerIsHeavier(extra: char -> nat, s: string, i: nat, j: nat)
    requires i < j <= |s|
    ensures Weight(extra, s[..i]) < Weight(extra, s[..j])
  {
    assert s[..j] == s[..i] + s[i..j];
    WeightAppend(extra, s[..i], s[i..j]);
  }

  lemma WeightTellsPrefix(extra: char -> nat, s: string, i: nat, j: nat)
    requires i <= |s| && j <= |s| && Weight(extra, s[..i]) == Weight(extra, s[..j])
    ensures i == j
  {
    if i < j {
      LongerIsHeavier(extra, s, i, j);
    } else if j < i {
      LongerIsHeavier(extra, s, j, i);
    }
  }

  lemma SameSplit(extra: char -> nat, a: string, b: string, a': string, b': string)
    requires a + b == a' + b' && Weight(extra, a) == Weight(extra, a')
    ensures a == a' && b == b'
  {
    var s := a + b;
    assert s[..|a|] == a && s[..|a'|] == a';
    WeightTellsPrefix(extra, s, |a|, |a'|);
    assert s[|a|..] == b && s[|a'|..] == b';
  }

  // Two parts, neither heavier than its counterpart, make up the same text only by
  // being the same.
  lemma NoHeavierParts(extra: char -> nat, a: string, b: string, a': string, b': string)
    requires Weight(extra, a) <= Weight(extra, a') && Weight(extra, b) <= Weight(extra, b')
    ensures Weight(extra, a + b) <= Weight(extra, a' + b')
    ensures a + b == a' + b' <==> a == a' && b == b'
  {
    WeightAppend(extra, a, b);
    WeightAppend(extra, a', b');
    if a + b == a' + b' {
      SameSplit(extra, a, b, a', b');
    }
  }

  /******* The alt text the machine makes *******/

  // What the machine makes of spans inside a picture: in its alt text directly,
  // or under a wrapper that is flattened when it closes.
  function SpanShown(env: Env, span: Span, wrapped: bool): string
  {
    if wrapped then PlainTexts(SpanReading(env, span)) else SpanAlt(env, span)
  }

  function SpansShown(env: Env, spans: seq<Span>, wrapped: bool): string
  {
    if wrapped then PlainTexts(SpansReading(env, spans)) else SpansAlt(env, spans)
  }

  lemma {:induction false} PlainTextsAppend(a: seq<MarkdownInline>, b: seq<MarkdownInline>)
    ensures PlainTexts(a + b) == PlainTexts(a) + PlainTexts(b)
  {
    if b == [] {
      assert a + b == a;
    } else {
      var init := b[..|b| - 1];
      PlainTextsAppend(a, init);
      AppendLast(a, b);
      Assoc(PlainTexts(a), PlainTexts(init), PlainText(b[|b| - 1]));
    }
  }

  lemma PlainTextsOne(inline: MarkdownInline)
    ensures PlainTexts([inline]) == PlainText(inline)
  {
    assert [inline][..0] == [];
  }

  lemma ShownStep(env: Env, spans: seq<Span>, wrapped: bool)
    requires spans != []
    ensures SpansShown(env, spans, wrapped)
         == SpansShown(env, spans[..|spans| - 1], wrapped) + SpanShown(env, spans[|spans| - 1], wrapped)
  {
    if wrapped {
      PlainTextsAppend(SpansReading(env, spans[..|spans| - 1]), SpanReading(env, spans[|spans| - 1]));
    }
  }

  // A wrapper shows what its children show under a wrapper, a picture what they
  // show in its alt text.
  lemma ShownInside(env: Env, span: Span, wrapped: bool)
    requires Wraps(span)
    ensures SpanShown(env, span, wrapped) == SpansShown(env, span.children, !span.Picture?)
    ensures SpanPlain(span) == SpansPlain(span.children)
    ensures WrappedTexts(span, wrapped) == AllWrappedTexts(span.children, !span.Picture?)
  {
    PlainTextsOne(SpanReading(env, span)[0]);
    assert SpanReading(env, span) == [SpanReading(env, span)[0]];
  }

  lemma ShownLeaf(env: Env, span: Span, wrapped: bool)
    requires !Wraps(span)
    ensures SpanShown(env, span, wrapped) == if span.Words? && wrapped then Shown(env, span.text) else SpanPlain(span)
  {
    if !span.Words? {
      PlainTextsOne(SpanReading(env, span)[0]);
      assert SpanReading(env, span) == [SpanReading(env, span)[0]];
    }
  }

  lemma TextsOfUnion(extra: char -> nat, env: Env, a: set<string>, b: set<string>)
    ensures TextsSurvive(env, a + b) <==> TextsSurvive(env, a) && TextsSurvive(env, b)
    ensures NoneHeavier(extra, env, a + b) <==> NoneHeavier(extra, env, a) && NoneHeavier(extra, env, b)
  {
  }

  lemma {:induction false} SpanShownIsPlain(extra: char -> nat, env: Env, span: Span, wrapped: bool)
    ensures var shown, plain, texts := SpanShown(env, span, wrapped), SpanPlain(span), WrappedTexts(span, wrapped);
            && (TextsSurvive(env, texts) ==> shown == plain)
            && (NoneHeavier(extra, env, texts) ==>
                  Weight(extra, shown) <= Weight(extra, plain) && (shown == plain ==> TextsSurvive(env, texts)))
    decreases span, 1
  {
    if Wraps(span) {
      ShownInside(env, span, wrapped);
      SpansShownArePlain(extra, env, span.children, !span.Picture?);
    } else {
      ShownLeaf(env, span, wrapped);
    }
  }

  lemma {:induction false} SpansShownArePlain(extra: char -> nat, env: Env, spans: seq<Span>, wrapped: bool)
    ensures var shown, plain, texts := SpansShown(env, spans, wrapped), SpansPlain(spans), AllWrappedTexts(spans, wrapped);
            && (TextsSurvive(env, texts) ==> shown == plain)
            && (NoneHeavier(extra, env, texts) ==>
                  Weight(extra, shown) <= Weight(extra, plain) && (shown == plain ==> TextsSurvive(env, texts)))
    decreases spans, 0
  {
    if spans != [] {
      var init, last := spans[..|spans| - 1], spans[|spans| - 1];
      var before, texts := AllWrappedTexts(init, wrapped), WrappedTexts(last, wrapped);
      ShownStep(env, spans, wrapped);
      SpansShownArePlain(extra, env, init, wrapped);
      SpanShownIsPlain(extra, env, last, wrapped);
      TextsOfUnion(extra, env, before, texts);
      if NoneHeavier(extra, env, before + texts) {
        NoHeavierParts(extra, SpansShown(env, init, wrapped), SpanShown(env, last, wrapped), SpansPlain(init), SpanPlain(last));
      }
    }
  }

  // A picture's alt text is its plain string content when every wrapped text in it
  // survives tokenizing; and only then, if tokenizing makes none of them heavier
  // by some weighing of characters.
  lemma AltIsPlainContent(extra: char -> nat, env: Env, description: seq<Span>)
    ensures var texts := AllWrappedTexts(description, false);
            && (TextsSurvive(env, texts) ==> SpansAlt(env, description) == SpansPlain(description))
            && (NoneHeavier(extra, env, texts) ==>
                  (SpansAlt(env, description) == SpansPlain(description) <==> TextsSurvive(env, texts)))
  {
    SpansShownArePlain(extra, env, description, false);
  }

  // A mention is kept in an alt text, but lost under emphasis in an alt text.
  lemma WrappedMentionVanishes(env: Env, t: string, uri: NostrUri)
    requires t != "" && env.tokenize(t) == [Mention(uri)]
    ensures SpansAlt(env, [Words(t)]) == t
    ensures SpansAlt(env, [Em([Words(t)])]) == "" && SpansPlain([Em([Words(t)])]) == t
  {
    var words, em := Words(t), Em([Words(t)]);
    assert [words][..0] == [] && [em][..0] == [];
    assert [Mention(uri)][..0] == [];
    PlainTextsOne(Inline(Mention(uri)));
    assert InlineAll([Mention(uri)]) == [Inline(Mention(uri))];
    ShownStep(env, [em], false);
    ShownInside(env, em, false);
    ShownStep(env, [words], true);
    ShownLeaf(env, words, true);
  }

  // A plain URL segment, by contrast, is flattened to its address.
  lemma WrappedPlainUrlStays(env: Env, t: string, url: Url)
    requires env.tokenize(t) == [PlainUrl(url)]
    ensures SpansAlt(env, [Em([Words(t)])]) == url.text
  {
    var words, em := Words(t), Em([Words(t)]);
    assert [words][..0] == [] && [em][..0] == [];
    assert [PlainUrl(url)][..0] == [];
    PlainTextsOne(Inline(PlainUrl(url)));
    assert InlineAll([PlainUrl(url)]) == [Inline(PlainUrl(url))];
    ShownStep(env, [em], false);
    ShownInside(env, em, false);
    ShownStep(env, [words], true);
    ShownLeaf(env, words, true);
  }

  /******* The tree's own meaning *******/

  function SpanMeaning(env: Env, span: Span): seq<MarkdownInline>
    decreases span, 1
  {
    match span
    case Words(t) => var segments := env.tokenize(t); seq(|segments|, i requires 0 <= i < |segments| => Inline(segments[i]))
    case Verbatim(c) => [Code(c)]
    case Soft => [SoftBreak]
    case Hard => [HardBreak]
    case Em(children) => [Emphasis(SpansMeaning(env, children))]
    case Bold(children) => [Strong(SpansMeaning(env, children))]
    case Anchor(dest, children) => [Link(SpansMeaning(env, children), env.parseUrl(dest))]
    case Picture(dest, title, children) => [Image(SpansPlain(children), if title == "" then None else Some(title), env.parseUrl(dest))]
  }

  function SpansMeaning(env: Env, spans: seq<Span>): seq<MarkdownInline>
    decreases spans, 0
  {
    if spans == [] then [] else SpansMeaning(env, spans[..|spans| - 1]) + SpanMeaning(env, spans[|spans| - 1])
  }

  // A run of inlines is a paragraph, unless it is empty.
  function ParagraphOf(run: seq<MarkdownInline>): seq<MarkdownNode>
  {
    if |run| > 0 then [Paragraph(run)] else []
  }

  function BlockMeaning(env: Env, block: Block): seq<MarkdownNode>
    decreases block, 2
  {
    match block
    case Title(level, spans) => [Heading(level, SpansMeaning(env, spans))]
    case Para(spans) => ParagraphOf(SpansMeaning(env, spans))
    case Html(spans) => ParagraphOf(SpansMeaning(env, spans))
    case Quote(blocks) => [BlockQuote(BlocksMeaning(env, blocks))]
    case Bullets(start, items) => [ListBlock(start, ItemsMeaning(env, items))]
    case Fenced(lang, chunks) => [CodeBlock(if lang == "" then None else Some(lang), Flatten(chunks))]
    case Indented(chunks) => [CodeBlock(None, Flatten(chunks))]
    case Ruler => [Rule]
  }

  function BlocksMeaning(env: Env, blocks: seq<Block>): seq<MarkdownNode>
    decreases blocks, 0
  {
    if blocks == [] then [] else BlocksMeaning(env, blocks[..|blocks| - 1]) + BlockMeaning(env, blocks[|blocks| - 1])
  }

  function ItemsMeaning(env: Env, items: seq<Item>): seq<ListItem>
    decreases items, 0
  {
    if items == [] then [] else ItemsMeaning(env, items[..|items| - 1]) + [ListItem(ItemMeaning(env, items[|items| - 1]))]
  }

  function ItemMeaning(env: Env, item: Item): seq<MarkdownNode>
    decreases item, 2
  {
    Closed(PartsMeaning(env, item.parts))
  }

  // Loose spans standing together are one paragraph, in their place among the
  // blocks of the item.
  function PartsMeaning(env: Env, parts: seq<Part>): Out
    decreases parts, 0
  {
    if parts == [] then Out([], [])
    else PartMeaning(env, PartsMeaning(env, parts[..|parts| - 1]), parts[|parts| - 1])
  }

  function PartMeaning(env: Env, before: Out, part: Part): Out
    decreases part, 3
  {
    match part
    case Loose(span) => Out(before.nodes, before.pending + SpanMeaning(env, span))
    case Nested(block) => Out(Closed(before) + BlockMeaning(env, block), [])
  }

  // The nodes with the waiting run closed as a paragraph.
  function Closed(out: Out): seq<MarkdownNode>
  {
    out.nodes + ParagraphOf(out.pending)
  }

  /******* When the machine renders it *******/

  // Renders nothing of its own.
  predicate Blank(env: Env, block: Block)
  {
    (block.Para? || block.Html?) && SpansMeaning(env, block.spans) == []
  }

  // No list item puts visible loose text in front of a visible nested block.
  predicate Tidy(env: Env, blocks: seq<Block>)
    decreases blocks, 0
  {
    blocks == [] || (Tidy(env, blocks[..|blocks| - 1]) && TidyBlock(env, blocks[|blocks| - 1]))
  }

  predicate TidyBlock(env: Env, block: Block)
    decreases block, 2
  {
    match block
    case Quote(blocks) => Tidy(env, blocks)
    case Bullets(_, items) => TidyItems(env, items)
    case _ => true
  }

  predicate TidyItems(env: Env, items: seq<Item>)
    decreases items, 0
  {
    items == [] || (TidyItems(env, items[..|items| - 1]) && TidyItem(env, items[|items| - 1]))
  }

  predicate TidyItem(env: Env, item: Item)
    decreases item, 2
  {
    TidyParts(env, item.parts)
  }

  predicate TidyParts(env: Env, parts: seq<Part>)
    decreases parts, 0
  {
    parts == [] ||
    (TidyParts(env, parts[..|parts| - 1]) && TidyPart(env, LooseRun(env, parts[..|parts| - 1]), parts[|parts| - 1]))
  }

  predicate TidyPart(env: Env, run: seq<MarkdownInline>, part: Part)
    decreases part, 3
  {
    part.Nested? ==> TidyBlock(env, part.block) && (run != [] ==> Blank(env, part.block))
  }

  // The loose run the parts end with.
  function LooseRun(env: Env, parts: seq<Part>): seq<MarkdownInline>
  {
    if parts == [] || parts[|parts| - 1].Nested? then []
    else LooseRun(env, parts[..|parts| - 1]) + SpanMeaning(env, parts[|parts| - 1].span)
  }

  lemma {:induction false} LooseRunIsPending(env: Env, parts: seq<Part>)
    ensures PartsMeaning(env, parts).pending == LooseRun(env, parts)
  {
    if parts != [] {
      LooseRunIsPending(env, parts[..|parts| - 1]);
    }
  }

  // The descriptions of the outermost pictures of a tree.
  function SpanPictures(span: Span): set<seq<Span>>
    decreases span, 1
  {
    match span
    case Em(children) => SpansPictures(children)
    case Bold(children) => SpansPictures(children)
    case Anchor(_, children) => SpansPictures(children)
    case Picture(_, _, children) => {children}
    case _ => {}
  }

  function SpansPictures(spans: seq<Span>): set<seq<Span>>
    decreases spans, 0
  {
    if spans == [] then {} else SpansPictures(spans[..|spans| - 1]) + SpanPictures(spans[|spans| - 1])
  }

  function BlockPictures(block: Block): set<seq<Span>>
    decreases block, 2
  {
    match block
    case Title(_, spans) => SpansPictures(spans)
    case Para(spans) => SpansPictures(spans)
    case Html(spans) => SpansPictures(spans)
    case Quote(blocks) => BlocksPictures(blocks)
    case Bullets(_, items) => ItemsPictures(items)
    case _ => {}
  }

  function BlocksPictures(blocks: seq<Block>): set<seq<Span>>
    decreases blocks, 0
  {
    if blocks == [] then {} else BlocksPictures(blocks[..|blocks| - 1]) + BlockPictures(blocks[|blocks| - 1])
  }

  function ItemsPictures(items: seq<Item>): set<seq<Span>>
    decreases items, 0
  {
    if items == [] then {} else ItemsPictures(items[..|items| - 1]) + ItemPictures(items[|items| - 1])
  }

  function ItemPictures(item: Item): set<seq<Span>>
    decreases item, 2
  {
    PartsPictures(item.parts)
  }

  function PartsPictures(parts: seq<Part>): set<seq<Span>>
    decreases parts, 0
  {
    if parts == [] then {} else PartsPictures(parts[..|parts| - 1]) + PartPictures(parts[|parts| - 1])
  }

  function PartPictures(part: Part): set<seq<Span>>
    decreases part, 3
  {
    match part
    case Loose(span) => SpanPictures(span)
    case Nested(block) => BlockPictures(block)
  }

  // Every picture's alt text is its plain string content.
  ghost predicate PlainAlts(env: Env, pictures: set<seq<Span>>)
  {
    forall d :: d in pictures ==> SpansAlt(env, d) == SpansPlain(d)
  }

  lemma PlainAltsOfUnion(env: Env, a: set<seq<Span>>, b: set<seq<Span>>)
    ensures PlainAlts(env, a + b) <==> PlainAlts(env, a) && PlainAlts(env, b)
  {
  }

  lemma SplitEqual<T>(a: seq<T>, b: seq<T>, a': seq<T>, b': seq<T>)
    requires |b| == |b'|
    ensures a + b == a' + b' <==> a == a' && b == b'
  {
    if a + b == a' + b' {
      assert a == (a + b)[..|a|] && a' == (a' + b')[..|a'|];
      assert b == (a + b)[|a|..] && b' == (a' + b')[|a'|..];
    }
  }

  // Segment by segment, in order.
  lemma {:induction false} InlineAllIs(segments: seq<Segment>)
    ensures InlineAll(segments) == seq(|segments|, i requires 0 <= i < |segments| => Inline(segments[i]))
  {
    if segments != [] {
      InlineAllIs(segments[..|segments| - 1]);
    }
  }

  lemma {:induction false} SpanAgrees(env: Env, span: Span)
    ensures |SpanReading(env, span)| == |SpanMeaning(env, span)|
    ensures SpanReading(env, span) == SpanMeaning(env, span) <==> PlainAlts(env, SpanPictures(span))
    decreases span, 1
  {
    if Wraps(span) && !span.Picture? {
      SpansAgree(env, span.children);
    } else if span.Words? {
      InlineAllIs(env.tokenize(span.text));
    }
  }

  lemma {:induction false} SpansAgree(env: Env, spans: seq<Span>)
    ensures |SpansReading(env, spans)| == |SpansMeaning(env, spans)|
    ensures SpansReading(env, spans) == SpansMeaning(env, spans) <==> PlainAlts(env, SpansPictures(spans))
    decreases spans, 0
  {
    if spans != [] {
      var init, last := spans[..|spans| - 1], spans[|spans| - 1];
      SpansAgree(env, init);
      SpanAgrees(env, last);
      SplitEqual(SpansReading(env, init), SpanReading(env, last), SpansMeaning(env, init), SpanMeaning(env, last));
      PlainAltsOfUnion(env, SpansPictures(init), SpanPictures(last));
    }
  }

  lemma OneNodeEach(env: Env, block: Block, run: seq<MarkdownInline>)
    ensures |BlockOut(env, block, run).nodes| == if Blank(env, block) && run == [] then 0 else 1
    ensures |BlockMeaning(env, block)| == if Blank(env, block) then 0 else 1
  {
    if block.Para? || block.Html? {
      SpansAgree(env, block.spans);
    }
  }

  ghost predicate DifferSomewhere<T>(a: seq<T>, b: seq<T>)
  {
    exists d :: 0 <= d < |a| && d < |b| && a[d] != b[d]
  }

  lemma StillDiffer<T>(a: seq<T>, b: seq<T>, a': seq<T>, b': seq<T>)
    requires DifferSomewhere(a, b)
    ensures DifferSomewhere(a + a', b + b')
  {
    var d :| 0 <= d < |a| && d < |b| && a[d] != b[d];
    assert (a + a')[d] == a[d] && (b + b')[d] == b[d];
  }

  lemma DifferNext<T>(a: seq<T>, x: seq<T>, y: seq<T>)
    requires x != [] && y != [] && x[0] != y[0]
    ensures DifferSomewhere(a + x, a + y)
  {
    assert (a + x)[|a|] == x[0] && (a + y)[|a|] == y[0];
  }

  // A waiting run is rendered in its place only in front of a blank block.
  lemma RunInPlace(env: Env, block: Block, run: seq<MarkdownInline>, meant: seq<MarkdownInline>)
    requires run != [] && |run| == |meant|
    ensures BlockOut(env, block, run).nodes != []
    ensures BlockOut(env, block, run).nodes[0] == Paragraph(meant) <==> Blank(env, block) && run == meant
  {
    if block.Para? || block.Html? {
      SpansAgree(env, block.spans);
      assert |run + SpansReading(env, block.spans)| == |run| + |SpansMeaning(env, block.spans)|;
      assert run + [] == run;
    }
  }

  // The readings differ in a node already, or only in the run still waiting.
  ghost predicate Apart(out: Out, meaning: Out)
  {
    || DifferSomewhere(out.nodes, meaning.nodes)
    || (out.nodes == meaning.nodes && |out.pending| == |meaning.pending| && out.pending != meaning.pending)
  }

  // What the machine has after one more part.
  function Then(env: Env, out: Out, part: Part): Out
  {
    var next := PartOut(env, part, out.pending);
    Out(out.nodes + next.nodes, next.pending)
  }

  lemma PartsStep(env: Env, parts: seq<Part>)
    requires parts != []
    ensures var init, last := parts[..|parts| - 1], parts[|parts| - 1];
            && PartsOut(env, parts, []) == Then(env, PartsOut(env, init, []), last)
            && PartsMeaning(env, parts) == PartMeaning(env, PartsMeaning(env, init), last)
            && (TidyParts(env, parts) <==> TidyParts(env, init) && TidyPart(env, PartsMeaning(env, init).pending, last))
            && (PlainAlts(env, PartsPictures(parts)) <==> PlainAlts(env, PartsPictures(init)) && PlainAlts(env, PartPictures(last)))
  {
    LooseRunIsPending(env, parts[..|parts| - 1]);
    PlainAltsOfUnion(env, PartsPictures(parts[..|parts| - 1]), PartPictures(parts[|parts| - 1]));
  }

  lemma {:induction false} PartsAgree(env: Env, parts: seq<Part>)
    ensures var out, meaning := PartsOut(env, parts, []), PartsMeaning(env, parts);
            if TidyParts(env, parts) && PlainAlts(env, PartsPictures(parts)) then out == meaning else Apart(out, meaning)
    decreases parts, 0
  {
    if parts != [] {
      var init, last := parts[..|parts| - 1], parts[|parts| - 1];
      PartsAgree(env, init);
      PartsStep(env, parts);
      var out, meaning := PartsOut(env, init, []), PartsMeaning(env, init);
      if Apart(out, meaning) {
        ClosedApart(out, meaning);
      }
      if last.Loose? {
        LooseAgrees(env, out, meaning, last);
      } else if out == meaning {
        NestedAgrees(env, out, last);
      } else {
        NestedApart(env, out, meaning, last);
      }
    }
  }

  lemma LooseAgrees(env: Env, out: Out, meaning: Out, part: Part)
    requires part.Loose? && (out == meaning || Apart(out, meaning))
    ensures var out', meaning' := Then(env, out, part), PartMeaning(env, meaning, part);
            if out == meaning && PlainAlts(env, PartPictures(part)) then out' == meaning' else Apart(out', meaning')
  {
    SpanAgrees(env, part.span);
    assert out.nodes + [] == out.nodes;
    SplitEqual(out.pending, SpanReading(env, part.span), meaning.pending, SpanMeaning(env, part.span));
  }

  lemma NestedApart(env: Env, out: Out, meaning: Out, part: Part)
    requires part.Nested? && Apart(out, meaning)
    ensures Apart(Then(env, out, part), PartMeaning(env, meaning, part))
  {
    var nodes, block := BlockOut(env, part.block, out.pending).nodes, BlockMeaning(env, part.block);
    var rest := ParagraphOf(meaning.pending) + block;
    assert Closed(meaning) + block == meaning.nodes + rest;
    if DifferSomewhere(out.nodes, meaning.nodes) {
      StillDiffer(out.nodes, meaning.nodes, nodes, rest);
    } else {
      RunInPlace(env, part.block, out.pending, meaning.pending);
      DifferNext(out.nodes, nodes, rest);
    }
  }

  // One nested block after parts both readings agree on.
  lemma {:induction false} NestedAgrees(env: Env, before: Out, part: Part)
    requires part.Nested?
    ensures var out, meaning := Then(env, before, part), PartMeaning(env, before, part);
            if TidyPart(env, before.pending, part) && PlainAlts(env, PartPictures(part)) then out == meaning
            else Apart(out, meaning)
    decreases part, 3
  {
    var block, run := part.block, before.pending;
    if run == [] {
      BlockAgrees(env, block);
      NestedFresh(env, before, block);
    } else {
      NestedAfterRun(env, before, block);
    }
  }

  lemma NestedFresh(env: Env, before: Out, block: Block)
    requires before.pending == []
    requires BlockOut(env, block, []).nodes == BlockMeaning(env, block) <==> TidyBlock(env, block) && PlainAlts(env, BlockPictures(block))
    ensures var out, meaning := Then(env, before, Nested(block)), PartMeaning(env, before, Nested(block));
            if TidyBlock(env, block) && PlainAlts(env, BlockPictures(block)) then out == meaning else Apart(out, meaning)
  {
    var nodes, meant := BlockOut(env, block, []).nodes, BlockMeaning(env, block);
    OneNodeEach(env, block, []);
    NoRunLeftOverBlock(env, block);
    assert Closed(before) == before.nodes;
    if nodes != meant {
      assert nodes == [nodes[0]] && meant == [meant[0]];
      DifferNext(before.nodes, nodes, meant);
    }
  }

  lemma NestedAfterRun(env: Env, before: Out, block: Block)
    requires before.pending != []
    ensures var out, meaning := Then(env, before, Nested(block)), PartMeaning(env, before, Nested(block));
            if Blank(env, block) then TidyBlock(env, block) && PlainAlts(env, BlockPictures(block)) && out == meaning
            else Apart(out, meaning)
  {
    var run := before.pending;
    var nodes, rest := BlockOut(env, block, run).nodes, [Paragraph(run)] + BlockMeaning(env, block);
    assert Closed(before) + BlockMeaning(env, block) == before.nodes + rest;
    RunInPlace(env, block, run, run);
    if Blank(env, block) {
      SpansAgree(env, block.spans);
      OneNodeEach(env, block, run);
      assert nodes == [Paragraph(run)] == rest;
    } else {
      DifferNext(before.nodes, nodes, rest);
    }
  }

  lemma {:induction false} BlockAgrees(env: Env, block: Block)
    ensures BlockOut(env, block, []).nodes == BlockMeaning(env, block)
       <==> TidyBlock(env, block) && PlainAlts(env, BlockPictures(block))
    decreases block, 2
  {
    match block
    case Quote(blocks) => BlocksAgree(env, blocks);
    case Bullets(_, items) => ItemsAgree(env, items);
    case Title(_, spans) => InlinesAgree(env, spans);
    case Para(spans) => InlinesAgree(env, spans);
    case Html(spans) => InlinesAgree(env, spans);
    case _ =>
  }

  lemma InlinesAgree(env: Env, spans: seq<Span>)
    ensures [] + SpansReading(env, spans) == SpansMeaning(env, spans) <==> PlainAlts(env, SpansPictures(spans))
    ensures ParagraphOf([] + SpansReading(env, spans)) == ParagraphOf(SpansMeaning(env, spans))
       <==> PlainAlts(env, SpansPictures(spans))
  {
    SpansAgree(env, spans);
    assert [] + SpansReading(env, spans) == SpansReading(env, spans);
    var a, b := SpansReading(env, spans), SpansMeaning(env, spans);
    if a != b {
      assert ParagraphOf(a)[0] != ParagraphOf(b)[0];
    }
  }

  lemma {:induction false} BlocksAgree(env: Env, blocks: seq<Block>)
    ensures BlocksOut(env, blocks, []).nodes == BlocksMeaning(env, blocks)
       <==> Tidy(env, blocks) && PlainAlts(env, BlocksPictures(blocks))
    decreases blocks, 0
  {
    if blocks != [] {
      var init, last := blocks[..|blocks| - 1], blocks[|blocks| - 1];
      BlocksAgree(env, init);
      BlockAgrees(env, last);
      NoRunLeftOver(env, init);
      OneNodeEach(env, last, []);
      SplitEqual(BlocksOut(env, init, []).nodes, BlockOut(env, last, []).nodes,
                 BlocksMeaning(env, init), BlockMeaning(env, last));
      PlainAltsOfUnion(env, BlocksPictures(init), BlockPictures(last));
    }
  }

  lemma {:induction false} ItemsAgree(env: Env, items: seq<Item>)
    ensures ItemsOut(env, items, []) == ItemsMeaning(env, items)
       <==> TidyItems(env, items) && PlainAlts(env, ItemsPictures(items))
    decreases items, 0
  {
    if items != [] {
      var init, last := items[..|items| - 1], items[|items| - 1];
      ItemsAgree(env, init);
      ItemAgrees(env, last);
      SplitEqual(ItemsOut(env, init, []), [ListItem(ItemOut(env, last, []))],
                 ItemsMeaning(env, init), [ListItem(ItemMeaning(env, last))]);
      PlainAltsOfUnion(env, ItemsPictures(init), ItemPictures(last));
    }
  }

  lemma {:induction false} ItemAgrees(env: Env, item: Item)
    ensures ItemOut(env, item, []) == ItemMeaning(env, item)
       <==> TidyItem(env, item) && PlainAlts(env, ItemPictures(item))
    decreases item, 2
  {
    PartsAgree(env, item.parts);
    var out, meaning := PartsOut(env, item.parts, []), PartsMeaning(env, item.parts);
    if out != meaning {
      ClosedApart(out, meaning);
    }
  }

  lemma ClosedApart(out: Out, meaning: Out)
    requires Apart(out, meaning)
    ensures Closed(out) != Closed(meaning) && out != meaning
  {
    if DifferSomewhere(out.nodes, meaning.nodes) {
      StillDiffer(out.nodes, meaning.nodes, ParagraphOf(out.pending), ParagraphOf(meaning.pending));
    } else {
      DifferNext(out.nodes, ParagraphOf(out.pending), ParagraphOf(meaning.pending));
    }
  }

  /******* The walker *******/

  // The walker renders the document as what it means.
  ghost predicate Faithful(env: Env, doc: seq<Block>)
  {
    Run(env, START, BlocksEvents(doc)).blocks == BlocksMeaning(env, doc)
  }

  // Inside every picture, every text under a wrapper survives tokenizing.
  ghost predicate PicturesSurvive(env: Env, doc: seq<Block>)
  {
    forall d :: d in BlocksPictures(doc) ==> TextsSurvive(env, AllWrappedTexts(d, false))
  }

  // And none of these texts is made heavier by it.
  ghost predicate PicturesNoHeavier(extra: char -> nat, env: Env, doc: seq<Block>)
  {
    forall d :: d in BlocksPictures(doc) ==> NoneHeavier(extra, env, AllWrappedTexts(d, false))
  }

  lemma SurvivingAltsArePlain(extra: char -> nat, env: Env, doc: seq<Block>)
    ensures PicturesSurvive(env, doc) ==> PlainAlts(env, BlocksPictures(doc))
    ensures PicturesNoHeavier(extra, env, doc) ==> (PicturesSurvive(env, doc) <==> PlainAlts(env, BlocksPictures(doc)))
  {
    forall d | d in BlocksPictures(doc)
      ensures TextsSurvive(env, AllWrappedTexts(d, false)) ==> SpansAlt(env, d) == SpansPlain(d)
      ensures NoneHeavier(extra, env, AllWrappedTexts(d, false)) ==>
          (SpansAlt(env, d) == SpansPlain(d) <==> TextsSurvive(env, AllWrappedTexts(d, false)))
    {
      AltIsPlainContent(extra, env, d);
    }
  }

  // The walker renders a document as what it means when the document is tidy and
  // its alt texts survive; an untidy one it never does, and one whose alt texts do
  // not survive it does not as long as tokenizing makes none of them heavier.
  lemma FaithfulIffTidy(extra: char -> nat, env: Env, doc: seq<Block>)
    ensures Faithful(env, doc) <==> Tidy(env, doc) && PlainAlts(env, BlocksPictures(doc))
    ensures Tidy(env, doc) && PicturesSurvive(env, doc) ==> Faithful(env, doc)
    ensures PicturesNoHeavier(extra, env, doc) ==> (Faithful(env, doc) <==> Tidy(env, doc) && PicturesSurvive(env, doc))
  {
    WalkComputesTree(env, doc);
    BlocksAgree(env, doc);
    SurvivingAltsArePlain(extra, env, doc);
  }

  // A tight nested list is not tidy: the outer item's text ends up in the inner
  // item.
  lemma TightNestedListLeaks(env: Env, outer: string, inner: string)
    requires env.tokenize(outer) == [Text(outer)] && env.tokenize(inner) == [Text(inner)]
    ensures var sub := Bullets(None, [Item([Loose(Words(inner))])]);
            !Faithful(env, [Bullets(None, [Item([Loose(Words(outer)), Nested(sub)])])])
  {
    var sub := Bullets(None, [Item([Loose(Words(inner))])]);
    var parts := [Loose(Words(outer)), Nested(sub)];
    var items := [Item(parts)];
    var doc := [Bullets(None, items)];
    assert parts[..1] == [Loose(Words(outer))] && items[..0] == [] && doc[..0] == [];
    assert |SpanMeaning(env, Words(outer))| == 1;
    assert LooseRun(env, parts[..1]) != [];
    assert !TidyParts(env, parts);
    assert !TidyItems(env, items);
    FaithfulIffTidy((c: char) => 0, env, doc);
  }
}
