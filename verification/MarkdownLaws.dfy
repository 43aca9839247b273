// The stack machine on document trees: what it computes for every tree.
module MarkdownLaws {
  import opened Common
  import opened Content
  import opened Markdown

  /******* Document trees and their event streams *******/

  datatype Span =
    | Words(text: string)
    | Verbatim(text: string)
    | Soft
    | Hard
    | Em(children: seq<Span>)
    | Bold(children: seq<Span>)
    | Anchor(dest: string, children: seq<Span>)
    | Picture(dest: string, title: string, children: seq<Span>)

  datatype Block =
    | Title(level: nat, spans: seq<Span>)
    | Para(spans: seq<Span>)
    | Html(spans: seq<Span>)
    | Quote(blocks: seq<Block>)
    | Bullets(orderedStart: Option<nat>, items: seq<Item>)
    | Fenced(lang: string, chunks: seq<string>)
    | Indented(chunks: seq<string>)
    | Ruler

  // Inside a list item inline spans may stand without a paragraph around them.
  datatype Item = Item(parts: seq<Part>)

  datatype Part = Loose(span: Span) | Nested(block: Block)

  function SpanEvents(span: Span): seq<Event>
    decreases span, 1
  {
    match span
    case Words(t) => [TextEvent(t)]
    case Verbatim(c) => [CodeEvent(c)]
    case Soft => [SoftBreakEvent]
    case Hard => [HardBreakEvent]
    case Em(children) => [Start(EmphasisTag)] + SpansEvents(children) + [End(EmphasisEnd)]
    case Bold(children) => [Start(StrongTag)] + SpansEvents(children) + [End(StrongEnd)]
    case Anchor(dest, children) => [Start(LinkTag(dest))] + SpansEvents(children) + [End(LinkEnd)]
    case Picture(dest, title, children) => [Start(ImageTag(dest, title))] + SpansEvents(children) + [End(ImageEnd)]
  }

  function SpansEvents(spans: seq<Span>): seq<Event>
    decreases spans, 0
  {
    if spans == [] then [] else SpansEvents(spans[..|spans| - 1]) + SpanEvents(spans[|spans| - 1])
  }

  function ChunkEvents(chunks: seq<string>): seq<Event>
  {
    if chunks == [] then [] else ChunkEvents(chunks[..|chunks| - 1]) + [TextEvent(chunks[|chunks| - 1])]
  }

  function BlockEvents(block: Block): seq<Event>
    decreases block, 2
  {
    match block
    case Title(level, spans) => [Start(HeadingTag(level))] + SpansEvents(spans) + [End(HeadingEnd)]
    case Para(spans) => [Start(ParagraphTag)] + SpansEvents(spans) + [End(ParagraphEnd)]
    case Html(spans) => [Start(HtmlBlockTag)] + SpansEvents(spans) + [End(HtmlBlockEnd)]
    case Quote(blocks) => [Start(BlockQuoteTag)] + BlocksEvents(blocks) + [End(BlockQuoteEnd)]
    case Bullets(start, items) => [Start(ListTag(start))] + ItemsEvents(items) + [End(ListEnd)]
    case Fenced(lang, chunks) => [Start(FencedTag(lang))] + ChunkEvents(chunks) + [End(CodeBlockEnd)]
    case Indented(chunks) => [Start(IndentedTag)] + ChunkEvents(chunks) + [End(CodeBlockEnd)]
    case Ruler => [RuleEvent]
  }

  function BlocksEvents(blocks: seq<Block>): seq<Event>
    decreases blocks, 0
  {
    if blocks == [] then [] else BlocksEvents(blocks[..|blocks| - 1]) + BlockEvents(blocks[|blocks| - 1])
  }

  function ItemsEvents(items: seq<Item>): seq<Event>
    decreases items, 0
  {
    if items == [] then [] else ItemsEvents(items[..|items| - 1]) + ItemEvents(items[|items| - 1])
  }

  function ItemEvents(item: Item): seq<Event>
    decreases item, 2
  {
    [Start(ItemTag)] + PartsEvents(item.parts) + [End(ItemEnd)]
  }

  function PartsEvents(parts: seq<Part>): seq<Event>
    decreases parts, 0
  {
    if parts == [] then [] else PartsEvents(parts[..|parts| - 1]) + PartEvents(parts[|parts| - 1])
  }

  function PartEvents(part: Part): seq<Event>
    decreases part, 2
  {
    match part
    case Loose(span) => SpanEvents(span)
    case Nested(block) => BlockEvents(block)
  }

  /******* Inlines as the machine reads them *******/

  function SpanReading(env: Env, span: Span): seq<MarkdownInline>
    decreases span, 1
  {
    match span
    case Words(t) => InlineAll(env.tokenize(t))
    case Verbatim(c) => [Code(c)]
    case Soft => [SoftBreak]
    case Hard => [HardBreak]
    case Em(children) => [Emphasis(SpansReading(env, children))]
    case Bold(children) => [Strong(SpansReading(env, children))]
    case Anchor(dest, children) => [Link(SpansReading(env, children), env.parseUrl(dest))]
    case Picture(dest, title, children) => [Image(SpansAlt(env, children), NonEmpty(title), env.parseUrl(dest))]
  }

  function SpansReading(env: Env, spans: seq<Span>): seq<MarkdownInline>
    decreases spans, 0
  {
    if spans == [] then [] else SpansReading(env, spans[..|spans| - 1]) + SpanReading(env, spans[|spans| - 1])
  }

  function InlineAll(segments: seq<Segment>): seq<MarkdownInline>
  {
    if segments == [] then [] else InlineAll(segments[..|segments| - 1]) + [Inline(segments[|segments| - 1])]
  }

  // What a span adds to the alt text of the picture directly around it: raw text
  // stays raw, everything else is rendered and flattened.
  function SpanAlt(env: Env, span: Span): string
    decreases span, 2
  {
    if span.Words? then span.text else PlainTexts(SpanReading(env, span))
  }

  function SpansAlt(env: Env, spans: seq<Span>): string
    decreases spans, 0
  {
    if spans == [] then "" else SpansAlt(env, spans[..|spans| - 1]) + SpanAlt(env, spans[|spans| - 1])
  }

  /******* The machine on inline spans *******/

  // Inlines added where the machine currently collects them; an open picture
  // takes text instead.
  function Grow(st: State, inlines: seq<MarkdownInline>, alt: string): State
  {
    match Top<InlineFrame>(st.inlineStack)
    case None => st.(pending := st.pending + inlines)
    case Some(EmphasisFrame(buf)) => st.(inlineStack := Replace(st.inlineStack, EmphasisFrame(buf + inlines)))
    case Some(StrongFrame(buf)) => st.(inlineStack := Replace(st.inlineStack, StrongFrame(buf + inlines)))
    case Some(LinkFrame(buf, href)) => st.(inlineStack := Replace(st.inlineStack, LinkFrame(buf + inlines, href)))
    case Some(ImageFrame(text, title, src)) =>
      st.(inlineStack := Replace(st.inlineStack, ImageFrame(text + alt, title, src)))
  }

  lemma ReplaceTop<T>(s: seq<T>, a: T, b: T)
    requires s != []
    ensures Top<T>(Replace(s, a)) == Some(a) && Pop(Replace(s, a)) == Pop(s)
    ensures Replace(Replace(s, a), b) == Replace(s, b)
    ensures Replace(s, s[|s| - 1]) == s
  {
  }

  lemma GrowTwice(st: State, a: seq<MarkdownInline>, x: string, b: seq<MarkdownInline>, y: string)
    ensures Grow(Grow(st, a, x), b, y) == Grow(st, a + b, x + y)
  {
    var s := st.inlineStack;
    if s == [] {
      assert st.pending + a + b == st.pending + (a + b);
    } else {
      var top := s[|s| - 1];
      match top
      case EmphasisFrame(buf) =>
        ReplaceTop(s, EmphasisFrame(buf + a), EmphasisFrame(buf + (a + b)));
        assert buf + a + b == buf + (a + b);
      case StrongFrame(buf) =>
        ReplaceTop(s, StrongFrame(buf + a), StrongFrame(buf + (a + b)));
        assert buf + a + b == buf + (a + b);
      case LinkFrame(buf, href) =>
        ReplaceTop(s, LinkFrame(buf + a, href), LinkFrame(buf + (a + b), href));
        assert buf + a + b == buf + (a + b);
      case ImageFrame(text, title, src) =>
        ReplaceTop(s, ImageFrame(text + x, title, src), ImageFrame(text + (x + y), title, src));
        assert text + x + y == text + (x + y);
    }
  }

  lemma GrowNothing(st: State)
    ensures Grow(st, [], "") == st
  {
    var s := st.inlineStack;
    assert st.pending + [] == st.pending;
    if s != [] {
      ReplaceTop(s, s[|s| - 1], s[|s| - 1]);
      match s[|s| - 1]
      case EmphasisFrame(buf) => assert buf + [] == buf;
      case StrongFrame(buf) => assert buf + [] == buf;
      case LinkFrame(buf, href) => assert buf + [] == buf;
      case ImageFrame(text, title, src) => assert text + "" == text;
    }
  }

  // A frame opened on st, filled and popped again.
  lemma FilledFrame(st: State, frame: InlineFrame, inlines: seq<MarkdownInline>, alt: string)
    ensures var open := Grow(st.(inlineStack := st.inlineStack + [frame]), inlines, alt);
            && open.(inlineStack := Pop(open.inlineStack)) == st
            && Top<InlineFrame>(open.inlineStack) == Some(
               match frame
               case EmphasisFrame(buf) => EmphasisFrame(buf + inlines)
               case StrongFrame(buf) => StrongFrame(buf + inlines)
               case LinkFrame(buf, href) => LinkFrame(buf + inlines, href)
               case ImageFrame(text, title, src) => ImageFrame(text + alt, title, src))
  {
    assert Pop(st.inlineStack + [frame]) == st.inlineStack;
  }

  lemma PushIsGrow(st: State, inline: MarkdownInline)
    ensures PushInline(st, inline) == Grow(st, [inline], PlainTexts([inline]))
  {
    assert PlainTexts([inline]) == PlainTexts([]) + PlainText(inline);
    assert PlainTexts([inline]) == PlainText(inline);
  }

  lemma {:induction false} PushSegmentsIsGrow(st: State, segments: seq<Segment>)
    requires !(st.inlineStack != [] && st.inlineStack[|st.inlineStack| - 1].ImageFrame?)
    ensures forall alt :: PushSegments(st, segments) == Grow(st, InlineAll(segments), alt)
  {
    if segments == [] {
      GrowNothing(st);
    } else {
      var init, last := segments[..|segments| - 1], Inline(segments[|segments| - 1]);
      PushSegmentsIsGrow(st, init);
      var before := PushSegments(st, init);
      PushIsGrow(before, last);
      GrowTwice(st, InlineAll(init), "", [last], PlainTexts([last]));
    }
  }

  lemma RunBetween(env: Env, st: State, open: Event, body: seq<Event>, close: Event)
    ensures Run(env, st, [open] + body + [close]) == Handle(env, Run(env, Handle(env, st, open), body), close)
  {
    assert Run(env, st, [open]) == Handle(env, Run(env, st, []), open);
    RunAppend(env, st, [open], body);
    assert ([open] + body + [close])[..|body| + 1] == [open] + body;
  }

  lemma {:induction false} SpanRuns(env: Env, st: State, span: Span)
    requires st.code.None?
    ensures Run(env, st, SpanEvents(span)) == Grow(st, SpanReading(env, span), SpanAlt(env, span))
    decreases span, 1
  {
    match span
    case Words(t) =>
      assert Run(env, st, SpanEvents(span)) == PushText(env, Run(env, st, []), t);
      if !(st.inlineStack != [] && st.inlineStack[|st.inlineStack| - 1].ImageFrame?) {
        PushSegmentsIsGrow(st, env.tokenize(t));
      }
    case Verbatim(c) =>
      assert Run(env, st, SpanEvents(span)) == PushInline(Run(env, st, []), Code(c));
      PushIsGrow(st, Code(c));
    case Soft =>
      assert Run(env, st, SpanEvents(span)) == PushInline(Run(env, st, []), SoftBreak);
      PushIsGrow(st, SoftBreak);
    case Hard =>
      assert Run(env, st, SpanEvents(span)) == PushInline(Run(env, st, []), HardBreak);
      PushIsGrow(st, HardBreak);
    case Em(_) => EmRuns(env, st, span);
    case Bold(_) => BoldRuns(env, st, span);
    case Anchor(_, _) => AnchorRuns(env, st, span);
    case Picture(_, _, _) => PictureRuns(env, st, span);
  }

  predicate Wraps(span: Span)
  {
    span.Em? || span.Bold? || span.Anchor? || span.Picture?
  }

  function Opened(st: State, frame: InlineFrame): State
  {
    st.(inlineStack := st.inlineStack + [frame])
  }

  // Closing a filled frame pushes what it collected, wrapped.
  lemma CloseEm(env: Env, st: State, inlines: seq<MarkdownInline>, alt: string)
    ensures Handle(env, Grow(Opened(st, EmphasisFrame([])), inlines, alt), End(EmphasisEnd)) == PushInline(st, Emphasis(inlines))
  {
    FilledFrame(st, EmphasisFrame([]), inlines, alt);
    assert [] + inlines == inlines;
  }

  lemma CloseBold(env: Env, st: State, inlines: seq<MarkdownInline>, alt: string)
    ensures Handle(env, Grow(Opened(st, StrongFrame([])), inlines, alt), End(StrongEnd)) == PushInline(st, Strong(inlines))
  {
    FilledFrame(st, StrongFrame([]), inlines, alt);
    assert [] + inlines == inlines;
  }

  lemma CloseAnchor(env: Env, st: State, href: Option<Url>, inlines: seq<MarkdownInline>, alt: string)
    ensures Handle(env, Grow(Opened(st, LinkFrame([], href)), inlines, alt), End(LinkEnd)) == PushInline(st, Link(inlines, href))
  {
    FilledFrame(st, LinkFrame([], href), inlines, alt);
    assert [] + inlines == inlines;
  }

  lemma ClosePicture(env: Env, st: State, title: Option<string>, src: Option<Url>, inlines: seq<MarkdownInline>, alt: string)
    ensures Handle(env, Grow(Opened(st, ImageFrame("", title, src)), inlines, alt), End(ImageEnd)) == PushInline(st, Image(alt, title, src))
  {
    FilledFrame(st, ImageFrame("", title, src), inlines, alt);
    assert "" + alt == alt;
  }

  // The frame opens with its start event and closes into the given inline.
  ghost predicate OpensAndCloses(env: Env, st: State, frame: InlineFrame, start: Event, children: seq<Span>, close: Event, inline: MarkdownInline)
  {
    && Handle(env, st, start) == Opened(st, frame)
    && Handle(env, Grow(Opened(st, frame), SpansReading(env, children), SpansAlt(env, children)), close) == PushInline(st, inline)
  }

  // Open a frame, fill it with the children, close it.
  lemma {:induction false} FrameRuns(
    env: Env, st: State, frame: InlineFrame, start: Event, children: seq<Span>, close: Event, inline: MarkdownInline)
    requires st.code.None?
    ensures OpensAndCloses(env, st, frame, start, children, close, inline) ==>
        Run(env, st, [start] + SpansEvents(children) + [close]) == Grow(st, [inline], PlainTexts([inline]))
    decreases children, 1
  {
    if OpensAndCloses(env, st, frame, start, children, close, inline) {
      RunBetween(env, st, start, SpansEvents(children), close);
      SpansRun(env, Opened(st, frame), children);
      PushIsGrow(st, inline);
    }
  }

  lemma {:induction false} EmRuns(env: Env, st: State, span: Span)
    requires st.code.None? && span.Em?
    ensures Run(env, st, SpanEvents(span)) == Grow(st, SpanReading(env, span), SpanAlt(env, span))
    decreases span, 0
  {
    var inlines, alt := SpansReading(env, span.children), SpansAlt(env, span.children);
    CloseEm(env, st, inlines, alt);
    FrameRuns(env, st, EmphasisFrame([]), Start(EmphasisTag), span.children, End(EmphasisEnd), Emphasis(inlines));
  }

  lemma {:induction false} BoldRuns(env: Env, st: State, span: Span)
    requires st.code.None? && span.Bold?
    ensures Run(env, st, SpanEvents(span)) == Grow(st, SpanReading(env, span), SpanAlt(env, span))
    decreases span, 0
  {
    var inlines, alt := SpansReading(env, span.children), SpansAlt(env, span.children);
    CloseBold(env, st, inlines, alt);
    FrameRuns(env, st, StrongFrame([]), Start(StrongTag), span.children, End(StrongEnd), Strong(inlines));
  }

  lemma {:induction false} AnchorRuns(env: Env, st: State, span: Span)
    requires st.code.None? && span.Anchor?
    ensures Run(env, st, SpanEvents(span)) == Grow(st, SpanReading(env, span), SpanAlt(env, span))
    decreases span, 0
  {
    var inlines, alt := SpansReading(env, span.children), SpansAlt(env, span.children);
    var href := env.parseUrl(span.dest);
    CloseAnchor(env, st, href, inlines, alt);
    FrameRuns(env, st, LinkFrame([], href), Start(LinkTag(span.dest)), span.children, End(LinkEnd), Link(inlines, href));
  }

  lemma {:induction false} PictureRuns(env: Env, st: State, span: Span)
    requires st.code.None? && span.Picture?
    ensures Run(env, st, SpanEvents(span)) == Grow(st, SpanReading(env, span), SpanAlt(env, span))
    decreases span, 0
  {
    var inlines, alt := SpansReading(env, span.children), SpansAlt(env, span.children);
    var title, src := NonEmpty(span.title), env.parseUrl(span.dest);
    ClosePicture(env, st, title, src, inlines, alt);
    FrameRuns(env, st, ImageFrame("", title, src), Start(ImageTag(span.dest, span.title)), span.children, End(ImageEnd),
              Image(alt, title, src));
  }

  lemma GrowKeepsCode(st: State, inlines: seq<MarkdownInline>, alt: string)
    ensures Grow(st, inlines, alt).code == st.code
  {
  }

  // Two stretches of events, each adding what it stands for.
  lemma GrowsInTurn(
    env: Env, st: State, a: seq<Event>, x: seq<MarkdownInline>, xa: string, b: seq<Event>, y: seq<MarkdownInline>, ya: string)
    requires Run(env, st, a) == Grow(st, x, xa) && Run(env, Grow(st, x, xa), b) == Grow(Grow(st, x, xa), y, ya)
    ensures Run(env, st, a + b) == Grow(st, x + y, xa + ya)
  {
    RunAppend(env, st, a, b);
    GrowTwice(st, x, xa, y, ya);
  }

  lemma {:induction false} SpansRun(env: Env, st: State, spans: seq<Span>)
    requires st.code.None?
    ensures Run(env, st, SpansEvents(spans)) == Grow(st, SpansReading(env, spans), SpansAlt(env, spans))
    decreases spans, 0
  {
    if spans == [] {
      GrowNothing(st);
    } else {
      var init, last := spans[..|spans| - 1], spans[|spans| - 1];
      SpansRun(env, st, init);
      var x, xa := SpansReading(env, init), SpansAlt(env, init);
      GrowKeepsCode(st, x, xa);
      SpanRuns(env, Grow(st, x, xa), last);
      GrowsInTurn(env, st, SpansEvents(init), x, xa, SpanEvents(last), SpanReading(env, last), SpanAlt(env, last));
    }
  }

  /******* What the machine computes for a tree *******/

  // Nodes emitted, and the inline run still waiting for a block to land in.
  datatype Out = Out(nodes: seq<MarkdownNode>, pending: seq<MarkdownInline>)

  function InfoOf(block: Block): Option<string>
  {
    if block.Fenced? then NonEmpty(block.lang) else None
  }

  // A waiting run joins the first heading or paragraph that closes after it,
  // however deep that one is nested.
  function BlockOut(env: Env, block: Block, run: seq<MarkdownInline>): Out
    decreases block, 2
  {
    match block
    case Title(level, spans) => Out([Heading(level, run + SpansReading(env, spans))], [])
    case Para(spans) => Out(AsParagraph(run + SpansReading(env, spans)), [])
    case Html(spans) => Out(AsParagraph(run + SpansReading(env, spans)), [])
    case Quote(blocks) =>
      var out := BlocksOut(env, blocks, run);
      Out([BlockQuote(out.nodes)], out.pending)
    case Bullets(start, items) =>
      Out([ListBlock(start, ItemsOut(env, items, run))], if items == [] then run else [])
    case Fenced(_, chunks) => Out([CodeBlock(InfoOf(block), Flatten(chunks))], run)
    case Indented(chunks) => Out([CodeBlock(InfoOf(block), Flatten(chunks))], run)
    case Ruler => Out([Rule], run)
  }

  function BlocksOut(env: Env, blocks: seq<Block>, run: seq<MarkdownInline>): Out
    decreases blocks, 0
  {
    if blocks == [] then Out([], run)
    else
      var first := BlocksOut(env, blocks[..|blocks| - 1], run);
      var last := BlockOut(env, blocks[|blocks| - 1], first.pending);
      Out(first.nodes + last.nodes, last.pending)
  }

  // Closing an item flushes the run, so only the first item can inherit one.
  function ItemsOut(env: Env, items: seq<Item>, run: seq<MarkdownInline>): seq<ListItem>
    decreases items, 0
  {
    if items == [] then []
    else
      ItemsOut(env, items[..|items| - 1], run)
      + [ListItem(ItemOut(env, items[|items| - 1], if |items| == 1 then run else []))]
  }

  function ItemOut(env: Env, item: Item, run: seq<MarkdownInline>): seq<MarkdownNode>
    decreases item, 2
  {
    var out := PartsOut(env, item.parts, run);
    out.nodes + AsParagraph(out.pending)
  }

  function PartsOut(env: Env, parts: seq<Part>, run: seq<MarkdownInline>): Out
    decreases parts, 0
  {
    if parts == [] then Out([], run)
    else
      var first := PartsOut(env, parts[..|parts| - 1], run);
      var last := PartOut(env, parts[|parts| - 1], first.pending);
      Out(first.nodes + last.nodes, last.pending)
  }

  function PartOut(env: Env, part: Part, run: seq<MarkdownInline>): Out
    decreases part, 3
  {
    match part
    case Loose(span) => Out([], run + SpanReading(env, span))
    case Nested(block) => BlockOut(env, block, run)
  }

  /******* The machine on blocks *******/

  // Blocks land in the document, a quote or an item.
  predicate Sink(stack: seq<BlockFrame>)
  {
    stack == [] || stack[|stack| - 1].QuoteFrame? || stack[|stack| - 1].ItemFrame?
  }

  predicate Ready(st: State)
  {
    st.code.None? && st.inlineStack == []
  }

  function EmitAll(st: State, out: Out): State
  {
    match Top<BlockFrame>(st.blockStack)
    case Some(QuoteFrame(body)) =>
      st.(blockStack := Replace(st.blockStack, QuoteFrame(body + out.nodes)), pending := out.pending)
    case Some(ItemFrame(body)) =>
      st.(blockStack := Replace(st.blockStack, ItemFrame(body + out.nodes)), pending := out.pending)
    case _ => st.(blocks := st.blocks + out.nodes, pending := out.pending)
  }

  lemma EmitNothing(st: State, run: seq<MarkdownInline>)
    ensures EmitAll(st, Out([], run)) == st.(pending := run)
  {
    var s := st.blockStack;
    assert st.blocks + [] == st.blocks;
    if s != [] {
      ReplaceTop(s, s[|s| - 1], s[|s| - 1]);
      match s[|s| - 1]
      case QuoteFrame(body) => assert body + [] == body;
      case ItemFrame(body) => assert body + [] == body;
      case _ =>
    }
  }

  lemma EmitKeepsReady(st: State, out: Out)
    requires Ready(st) && Sink(st.blockStack)
    ensures Ready(EmitAll(st, out)) && Sink(EmitAll(st, out).blockStack) && EmitAll(st, out).pending == out.pending
  {
  }

  lemma EmitTwice(st: State, a: Out, b: Out)
    ensures EmitAll(EmitAll(st, a), b) == EmitAll(st, Out(a.nodes + b.nodes, b.pending))
  {
    var s := st.blockStack;
    if s == [] {
      Assoc(st.blocks, a.nodes, b.nodes);
    } else {
      match s[|s| - 1]
      case QuoteFrame(body) =>
        ReplaceTop(s, QuoteFrame(body + a.nodes), QuoteFrame(body + (a.nodes + b.nodes)));
        Assoc(body, a.nodes, b.nodes);
      case ItemFrame(body) =>
        ReplaceTop(s, ItemFrame(body + a.nodes), ItemFrame(body + (a.nodes + b.nodes)));
        Assoc(body, a.nodes, b.nodes);
      case _ =>
        Assoc(st.blocks, a.nodes, b.nodes);
    }
  }

  // A block frame pushed on st and popped again.
  lemma PushPop(st: State, frame: BlockFrame)
    ensures var open := st.(blockStack := st.blockStack + [frame]);
            Top<BlockFrame>(open.blockStack) == Some(frame) && Pop(open.blockStack) == st.blockStack
  {
  }

  lemma EmitOne(st: State, node: MarkdownNode, run: seq<MarkdownInline>)
    ensures EmitBlock(st.(pending := run), node) == EmitAll(st, Out([node], run))
  {
  }

  function Pushed(st: State, frame: BlockFrame, run: seq<MarkdownInline>): State
  {
    st.(blockStack := st.blockStack + [frame], pending := run)
  }

  lemma FlushRuns(st: State, run: seq<MarkdownInline>)
    ensures Flush(st.(pending := run)) == EmitAll(st, Out(AsParagraph(run), []))
  {
    EmitNothing(st, []);
    EmitOne(st, Paragraph(run), []);
  }

  // What closing a block frame emits, with the run it finds.
  lemma CloseTitle(env: Env, st: State, level: nat, run: seq<MarkdownInline>)
    ensures Handle(env, Pushed(st, HeadingFrame(level), run), End(HeadingEnd)) == EmitAll(st, Out([Heading(level, run)], []))
  {
    PushPop(st, HeadingFrame(level));
    EmitOne(st, Heading(level, run), []);
  }

  lemma CloseParagraph(env: Env, st: State, close: TagEnd, run: seq<MarkdownInline>)
    requires close.ParagraphEnd? || close.HtmlBlockEnd?
    ensures Handle(env, Pushed(st, ParagraphFrame, run), End(close)) == EmitAll(st, Out(AsParagraph(run), []))
  {
    PushPop(st, ParagraphFrame);
    assert Pushed(st, ParagraphFrame, run).(blockStack := st.blockStack) == st.(pending := run);
    FlushRuns(st, run);
  }

  lemma CloseQuote(env: Env, st: State, body: seq<MarkdownNode>, run: seq<MarkdownInline>)
    ensures Handle(env, Pushed(st, QuoteFrame(body), run), End(BlockQuoteEnd)) == EmitAll(st, Out([BlockQuote(body)], run))
  {
    PushPop(st, QuoteFrame(body));
    EmitOne(st, BlockQuote(body), run);
  }

  lemma CloseList(env: Env, st: State, start: Option<nat>, items: seq<ListItem>, run: seq<MarkdownInline>)
    ensures Handle(env, Pushed(st, ListFrame(start, items), run), End(ListEnd)) == EmitAll(st, Out([ListBlock(start, items)], run))
  {
    PushPop(st, ListFrame(start, items));
    EmitOne(st, ListBlock(start, items), run);
  }

  // An item goes from its frame into the list frame below.
  lemma CloseItem(env: Env, st: State, start: Option<nat>, done: seq<ListItem>, body: seq<MarkdownNode>, run: seq<MarkdownInline>)
    ensures Handle(env, Pushed(Pushed(st, ListFrame(start, done), st.pending), ItemFrame(body), run), End(ItemEnd))
         == Pushed(st, ListFrame(start, done + [ListItem(body + AsParagraph(run))]), [])
  {
    PushPop(Pushed(st, ListFrame(start, done), st.pending), ItemFrame(body));
    PushPop(st, ListFrame(start, done));
  }

  lemma EmitIntoQuote(st: State, out: Out)
    ensures EmitAll(Pushed(st, QuoteFrame([]), st.pending), out) == Pushed(st, QuoteFrame(out.nodes), out.pending)
  {
    PushPop(st, QuoteFrame([]));
    assert [] + out.nodes == out.nodes;
  }

  lemma EmitIntoItem(st: State, out: Out)
    ensures EmitAll(Pushed(st, ItemFrame([]), st.pending), out) == Pushed(st, ItemFrame(out.nodes), out.pending)
  {
    PushPop(st, ItemFrame([]));
    assert [] + out.nodes == out.nodes;
  }

  // Inline spans between a frame's start and end.
  lemma InlinesRun(env: Env, st: State, frame: BlockFrame, start: Event, spans: seq<Span>, close: Event)
    requires Ready(st) && Handle(env, st, start) == Pushed(st, frame, st.pending)
    ensures Run(env, st, [start] + SpansEvents(spans) + [close])
         == Handle(env, Pushed(st, frame, st.pending + SpansReading(env, spans)), close)
  {
    RunBetween(env, st, start, SpansEvents(spans), close);
    SpansRun(env, Pushed(st, frame, st.pending), spans);
  }

  lemma TitleRuns(env: Env, st: State, block: Block)
    requires Ready(st) && block.Title?
    ensures Run(env, st, BlockEvents(block)) == EmitAll(st, BlockOut(env, block, st.pending))
  {
    var level, spans := block.level, block.spans;
    InlinesRun(env, st, HeadingFrame(level), Start(HeadingTag(level)), spans, End(HeadingEnd));
    CloseTitle(env, st, level, st.pending + SpansReading(env, spans));
  }

  lemma ParaRuns(env: Env, st: State, block: Block)
    requires Ready(st) && block.Para?
    ensures Run(env, st, BlockEvents(block)) == EmitAll(st, BlockOut(env, block, st.pending))
  {
    InlinesRun(env, st, ParagraphFrame, Start(ParagraphTag), block.spans, End(ParagraphEnd));
    CloseParagraph(env, st, ParagraphEnd, st.pending + SpansReading(env, block.spans));
  }

  lemma HtmlRuns(env: Env, st: State, block: Block)
    requires Ready(st) && block.Html?
    ensures Run(env, st, BlockEvents(block)) == EmitAll(st, BlockOut(env, block, st.pending))
  {
    InlinesRun(env, st, ParagraphFrame, Start(HtmlBlockTag), block.spans, End(HtmlBlockEnd));
    CloseParagraph(env, st, HtmlBlockEnd, st.pending + SpansReading(env, block.spans));
  }

  lemma {:induction false} ChunksRun(env: Env, st: State, chunks: seq<string>)
    requires st.code.Some?
    ensures Run(env, st, ChunkEvents(chunks))
         == st.(code := Some(CodeFrame(st.code.value.info, st.code.value.body + Flatten(chunks))))
  {
    if chunks == [] {
      assert st.code.value.body + [] == st.code.value.body;
    } else {
      var init, last := chunks[..|chunks| - 1], chunks[|chunks| - 1];
      ChunksRun(env, st, init);
      assert st.code.value.body + Flatten(init) + last == st.code.value.body + (Flatten(init) + last);
    }
  }

  lemma CodeRuns(env: Env, st: State, start: Event, info: Option<string>, chunks: seq<string>)
    requires Ready(st) && Handle(env, st, start) == st.(code := Some(CodeFrame(info, "")))
    ensures Run(env, st, [start] + ChunkEvents(chunks) + [End(CodeBlockEnd)])
         == EmitAll(st, Out([CodeBlock(info, Flatten(chunks))], st.pending))
  {
    RunBetween(env, st, start, ChunkEvents(chunks), End(CodeBlockEnd));
    ChunksRun(env, st.(code := Some(CodeFrame(info, ""))), chunks);
    assert "" + Flatten(chunks) == Flatten(chunks);
    EmitOne(st, CodeBlock(info, Flatten(chunks)), st.pending);
  }

  lemma RulerRuns(env: Env, st: State)
    ensures Run(env, st, [RuleEvent]) == EmitAll(st, Out([Rule], st.pending))
  {
    assert Run(env, st, [RuleEvent]) == EmitBlock(Run(env, st, []), Rule);
    EmitOne(st, Rule, st.pending);
  }

  lemma {:induction false} BlockRuns(env: Env, st: State, block: Block)
    requires Ready(st) && Sink(st.blockStack)
    ensures Run(env, st, BlockEvents(block)) == EmitAll(st, BlockOut(env, block, st.pending))
    decreases block, 2
  {
    match block
    case Quote(_) => QuoteRuns(env, st, block);
    case Bullets(_, _) => BulletsRun(env, st, block);
    case Ruler => RulerRuns(env, st);
    case Fenced(lang, chunks) => CodeRuns(env, st, Start(FencedTag(lang)), NonEmpty(lang), chunks);
    case Indented(chunks) => CodeRuns(env, st, Start(IndentedTag), None, chunks);
    case Title(_, _) => TitleRuns(env, st, block);
    case Para(_) => ParaRuns(env, st, block);
    case Html(_) => HtmlRuns(env, st, block);
  }

  lemma {:induction false} QuoteRuns(env: Env, st: State, block: Block)
    requires Ready(st) && block.Quote?
    ensures Run(env, st, BlockEvents(block)) == EmitAll(st, BlockOut(env, block, st.pending))
    decreases block, 1
  {
    var blocks, open := block.blocks, Pushed(st, QuoteFrame([]), st.pending);
    RunBetween(env, st, Start(BlockQuoteTag), BlocksEvents(blocks), End(BlockQuoteEnd));
    BlocksRun(env, open, blocks);
    var out := BlocksOut(env, blocks, st.pending);
    EmitIntoQuote(st, out);
    CloseQuote(env, st, out.nodes, out.pending);
  }

  lemma {:induction false} BulletsRun(env: Env, st: State, block: Block)
    requires Ready(st) && block.Bullets?
    ensures Run(env, st, BlockEvents(block)) == EmitAll(st, BlockOut(env, block, st.pending))
    decreases block, 1
  {
    var start, items := block.orderedStart, block.items;
    RunBetween(env, st, Start(ListTag(start)), ItemsEvents(items), End(ListEnd));
    ItemsRun(env, st, start, [], items);
    var bodies := ItemsOut(env, items, st.pending);
    assert [] + bodies == bodies;
    CloseList(env, st, start, bodies, if items == [] then st.pending else []);
  }

  lemma {:induction false} BlocksRun(env: Env, st: State, blocks: seq<Block>)
    requires Ready(st) && Sink(st.blockStack)
    ensures Run(env, st, BlocksEvents(blocks)) == EmitAll(st, BlocksOut(env, blocks, st.pending))
    decreases blocks, 0
  {
    if blocks == [] {
      EmitNothing(st, st.pending);
    } else {
      var init, last := blocks[..|blocks| - 1], blocks[|blocks| - 1];
      BlocksRun(env, st, init);
      var first := BlocksOut(env, init, st.pending);
      RunAppend(env, st, BlocksEvents(init), BlockEvents(last));
      EmitKeepsReady(st, first);
      EmitTwice(st, first, BlockOut(env, last, first.pending));
      BlockRuns(env, EmitAll(st, first), last);
    }
  }

  // The list frame on top of st collects the item bodies.
  lemma {:induction false} ItemsRun(env: Env, st: State, start: Option<nat>, done: seq<ListItem>, items: seq<Item>)
    requires Ready(st)
    ensures Run(env, Pushed(st, ListFrame(start, done), st.pending), ItemsEvents(items))
         == Pushed(st, ListFrame(start, done + ItemsOut(env, items, st.pending)), if items == [] then st.pending else [])
    decreases items, 0
  {
    var list := Pushed(st, ListFrame(start, done), st.pending);
    if items == [] {
      assert done + [] == done;
    } else {
      var init, last := items[..|items| - 1], items[|items| - 1];
      ItemsRun(env, st, start, done, init);
      RunAppend(env, list, ItemsEvents(init), ItemEvents(last));
      var run := if init == [] then st.pending else [];
      var bodies, body := ItemsOut(env, init, st.pending), ItemOut(env, last, run);
      ItemRuns(env, st.(pending := run), start, done + bodies, last);
      Assoc(done, bodies, [ListItem(body)]);
    }
  }

  lemma {:induction false} ItemRuns(env: Env, st: State, start: Option<nat>, done: seq<ListItem>, item: Item)
    requires Ready(st)
    ensures Run(env, Pushed(st, ListFrame(start, done), st.pending), ItemEvents(item))
         == Pushed(st, ListFrame(start, done + [ListItem(ItemOut(env, item, st.pending))]), [])
    decreases item, 2
  {
    var list := Pushed(st, ListFrame(start, done), st.pending);
    RunBetween(env, list, Start(ItemTag), PartsEvents(item.parts), End(ItemEnd));
    PartsRun(env, Pushed(list, ItemFrame([]), st.pending), item.parts);
    var out := PartsOut(env, item.parts, st.pending);
    EmitIntoItem(list, out);
    CloseItem(env, st, start, done, out.nodes, out.pending);
  }

  lemma {:induction false} PartsRun(env: Env, st: State, parts: seq<Part>)
    requires Ready(st) && Sink(st.blockStack)
    ensures Run(env, st, PartsEvents(parts)) == EmitAll(st, PartsOut(env, parts, st.pending))
    decreases parts, 0
  {
    if parts == [] {
      EmitNothing(st, st.pending);
    } else {
      var init, last := parts[..|parts| - 1], parts[|parts| - 1];
      PartsRun(env, st, init);
      var first := PartsOut(env, init, st.pending);
      RunAppend(env, st, PartsEvents(init), PartEvents(last));
      EmitKeepsReady(st, first);
      EmitTwice(st, first, PartOut(env, last, first.pending));
      PartRuns(env, EmitAll(st, first), last);
    }
  }

  lemma {:induction false} PartRuns(env: Env, st: State, part: Part)
    requires Ready(st) && Sink(st.blockStack)
    ensures Run(env, st, PartEvents(part)) == EmitAll(st, PartOut(env, part, st.pending))
    decreases part, 3
  {
    match part
    case Loose(span) =>
      SpanRuns(env, st, span);
      EmitNothing(st, st.pending + SpanReading(env, span));
    case Nested(block) => BlockRuns(env, st, block);
  }

  // No run is left over when none was waiting.
  lemma {:induction false} NoRunLeftOver(env: Env, blocks: seq<Block>)
    ensures BlocksOut(env, blocks, []).pending == []
    decreases blocks, 0
  {
    if blocks != [] {
      NoRunLeftOver(env, blocks[..|blocks| - 1]);
      NoRunLeftOverBlock(env, blocks[|blocks| - 1]);
    }
  }

  lemma {:induction false} NoRunLeftOverBlock(env: Env, block: Block)
    ensures BlockOut(env, block, []).pending == []
    decreases block, 1
  {
    if block.Quote? {
      NoRunLeftOver(env, block.blocks);
    }
  }

  // For every document: the machine emits the threaded reading of the tree and
  // ends with every stack and buffer empty.
  lemma WalkComputesTree(env: Env, doc: seq<Block>)
    ensures Run(env, START, BlocksEvents(doc)) == START.(blocks := BlocksOut(env, doc, []).nodes)
  {
    BlocksRun(env, START, doc);
    NoRunLeftOver(env, doc);
    assert [] + BlocksOut(env, doc, []).nodes == BlocksOut(env, doc, []).nodes;
  }

  /******* Streams that are not trees *******/

  // The frame kind a block end belongs to.
  ghost predicate Closes(end: TagEnd, frame: BlockFrame)
  {
    || (end.HeadingEnd? && frame.HeadingFrame?) || (end.ParagraphEnd? && frame.ParagraphFrame?)
    || (end.HtmlBlockEnd? && frame.ParagraphFrame?) || (end.BlockQuoteEnd? && frame.QuoteFrame?)
    || (end.ListEnd? && frame.ListFrame?) || (end.ItemEnd? && frame.ItemFrame?)
  }

  ghost predicate EndsBlock(end: TagEnd)
  {
    end.HeadingEnd? || end.ParagraphEnd? || end.HtmlBlockEnd? || end.BlockQuoteEnd? || end.ListEnd? || end.ItemEnd?
  }

  // A block end without a frame does nothing; on a frame of another kind it drops
  // that frame and nothing else, but an HTML end leaves it.
  lemma MismatchedBlockEnd(env: Env, st: State, end: TagEnd)
    requires EndsBlock(end)
    ensures st.blockStack == [] ==> Handle(env, st, End(end)) == st
    ensures var n := |st.blockStack|;
            n > 0 && !Closes(end, st.blockStack[n - 1]) ==>
              Handle(env, st, End(end)) == if end.HtmlBlockEnd? then st else st.(blockStack := st.blockStack[..n - 1])
  {
  }

  // An item without a list below it loses its body and the waiting run.
  lemma StrayItem(env: Env, st: State, body: seq<MarkdownNode>)
    requires |st.blockStack| > 0 ==> !st.blockStack[|st.blockStack| - 1].ListFrame?
    ensures Handle(env, st.(blockStack := st.blockStack + [ItemFrame(body)]), End(ItemEnd)) == st.(pending := [])
  {
    var open := st.(blockStack := st.blockStack + [ItemFrame(body)]);
    PushPop(st, ItemFrame(body));
    assert open.(blockStack := Pop(open.blockStack)) == st;
    assert Handle(env, open, End(ItemEnd)) == EndItem(open);
  }

  // Inline ends: without a frame nothing happens.  A link or image end drops a frame
  // of another kind; an emphasis or strong end wraps what emphasis or strong
  // collected and passes a link or an image on as it is.
  lemma MismatchedInlineEnd(env: Env, st: State, frame: InlineFrame)
    ensures var open := st.(inlineStack := st.inlineStack + [frame]);
            && (!frame.LinkFrame? ==> Handle(env, open, End(LinkEnd)) == st)
            && (!frame.ImageFrame? ==> Handle(env, open, End(ImageEnd)) == st)
            && (frame.EmphasisFrame? || frame.StrongFrame? ==>
                  && Handle(env, open, End(EmphasisEnd)) == PushInline(st, Emphasis(frame.buf))
                  && Handle(env, open, End(StrongEnd)) == PushInline(st, Strong(frame.buf)))
            && (frame.LinkFrame? ==>
                  Handle(env, open, End(EmphasisEnd)) == Handle(env, open, End(StrongEnd)) == PushInline(st, Link(frame.buf, frame.href)))
            && (frame.ImageFrame? ==>
                  Handle(env, open, End(EmphasisEnd)) == Handle(env, open, End(StrongEnd))
                  == PushInline(st, Image(frame.alt, frame.title, frame.src)))
  {
    assert Pop(st.inlineStack + [frame]) == st.inlineStack;
  }

  lemma StrayEnds(env: Env, st: State)
    ensures st.inlineStack == [] ==>
        Handle(env, st, End(LinkEnd)) == Handle(env, st, End(ImageEnd)) == Handle(env, st, End(EmphasisEnd)) == Handle(env, st, End(StrongEnd)) == st
    ensures st.code.None? ==> Handle(env, st, End(CodeBlockEnd)) == st
    ensures Handle(env, st, Start(OtherTag)) == Handle(env, st, End(OtherEnd)) == Handle(env, st, OtherEvent) == st
  {
  }
}
