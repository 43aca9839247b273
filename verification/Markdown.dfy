// The markdown walker: a stack machine over parser events.
module Markdown {
  import opened Common
  import opened Content

  // The inline tokenizer and the URL parser the walker calls.
  datatype Env = Env(tokenize: string -> seq<Segment>, parseUrl: string -> Option<Url>)

  /******* Events *******/

  datatype Tag =
    | HeadingTag(level: nat)
    | ParagraphTag
    | BlockQuoteTag
    | ListTag(orderedStart: Option<nat>)
    | ItemTag
    | FencedTag(lang: string)
    | IndentedTag
    | EmphasisTag
    | StrongTag
    | LinkTag(dest: string)
    | ImageTag(dest: string, title: string)
    | HtmlBlockTag // also every table part: each opens a paragraph frame
    | OtherTag     // footnotes, definition lists, sub / sup, metadata: ignored

  datatype TagEnd =
    | HeadingEnd | ParagraphEnd | BlockQuoteEnd | ListEnd | ItemEnd | CodeBlockEnd
    | EmphasisEnd | StrongEnd | LinkEnd | ImageEnd | HtmlBlockEnd | OtherEnd

  datatype Event =
    | Start(tag: Tag)
    | End(end: TagEnd)
    | TextEvent(text: string) // also HTML, inline HTML and math
    | CodeEvent(text: string)
    | SoftBreakEvent
    | HardBreakEvent
    | RuleEvent
    | OtherEvent              // footnote references and task markers: ignored

  /******* Machine state *******/

  datatype CodeFrame = CodeFrame(info: Option<string>, body: string)

  datatype BlockFrame =
    | HeadingFrame(level: nat)
    | ParagraphFrame
    | QuoteFrame(body: seq<MarkdownNode>)
    | ListFrame(orderedStart: Option<nat>, items: seq<ListItem>)
    | ItemFrame(body: seq<MarkdownNode>)

  datatype InlineFrame =
    | EmphasisFrame(buf: seq<MarkdownInline>)
    | StrongFrame(buf: seq<MarkdownInline>)
    | LinkFrame(buf: seq<MarkdownInline>, href: Option<Url>)
    | ImageFrame(alt: string, title: Option<string>, src: Option<Url>)

  datatype State = State(
    blocks: seq<MarkdownNode>,
    blockStack: seq<BlockFrame>,
    inlineStack: seq<InlineFrame>,
    pending: seq<MarkdownInline>,
    code: Option<CodeFrame>)

  const START: State := State([], [], [], [], None)

  function Top<T>(s: seq<T>): Option<T>
  {
    if s == [] then None else Some(s[|s| - 1])
  }

  function Pop<T>(s: seq<T>): seq<T>
  {
    if s == [] then [] else s[..|s| - 1]
  }

  function Replace<T>(s: seq<T>, top: T): seq<T>
  {
    Pop(s) + [top]
  }

  /******* Plain text of an inline, for image alt *******/

  function PlainText(inline: MarkdownInline): string
    decreases inline, 1
  {
    match inline
    case Inline(Text(t)) => t
    case Inline(Hashtag(t)) => "#" + t
    case Inline(Emoji(shortcode, _)) => ":" + shortcode + ":"
    case Inline(PlainUrl(u)) => u.text
    case Code(c) => c
    case Emphasis(children) => PlainTexts(children)
    case Strong(children) => PlainTexts(children)
    case Link(caption, _) => PlainTexts(caption)
    case Image(alt, _, _) => alt
    case SoftBreak => "\n"
    case HardBreak => "\n"
    case Inline(_) => ""
  }

  function PlainTexts(inlines: seq<MarkdownInline>): string
    decreases inlines, 0
  {
    if inlines == [] then "" else PlainTexts(inlines[..|inlines| - 1]) + PlainText(inlines[|inlines| - 1])
  }

  /******* Transitions *******/

  function PushInline(st: State, inline: MarkdownInline): State
  {
    match Top<InlineFrame>(st.inlineStack)
    case None => st.(pending := st.pending + [inline])
    case Some(ImageFrame(alt, title, src)) =>
      st.(inlineStack := Replace(st.inlineStack, ImageFrame(alt + PlainText(inline), title, src)))
    case Some(EmphasisFrame(buf)) => st.(inlineStack := Replace(st.inlineStack, EmphasisFrame(buf + [inline])))
    case Some(StrongFrame(buf)) => st.(inlineStack := Replace(st.inlineStack, StrongFrame(buf + [inline])))
    case Some(LinkFrame(buf, href)) => st.(inlineStack := Replace(st.inlineStack, LinkFrame(buf + [inline], href)))
  }

  function PushSegments(st: State, segments: seq<Segment>): State
  {
    if segments == [] then st
    else PushInline(PushSegments(st, segments[..|segments| - 1]), Inline(segments[|segments| - 1]))
  }

  function PushText(env: Env, st: State, text: string): State
  {
    if st.code.Some? then st.(code := Some(st.code.value.(body := st.code.value.body + text)))
    else match Top<InlineFrame>(st.inlineStack)
      case Some(ImageFrame(alt, title, src)) =>
        st.(inlineStack := Replace(st.inlineStack, ImageFrame(alt + text, title, src)))
      case _ => PushSegments(st, env.tokenize(text))
  }

  function EmitBlock(st: State, node: MarkdownNode): State
  {
    match Top<BlockFrame>(st.blockStack)
    case Some(QuoteFrame(body)) => st.(blockStack := Replace(st.blockStack, QuoteFrame(body + [node])))
    case Some(ItemFrame(body)) => st.(blockStack := Replace(st.blockStack, ItemFrame(body + [node])))
    case _ => st.(blocks := st.blocks + [node])
  }

  function NonEmpty(s: string): Option<string>
  {
    if s == "" then None else Some(s)
  }

  function StartTag(env: Env, st: State, tag: Tag): State
  {
    match tag
    case HeadingTag(level) => st.(blockStack := st.blockStack + [HeadingFrame(level)])
    case ParagraphTag => st.(blockStack := st.blockStack + [ParagraphFrame])
    case HtmlBlockTag => st.(blockStack := st.blockStack + [ParagraphFrame])
    case BlockQuoteTag => st.(blockStack := st.blockStack + [QuoteFrame([])])
    case ListTag(start) => st.(blockStack := st.blockStack + [ListFrame(start, [])])
    case ItemTag => st.(blockStack := st.blockStack + [ItemFrame([])])
    case FencedTag(lang) => st.(code := Some(CodeFrame(NonEmpty(lang), "")))
    case IndentedTag => st.(code := Some(CodeFrame(None, "")))
    case EmphasisTag => st.(inlineStack := st.inlineStack + [EmphasisFrame([])])
    case StrongTag => st.(inlineStack := st.inlineStack + [StrongFrame([])])
    case LinkTag(dest) => st.(inlineStack := st.inlineStack + [LinkFrame([], env.parseUrl(dest))])
    case ImageTag(dest, title) =>
      st.(inlineStack := st.inlineStack + [ImageFrame("", NonEmpty(title), env.parseUrl(dest))])
    case OtherTag => st
  }

  // Flush the pending inline run as a paragraph, if there is one.
  function Flush(st: State): State
  {
    if st.pending == [] then st else EmitBlock(st.(pending := []), Paragraph(st.pending))
  }

  // Emphasis / Strong close: a link or image frame found instead is pushed as
  // what it is.
  function PopInlineInto(st: State, strong: bool): State
  {
    var rest := st.(inlineStack := Pop(st.inlineStack));
    match Top<InlineFrame>(st.inlineStack)
    case None => st
    case Some(LinkFrame(caption, href)) => PushInline(rest, Link(caption, href))
    case Some(ImageFrame(alt, title, src)) => PushInline(rest, Image(alt, title, src))
    case Some(EmphasisFrame(buf)) => PushInline(rest, if strong then Strong(buf) else Emphasis(buf))
    case Some(StrongFrame(buf)) => PushInline(rest, if strong then Strong(buf) else Emphasis(buf))
  }

  function EndLink(st: State): State
  {
    var rest := st.(inlineStack := Pop(st.inlineStack));
    match Top<InlineFrame>(st.inlineStack)
    case Some(LinkFrame(caption, href)) => PushInline(rest, Link(caption, href))
    case _ => rest
  }

  function EndImage(st: State): State
  {
    var rest := st.(inlineStack := Pop(st.inlineStack));
    match Top<InlineFrame>(st.inlineStack)
    case Some(ImageFrame(alt, title, src)) => PushInline(rest, Image(alt, title, src))
    case _ => rest
  }

  // The run as a paragraph, if it is not empty.
  function AsParagraph(run: seq<MarkdownInline>): seq<MarkdownNode>
  {
    if run == [] then [] else [Paragraph(run)]
  }

  // An item closes into the list frame below it; without one its body is lost.
  function EndItem(st: State): State
  {
    var rest := st.(blockStack := Pop(st.blockStack));
    match Top<BlockFrame>(st.blockStack)
    case Some(ItemFrame(body)) =>
      (match Top<BlockFrame>(rest.blockStack)
       case Some(ListFrame(start, items)) =>
         rest.(blockStack := Replace(rest.blockStack, ListFrame(start, items + [ListItem(body + AsParagraph(st.pending))])), pending := [])
       case _ => rest.(pending := []))
    case _ => rest
  }

  function EndTag(st: State, end: TagEnd): State
  {
    var top := Top<BlockFrame>(st.blockStack);
    var rest := st.(blockStack := Pop(st.blockStack));
    match end
    case HeadingEnd =>
      if top.Some? && top.value.HeadingFrame?
      then EmitBlock(rest.(pending := []), Heading(top.value.level, st.pending)) else rest
    case ParagraphEnd => if top.Some? && top.value.ParagraphFrame? then Flush(rest) else rest
    case HtmlBlockEnd => if top.Some? && top.value.ParagraphFrame? then Flush(rest) else st
    case BlockQuoteEnd =>
      if top.Some? && top.value.QuoteFrame? then EmitBlock(rest, BlockQuote(top.value.body)) else rest
    case ListEnd =>
      if top.Some? && top.value.ListFrame?
      then EmitBlock(rest, ListBlock(top.value.orderedStart, top.value.items)) else rest
    case ItemEnd => EndItem(st)
    case CodeBlockEnd =>
      if st.code.Some?
      then EmitBlock(st.(code := None), CodeBlock(st.code.value.info, st.code.value.body)) else st
    case EmphasisEnd => PopInlineInto(st, false)
    case StrongEnd => PopInlineInto(st, true)
    case LinkEnd => EndLink(st)
    case ImageEnd => EndImage(st)
    case OtherEnd => st
  }

  function Handle(env: Env, st: State, event: Event): State
  {
    match event
    case Start(tag) => StartTag(env, st, tag)
    case End(end) => EndTag(st, end)
    case TextEvent(t) => PushText(env, st, t)
    case CodeEvent(c) => PushInline(st, Code(c))
    case SoftBreakEvent => PushInline(st, SoftBreak)
    case HardBreakEvent => PushInline(st, HardBreak)
    case RuleEvent => EmitBlock(st, Rule)
    case OtherEvent => st
  }

  function Run(env: Env, st: State, events: seq<Event>): State
  {
    if events == [] then st else Handle(env, Run(env, st, events[..|events| - 1]), events[|events| - 1])
  }

  lemma {:induction false} RunAppend(env: Env, st: State, a: seq<Event>, b: seq<Event>)
    ensures Run(env, st, a + b) == Run(env, Run(env, st, a), b)
  {
    if b == [] {
      assert a + b == a;
    } else {
      RunAppend(env, st, a, b[..|b| - 1]);
      AppendLast(a, b);
    }
  }

  /******* The walker *******/

  // Appends the plain text of an inline to a buffer.
  method InlinePlainText(inline: MarkdownInline, out: string) returns (r: string)
    ensures r == out + PlainText(inline)
    decreases inline, 1
  {
    match inline {
      case Inline(Text(t)) => r := out + t;
      case Inline(Hashtag(t)) => r := out + "#" + t;
      case Inline(Emoji(shortcode, _)) => r := out + ":" + shortcode + ":";
      case Inline(PlainUrl(u)) => r := out + u.text;
      case Code(c) => r := out + c;
      case Emphasis(children) => r := InlinesPlainText(children, out);
      case Strong(children) => r := InlinesPlainText(children, out);
      case Link(caption, _) => r := InlinesPlainText(caption, out);
      case Image(alt, _, _) => r := out + alt;
      case SoftBreak => r := out + "\n";
      case HardBreak => r := out + "\n";
      case Inline(_) => r := out;
    }
  }

  method InlinesPlainText(children: seq<MarkdownInline>, out: string) returns (r: string)
    ensures r == out + PlainTexts(children)
    decreases children, 0
  {
    r := out;
    for i := 0 to |children|
      invariant r == out + PlainTexts(children[..i])
    {
      assert children[..i + 1][..i] == children[..i];
      r := InlinePlainText(children[i], r);
    }
    assert children[..|children|] == children;
  }

  class Walker {
    const env: Env
    var blocks: seq<MarkdownNode>
    var blockStack: seq<BlockFrame>
    var inlineStack: seq<InlineFrame>
    var pendingInlines: seq<MarkdownInline>
    var pendingCode: Option<CodeFrame>

    function Value(): State
      reads this
    {
      State(blocks, blockStack, inlineStack, pendingInlines, pendingCode)
    }

    constructor (env: Env)
      ensures this.env == env && Value() == START
    {
      this.env := env;
      blocks, blockStack, inlineStack, pendingInlines, pendingCode := [], [], [], [], None;
    }

    method PushInlineRun(inline: MarkdownInline)
      modifies this
      ensures Value() == PushInline(old(Value()), inline)
    {
      if inlineStack == [] {
        pendingInlines := pendingInlines + [inline];
        return;
      }
      var rest, frame := inlineStack[..|inlineStack| - 1], inlineStack[|inlineStack| - 1];
      match frame {
        case EmphasisFrame(buf) => inlineStack := rest + [EmphasisFrame(buf + [inline])];
        case StrongFrame(buf) => inlineStack := rest + [StrongFrame(buf + [inline])];
        case LinkFrame(buf, href) => inlineStack := rest + [LinkFrame(buf + [inline], href)];
        case ImageFrame(alt, title, src) =>
          var text := InlinePlainText(inline, alt);
          inlineStack := rest + [ImageFrame(text, title, src)];
      }
    }

    method PushTextRun(text: string)
      modifies this
      ensures Value() == PushText(env, old(Value()), text)
    {
      if pendingCode.Some? {
        pendingCode := Some(CodeFrame(pendingCode.value.info, pendingCode.value.body + text));
        return;
      }
      if inlineStack != [] && inlineStack[|inlineStack| - 1].ImageFrame? {
        var ImageFrame(alt, title, src) := inlineStack[|inlineStack| - 1];
        inlineStack := inlineStack[..|inlineStack| - 1] + [ImageFrame(alt + text, title, src)];
        return;
      }
      var segments := env.tokenize(text);
      for i := 0 to |segments|
        invariant Value() == PushSegments(old(Value()), segments[..i])
      {
        assert segments[..i + 1][..i] == segments[..i];
        PushInlineRun(Inline(segments[i]));
      }
      assert segments[..|segments|] == segments;
    }

    method Emit(node: MarkdownNode)
      modifies this
      ensures Value() == EmitBlock(old(Value()), node)
    {
      if blockStack != [] && blockStack[|blockStack| - 1].QuoteFrame? {
        blockStack := blockStack[..|blockStack| - 1] + [QuoteFrame(blockStack[|blockStack| - 1].body + [node])];
      } else if blockStack != [] && blockStack[|blockStack| - 1].ItemFrame? {
        blockStack := blockStack[..|blockStack| - 1] + [ItemFrame(blockStack[|blockStack| - 1].body + [node])];
      } else {
        blocks := blocks + [node];
      }
    }

    method Open(tag: Tag)
      modifies this
      ensures Value() == StartTag(env, old(Value()), tag)
    {
      match tag {
        case HeadingTag(level) => blockStack := blockStack + [HeadingFrame(level)];
        case ParagraphTag => blockStack := blockStack + [ParagraphFrame];
        case HtmlBlockTag => blockStack := blockStack + [ParagraphFrame];
        case BlockQuoteTag => blockStack := blockStack + [QuoteFrame([])];
        case ListTag(start) => blockStack := blockStack + [ListFrame(start, [])];
        case ItemTag => blockStack := blockStack + [ItemFrame([])];
        case FencedTag(lang) => pendingCode := Some(CodeFrame(if lang == "" then None else Some(lang), ""));
        case IndentedTag => pendingCode := Some(CodeFrame(None, ""));
        case EmphasisTag => inlineStack := inlineStack + [EmphasisFrame([])];
        case StrongTag => inlineStack := inlineStack + [StrongFrame([])];
        case LinkTag(dest) => inlineStack := inlineStack + [LinkFrame([], env.parseUrl(dest))];
        case ImageTag(dest, title) =>
          inlineStack := inlineStack + [ImageFrame("", if title == "" then None else Some(title), env.parseUrl(dest))];
        case OtherTag =>
      }
    }

    method PopBlock() returns (frame: Option<BlockFrame>)
      modifies this`blockStack
      ensures frame == Top<BlockFrame>(old(blockStack)) && blockStack == Pop(old(blockStack))
    {
      if blockStack == [] {
        return None;
      }
      frame := Some(blockStack[|blockStack| - 1]);
      blockStack := blockStack[..|blockStack| - 1];
    }

    method PopInline() returns (frame: Option<InlineFrame>)
      modifies this`inlineStack
      ensures frame == Top<InlineFrame>(old(inlineStack)) && inlineStack == Pop(old(inlineStack))
    {
      if inlineStack == [] {
        return None;
      }
      frame := Some(inlineStack[|inlineStack| - 1]);
      inlineStack := inlineStack[..|inlineStack| - 1];
    }

    // mem::take on the pending run, emitted as a paragraph unless empty.
    method FlushRun()
      modifies this
      ensures Value() == Flush(old(Value()))
    {
      var inlines := pendingInlines;
      pendingInlines := [];
      if inlines != [] {
        Emit(Paragraph(inlines));
      }
    }

    method CloseItem()
      modifies this
      ensures Value() == EndItem(old(Value()))
    {
      var frame := PopBlock();
      if frame.Some? && frame.value.ItemFrame? {
        var body := frame.value.body;
        var inlines := pendingInlines;
        pendingInlines := [];
        if inlines != [] {
          body := body + [Paragraph(inlines)];
        }
        assert body == frame.value.body + AsParagraph(inlines);
        if blockStack != [] && blockStack[|blockStack| - 1].ListFrame? {
          var ListFrame(start, items) := blockStack[|blockStack| - 1];
          blockStack := blockStack[..|blockStack| - 1] + [ListFrame(start, items + [ListItem(body)])];
        }
      }
    }

    method CloseEmphasis(strong: bool)
      modifies this
      ensures Value() == PopInlineInto(old(Value()), strong)
    {
      var frame := PopInline();
      match frame {
        case None =>
        case Some(LinkFrame(caption, href)) => PushInlineRun(Link(caption, href));
        case Some(ImageFrame(alt, title, src)) => PushInlineRun(Image(alt, title, src));
        case Some(EmphasisFrame(buf)) => PushInlineRun(if strong then Strong(buf) else Emphasis(buf));
        case Some(StrongFrame(buf)) => PushInlineRun(if strong then Strong(buf) else Emphasis(buf));
      }
    }

    method CloseLink()
      modifies this
      ensures Value() == EndLink(old(Value()))
    {
      var frame := PopInline();
      if frame.Some? && frame.value.LinkFrame? {
        PushInlineRun(Link(frame.value.buf, frame.value.href));
      }
    }

    method CloseImage()
      modifies this
      ensures Value() == EndImage(old(Value()))
    {
      var frame := PopInline();
      if frame.Some? && frame.value.ImageFrame? {
        PushInlineRun(Image(frame.value.alt, frame.value.title, frame.value.src));
      }
    }

    // The block tags that carry a frame of their own kind.
    method CloseBlock(end: TagEnd)
      requires end == HeadingEnd || end == ParagraphEnd || end == BlockQuoteEnd || end == ListEnd
      modifies this
      ensures Value() == EndTag(old(Value()), end)
    {
      var frame := PopBlock();
      if frame.None? {
        return;
      }
      match frame.value {
        case HeadingFrame(level) =>
          if end.HeadingEnd? {
            var inlines := pendingInlines;
            pendingInlines := [];
            Emit(Heading(level, inlines));
          }
        case ParagraphFrame =>
          if end.ParagraphEnd? {
            FlushRun();
          }
        case QuoteFrame(body) =>
          if end.BlockQuoteEnd? {
            Emit(BlockQuote(body));
          }
        case ListFrame(start, items) =>
          if end.ListEnd? {
            Emit(ListBlock(start, items));
          }
        case ItemFrame(_) =>
      }
    }

    method Close(end: TagEnd)
      modifies this
      ensures Value() == EndTag(old(Value()), end)
    {
      match end {
        case ItemEnd => CloseItem();
        case CodeBlockEnd =>
          if pendingCode.Some? {
            var CodeFrame(info, body) := pendingCode.value;
            pendingCode := None;
            Emit(CodeBlock(info, body));
          }
        case EmphasisEnd => CloseEmphasis(false);
        case StrongEnd => CloseEmphasis(true);
        case LinkEnd => CloseLink();
        case ImageEnd => CloseImage();
        case HtmlBlockEnd =>
          if blockStack != [] && blockStack[|blockStack| - 1].ParagraphFrame? {
            blockStack := blockStack[..|blockStack| - 1];
            FlushRun();
          }
        case OtherEnd =>
        case _ => CloseBlock(end);
      }
    }

    method HandleEvent(event: Event)
      modifies this
      ensures Value() == Handle(env, old(Value()), event)
    {
      match event {
        case Start(tag) => Open(tag);
        case End(end) => Close(end);
        case TextEvent(t) => PushTextRun(t);
        case CodeEvent(c) => PushInlineRun(Code(c));
        case SoftBreakEvent => PushInlineRun(SoftBreak);
        case HardBreakEvent => PushInlineRun(HardBreak);
        case RuleEvent => Emit(Rule);
        case OtherEvent =>
      }
    }
  }

  // One walker over the whole event stream, each root node wrapped as a segment.
  method ParseMarkdownBlocks(env: Env, events: seq<Event>) returns (segments: seq<Segment>)
    ensures var nodes := Run(env, START, events).blocks;
            |segments| == |nodes| && forall i :: 0 <= i < |nodes| ==> segments[i] == MarkdownBlock(nodes[i])
  {
    var walker := new Walker(env);
    for i := 0 to |events|
      invariant walker.env == env && fresh(walker)
      invariant walker.Value() == Run(env, START, events[..i])
    {
      assert events[..i + 1][..i] == events[..i];
      walker.HandleEvent(events[i]);
    }
    assert events[..|events|] == events;
    var nodes := walker.blocks;
    segments := seq(|nodes|, i requires 0 <= i < |nodes| => MarkdownBlock(nodes[i]));
  }
}
