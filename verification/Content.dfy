// The content IR: inline segments and markdown nodes.
module Content {
  import opened Common

  datatype Url = Url(text: string)

  datatype NostrUri = Profile(uri: string) | Event(uri: string) | Address(uri: string)

  datatype MediaKind = ImageMedia | VideoMedia | AudioMedia

  datatype InvoiceKind = Bolt11 | Bolt12 | Cashu

  datatype Segment =
    | Text(text: string)
    | Mention(target: NostrUri)
    | EventRef(target: NostrUri)
    | Hashtag(tag: string)
    | PlainUrl(url: Url)
    | AdCandidateUrl(url: Url)
    | Media(urls: seq<Url>, kind: MediaKind)
    | Emoji(shortcode: string, image: Option<Url>)
    | Invoice(invoice: InvoiceKind, value: string)
    | MarkdownBlock(node: MarkdownNode)

  datatype MarkdownNode =
    | Heading(level: nat, inlines: seq<MarkdownInline>)
    | Paragraph(inlines: seq<MarkdownInline>)
    | BlockQuote(body: seq<MarkdownNode>)
    | CodeBlock(info: Option<string>, code: string)
    | ListBlock(orderedStart: Option<nat>, items: seq<ListItem>)
    | Rule

  datatype ListItem = ListItem(blocks: seq<MarkdownNode>)

  datatype MarkdownInline =
    | Inline(segment: Segment)
    | Emphasis(children: seq<MarkdownInline>)
    | Strong(children: seq<MarkdownInline>)
    | Code(code: string)
    | Link(caption: seq<MarkdownInline>, href: Option<Url>)
    | Image(alt: string, title: Option<string>, src: Option<Url>)
    | SoftBreak
    | HardBreak
}
