// The relay-free embed store: every URI transitively reachable from a content
// tree is resolved once, also when the references form cycles.
module EmbedStore {
  import opened Common
  import opened Content

  type Tree = seq<Segment>

  /******* URIs in a tree *******/

  function SegmentUris(seg: Segment): seq<string>
    decreases seg, 2
  {
    match seg
    case Mention(target) => [target.uri]
    case EventRef(target) => [target.uri]
    case MarkdownBlock(node) => NodeUris(node)
    case _ => []
  }

  function NodeUris(node: MarkdownNode): seq<string>
    decreases node, 2
  {
    match node
    case Heading(_, inlines) => InlinesUris(inlines)
    case Paragraph(inlines) => InlinesUris(inlines)
    case BlockQuote(body) => NodesUris(body)
    case ListBlock(_, items) => ItemsUris(items)
    case CodeBlock(_, _) => []
    case Rule => []
  }

  function NodesUris(nodes: seq<MarkdownNode>): seq<string>
    decreases nodes, 0
  {
    if nodes == [] then [] else NodesUris(nodes[..|nodes| - 1]) + NodeUris(nodes[|nodes| - 1])
  }

  function ItemsUris(items: seq<ListItem>): seq<string>
    decreases items, 0
  {
    if items == [] then [] else ItemsUris(items[..|items| - 1]) + ItemUris(items[|items| - 1])
  }

  function ItemUris(item: ListItem): seq<string>
    decreases item, 1
  {
    NodesUris(item.blocks)
  }

  function InlineUris(inline: MarkdownInline): seq<string>
    decreases inline, 2
  {
    match inline
    case Inline(segment) => SegmentUris(segment)
    case Emphasis(children) => InlinesUris(children)
    case Strong(children) => InlinesUris(children)
    case Link(caption, _) => InlinesUris(caption)
    case _ => []
  }

  function InlinesUris(inlines: seq<MarkdownInline>): seq<string>
    decreases inlines, 0
  {
    if inlines == [] then [] else InlinesUris(inlines[..|inlines| - 1]) + InlineUris(inlines[|inlines| - 1])
  }

  function TreeUris(tree: Tree): seq<string>
  {
    if tree == [] then [] else TreeUris(tree[..|tree| - 1]) + SegmentUris(tree[|tree| - 1])
  }

  /******* The collectors: each appends to one buffer *******/

  method CollectUris(seg: Segment, out: seq<string>) returns (r: seq<string>)
    ensures r == out + SegmentUris(seg)
    decreases seg, 2
  {
    match seg {
      case Mention(target) => r := out + [target.uri];
      case EventRef(target) => r := out + [target.uri];
      case MarkdownBlock(node) => r := CollectNodeUris(node, out);
      case _ => r := out;
    }
  }

  method CollectNodeUris(node: MarkdownNode, out: seq<string>) returns (r: seq<string>)
    ensures r == out + NodeUris(node)
    decreases node, 2
  {
    match node {
      case Heading(_, inlines) => r := CollectInlines(inlines, out);
      case Paragraph(inlines) => r := CollectInlines(inlines, out);
      case BlockQuote(body) => r := CollectNodes(body, out);
      case ListBlock(_, items) =>
        r := out;
        for i := 0 to |items|
          invariant r == out + ItemsUris(items[..i])
        {
          assert items[..i + 1][..i] == items[..i];
          r := CollectNodes(items[i].blocks, r);
        }
        assert items[..|items|] == items;
      case CodeBlock(_, _) => r := out;
      case Rule => r := out;
    }
  }

  method CollectNodes(nodes: seq<MarkdownNode>, out: seq<string>) returns (r: seq<string>)
    ensures r == out + NodesUris(nodes)
    decreases nodes, 0
  {
    r := out;
    for i := 0 to |nodes|
      invariant r == out + NodesUris(nodes[..i])
    {
      assert nodes[..i + 1][..i] == nodes[..i];
      r := CollectNodeUris(nodes[i], r);
    }
    assert nodes[..|nodes|] == nodes;
  }

  method CollectInlineUris(inline: MarkdownInline, out: seq<string>) returns (r: seq<string>)
    ensures r == out + InlineUris(inline)
    decreases inline, 2
  {
    match inline {
      case Inline(segment) => r := CollectUris(segment, out);
      case Emphasis(children) => r := CollectInlines(children, out);
      case Strong(children) => r := CollectInlines(children, out);
      case Link(caption, _) => r := CollectInlines(caption, out);
      case _ => r := out;
    }
  }

  method CollectInlines(inlines: seq<MarkdownInline>, out: seq<string>) returns (r: seq<string>)
    ensures r == out + InlinesUris(inlines)
    decreases inlines, 0
  {
    r := out;
    for i := 0 to |inlines|
      invariant r == out + InlinesUris(inlines[..i])
    {
      assert inlines[..i + 1][..i] == inlines[..i];
      r := CollectInlineUris(inlines[i], r);
    }
    assert inlines[..|inlines|] == inlines;
  }

  method CollectTree(tree: Tree) returns (r: seq<string>)
    ensures r == TreeUris(tree)
  {
    r := [];
    for i := 0 to |tree|
      invariant r == TreeUris(tree[..i])
    {
      assert tree[..i + 1][..i] == tree[..i];
      r := CollectUris(tree[i], r);
    }
    assert tree[..|tree|] == tree;
  }

  // Independent reading: the segment, or something nested in it outside code and
  // images, is a mention of or reference to the URI.
  ghost predicate SegmentMentions(seg: Segment, uri: string)
    decreases seg, 1
  {
    || ((seg.Mention? || seg.EventRef?) && seg.target.uri == uri)
    || (seg.MarkdownBlock? && NodeMentions(seg.node, uri))
  }

  ghost predicate NodeMentions(node: MarkdownNode, uri: string)
    decreases node, 1
  {
    match node
    case Heading(_, inlines) => exists i :: 0 <= i < |inlines| && InlineMentions(inlines[i], uri)
    case Paragraph(inlines) => exists i :: 0 <= i < |inlines| && InlineMentions(inlines[i], uri)
    case BlockQuote(body) => exists i :: 0 <= i < |body| && NodeMentions(body[i], uri)
    case ListBlock(_, items) => exists i :: 0 <= i < |items| && ItemMentions(items[i], uri)
    case _ => false
  }

  ghost predicate ItemMentions(item: ListItem, uri: string)
    decreases item, 1
  {
    exists j :: 0 <= j < |item.blocks| && NodeMentions(item.blocks[j], uri)
  }

  ghost predicate InlineMentions(inline: MarkdownInline, uri: string)
    decreases inline, 1
  {
    match inline
    case Inline(segment) => SegmentMentions(segment, uri)
    case Emphasis(children) => exists i :: 0 <= i < |children| && InlineMentions(children[i], uri)
    case Strong(children) => exists i :: 0 <= i < |children| && InlineMentions(children[i], uri)
    case Link(caption, _) => exists i :: 0 <= i < |caption| && InlineMentions(caption[i], uri)
    case _ => false
  }

  lemma {:induction false} SegmentUrisAreMentions(seg: Segment, uri: string)
    ensures uri in SegmentUris(seg) <==> SegmentMentions(seg, uri)
    decreases seg, 2
  {
    if seg.MarkdownBlock? {
      NodeUrisAreMentions(seg.node, uri);
    }
  }

  lemma {:induction false} NodeUrisAreMentions(node: MarkdownNode, uri: string)
    ensures uri in NodeUris(node) <==> NodeMentions(node, uri)
    decreases node, 2
  {
    match node
    case Heading(_, inlines) => InlinesUrisAreMentions(inlines, uri);
    case Paragraph(inlines) => InlinesUrisAreMentions(inlines, uri);
    case BlockQuote(body) => NodesUrisAreMentions(body, uri);
    case ListBlock(_, items) => ItemsUrisAreMentions(items, uri);
    case _ =>
  }

  lemma {:induction false} NodesUrisAreMentions(nodes: seq<MarkdownNode>, uri: string)
    ensures uri in NodesUris(nodes) <==> exists i :: 0 <= i < |nodes| && NodeMentions(nodes[i], uri)
    decreases nodes, 0
  {
    if nodes != [] {
      var init, last := nodes[..|nodes| - 1], nodes[|nodes| - 1];
      NodesUrisAreMentions(init, uri);
      NodeUrisAreMentions(last, uri);
      assert nodes == init + [last];
      if i :| 0 <= i < |init| && NodeMentions(init[i], uri) {
        assert NodeMentions(nodes[i], uri);
      }
    }
  }

  lemma {:induction false} ItemsUrisAreMentions(items: seq<ListItem>, uri: string)
    ensures uri in ItemsUris(items) <==> exists i :: 0 <= i < |items| && ItemMentions(items[i], uri)
    decreases items, 0
  {
    if items != [] {
      var init, last := items[..|items| - 1], items[|items| - 1];
      ItemsUrisAreMentions(init, uri);
      ItemUrisAreMentions(last, uri);
      assert items == init + [last];
      if i :| 0 <= i < |init| && ItemMentions(init[i], uri) {
        assert ItemMentions(items[i], uri);
      }
    }
  }

  lemma {:induction false} ItemUrisAreMentions(item: ListItem, uri: string)
    ensures uri in ItemUris(item) <==> ItemMentions(item, uri)
    decreases item, 1
  {
    NodesUrisAreMentions(item.blocks, uri);
  }

  lemma {:induction false} InlinesUrisAreMentions(inlines: seq<MarkdownInline>, uri: string)
    ensures uri in InlinesUris(inlines) <==> exists i :: 0 <= i < |inlines| && InlineMentions(inlines[i], uri)
    decreases inlines, 0
  {
    if inlines != [] {
      var init, last := inlines[..|inlines| - 1], inlines[|inlines| - 1];
      InlinesUrisAreMentions(init, uri);
      InlineUrisAreMentions(last, uri);
      assert inlines == init + [last];
      if i :| 0 <= i < |init| && InlineMentions(init[i], uri) {
        assert InlineMentions(inlines[i], uri);
      }
    }
  }

  lemma {:induction false} InlineUrisAreMentions(inline: MarkdownInline, uri: string)
    ensures uri in InlineUris(inline) <==> InlineMentions(inline, uri)
    decreases inline, 2
  {
    match inline
    case Inline(segment) => SegmentUrisAreMentions(segment, uri);
    case Emphasis(children) => InlinesUrisAreMentions(children, uri);
    case Strong(children) => InlinesUrisAreMentions(children, uri);
    case Link(caption, _) => InlinesUrisAreMentions(caption, uri);
    case _ =>
  }

  // The collected URIs of a tree are exactly those mentioned somewhere in it.
  lemma {:induction false} TreeUrisAreMentions(tree: Tree, uri: string)
    ensures uri in TreeUris(tree) <==> exists i :: 0 <= i < |tree| && SegmentMentions(tree[i], uri)
  {
    if tree != [] {
      var init, last := tree[..|tree| - 1], tree[|tree| - 1];
      TreeUrisAreMentions(init, uri);
      SegmentUrisAreMentions(last, uri);
      assert tree == init + [last];
      if i :| 0 <= i < |init| && SegmentMentions(init[i], uri) {
        assert SegmentMentions(tree[i], uri);
      }
    }
  }

  /******* Resolution of one URI *******/

  datatype NostrEvent = NostrEvent(id: string, pubkey: string, kind: nat, tags: seq<seq<string>>, content: string)

  datatype Target =
    | ProfileTarget(name: Option<string>, picture: Option<string>)
    | EventTarget(event: NostrEvent)

  datatype EmbedEntry = EmbedEntry(
    cycleKey: string,
    resolvedKind: nat,
    profileName: Option<string>,
    profilePicture: Option<string>,
    event: Option<NostrEvent>,
    rendered: Option<Tree>,
    collapsed: bool,
    collapseReason: Option<string>)

  // The registered targets, how an event body renders, and how an event is keyed.
  datatype Store = Store(
    targets: map<string, Target>,
    render: NostrEvent -> Tree,
    cycleKey: NostrEvent -> string)

  const EMBED_KINDS: set<nat> := {1, 9802, 30023, 30000, 30003, 10002}

  function EventEntry(store: Store, ev: NostrEvent): EmbedEntry
  {
    if ev.kind !in EMBED_KINDS
    then EmbedEntry(store.cycleKey(ev), ev.kind, None, None, Some(ev), None, true, Some("unsupported"))
    else EmbedEntry(store.cycleKey(ev), ev.kind, None, None, Some(ev), Some(store.render(ev)), false, None)
  }

  function ResolveOne(store: Store, uri: string): (entry: EmbedEntry)
    ensures entry.rendered.Some? ==> uri in store.targets
  {
    if uri !in store.targets then EmbedEntry(uri, 0, None, None, None, None, true, Some("dangling"))
    else match store.targets[uri]
      case ProfileTarget(name, picture) => EmbedEntry(uri, 0, name, picture, None, None, false, None)
      case EventTarget(ev) => EventEntry(store, ev)
  }

  // An entry, field by field: dangling when unregistered, the profile's facts for a
  // profile, the rendered body for an event of one of the six embed kinds, and a
  // collapsed card for any other event.
  lemma EntryOnFields(store: Store, uri: string)
    ensures var entry := ResolveOne(store, uri);
            && (uri !in store.targets ==>
                  && entry.cycleKey == uri && entry.resolvedKind == 0 && entry.event.None? && entry.rendered.None?
                  && entry.collapsed && entry.collapseReason == Some("dangling"))
            && (uri in store.targets && store.targets[uri].ProfileTarget? ==>
                  && entry.cycleKey == uri && entry.resolvedKind == 0 && entry.event.None? && entry.rendered.None?
                  && entry.profileName == store.targets[uri].name && entry.profilePicture == store.targets[uri].picture
                  && !entry.collapsed && entry.collapseReason.None?)
            && (uri in store.targets && store.targets[uri].EventTarget? ==>
                  var ev := store.targets[uri].event;
                  && entry.cycleKey == store.cycleKey(ev) && entry.resolvedKind == ev.kind && entry.event == Some(ev)
                  && if EmbedKind(ev.kind) then entry.rendered == Some(store.render(ev)) && !entry.collapsed && entry.collapseReason.None?
                     else entry.rendered.None? && entry.collapsed && entry.collapseReason == Some("unsupported"))
            && (uri !in store.targets || store.targets[uri].EventTarget? ==> entry.profileName.None? && entry.profilePicture.None?)
  {
  }

  ghost predicate EmbedKind(kind: nat)
  {
    kind == 1 || kind == 9802 || kind == 30023 || kind == 30000 || kind == 30003 || kind == 10002
  }

  /******* Reachability through rendered bodies *******/

  ghost predicate Mentioned(tree: Tree, uri: string)
  {
    exists i :: 0 <= i < |tree| && SegmentMentions(tree[i], uri)
  }

  // u is a registered event of an embed kind whose body mentions v.
  ghost predicate Refers(store: Store, u: string, v: string)
  {
    && u in store.targets && store.targets[u].EventTarget? && EmbedKind(store.targets[u].event.kind)
    && Mentioned(store.render(store.targets[u].event), v)
  }

  function Children(store: Store, uri: string): seq<string>
  {
    var rendered := ResolveOne(store, uri).rendered;
    if rendered.Some? then TreeUris(rendered.value) else []
  }

  lemma ChildrenAreReferred(store: Store, u: string, v: string)
    ensures v in Children(store, u) <==> Refers(store, u, v)
  {
    EntryOnFields(store, u);
    var rendered := ResolveOne(store, u).rendered;
    if rendered.Some? {
      TreeUrisAreMentions(rendered.value, v);
    }
  }

  // A chain of references from the tree.
  ghost predicate Chain(store: Store, root: Tree, path: seq<string>)
  {
    && path != [] && Mentioned(root, path[0])
    && forall i :: 0 <= i < |path| - 1 ==> Refers(store, path[i], path[i + 1])
  }

  ghost predicate Reachable(store: Store, root: Tree, uri: string)
  {
    exists path :: Chain(store, root, path) && path[|path| - 1] == uri
  }

  lemma ReachableFromRoot(store: Store, root: Tree, uri: string)
    requires uri in TreeUris(root)
    ensures Reachable(store, root, uri)
  {
    TreeUrisAreMentions(root, uri);
    assert Chain(store, root, [uri]);
  }

  lemma ReachableChild(store: Store, root: Tree, uri: string, child: string)
    requires Reachable(store, root, uri) && child in Children(store, uri)
    ensures Reachable(store, root, child)
  {
    var path :| Chain(store, root, path) && path[|path| - 1] == uri;
    ChildrenAreReferred(store, uri, child);
    ChainGrows(store, root, path, child);
  }

  lemma ChainGrows(store: Store, root: Tree, path: seq<string>, child: string)
    requires Chain(store, root, path) && Refers(store, path[|path| - 1], child)
    ensures Chain(store, root, path + [child])
  {
  }

  ghost predicate ClosedUnderChildren(store: Store, uris: set<string>)
  {
    forall u, v :: u in uris && v in Children(store, u) ==> v in uris
  }

  lemma {:induction false} ClosedHoldsReachable(store: Store, root: Tree, uris: set<string>, path: seq<string>)
    requires ClosedUnderChildren(store, uris) && Chain(store, root, path)
    requires forall u :: u in TreeUris(root) ==> u in uris
    ensures path[|path| - 1] in uris
  {
    var last := path[|path| - 1];
    if |path| > 1 {
      ClosedHoldsReachable(store, root, uris, path[..|path| - 1]);
      ChildrenAreReferred(store, path[|path| - 2], last);
    } else {
      TreeUrisAreMentions(root, last);
    }
  }

  /******* The walk *******/

  class EmbedWalk {
    const store: Store
    var out: map<string, EmbedEntry>

    constructor (store: Store)
      ensures this.store == store && out == map[]
    {
      this.store := store;
      out := map[];
    }

    // Everything resolved so far is reachable from the root and resolved right.
    ghost predicate Valid(root: Tree)
      reads this
    {
      forall u :: u in out ==> Reachable(store, root, u) && out[u] == ResolveOne(store, u)
    }

    // Every URI resolved since `before` has all its own references resolved.
    ghost predicate ClosedSince(before: set<string>)
      reads this
    {
      forall u, v :: u in out && u !in before && v in Children(store, u) ==> v in out
    }

    // The body of the loop for a URI not resolved yet.
    method Visit(uri: string, ghost root: Tree)
      requires Valid(root) && uri !in out && Reachable(store, root, uri)
      modifies this
      decreases store.targets.Keys - out.Keys, 0
      ensures Valid(root) && old(out.Keys) <= out.Keys && uri in out
      ensures ClosedSince(old(out.Keys))
    {
      ghost var before := out.Keys;
      var entry := ResolveOne(store, uri);
      out := out[uri := entry];
      if entry.rendered.Some? {
        forall u | u in TreeUris(entry.rendered.value)
          ensures Reachable(store, root, u)
        {
          ReachableChild(store, root, uri, u);
        }
        assert uri in store.targets.Keys - before;
        Walk(entry.rendered.value, root);
      }
    }

    method Walk(tree: Tree, ghost root: Tree)
      requires Valid(root) && forall u :: u in TreeUris(tree) ==> Reachable(store, root, u)
      modifies this
      decreases store.targets.Keys - out.Keys, 1
      ensures Valid(root) && old(out.Keys) <= out.Keys
      ensures forall u :: u in TreeUris(tree) ==> u in out
      ensures ClosedSince(old(out.Keys))
    {
      ghost var before := out.Keys;
      var uris := CollectTree(tree);
      for i := 0 to |uris|
        invariant Valid(root) && before <= out.Keys && ClosedSince(before)
        invariant forall j :: 0 <= j < i ==> uris[j] in out
      {
        if uris[i] in out {
          continue;
        }
        Visit(uris[i], root);
      }
    }
  }

  // Terminates on every store, cyclic ones included, and resolves exactly the
  // URIs reachable from the root.
  method ResolveAll(store: Store, root: Tree) returns (out: map<string, EmbedEntry>)
    ensures forall u :: u in out <==> Reachable(store, root, u)
    ensures forall u :: u in out ==> out[u] == ResolveOne(store, u)
  {
    var walk := new EmbedWalk(store);
    forall u | u in TreeUris(root)
      ensures Reachable(store, root, u)
    {
      ReachableFromRoot(store, root, u);
    }
    walk.Walk(root, root);
    out := walk.out;
    ghost var uris := out.Keys;
    assert ClosedUnderChildren(store, uris);
    forall u | Reachable(store, root, u)
      ensures u in out
    {
      var path :| Chain(store, root, path) && path[|path| - 1] == u;
      ClosedHoldsReachable(store, root, uris, path);
    }
  }
}
