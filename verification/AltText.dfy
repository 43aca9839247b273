// What the inline tokenizer leaves of a text that ends up in a picture's alt
// text: the link between Tokenizer.dfy and MarkdownMeaning.dfy.
module AltText {
  import opened Common
  import opened Content
  import opened Markdown
  import opened MarkdownLaws
  import opened MarkdownMeaning
  import opened Tokenizer

  // Lower-casing makes no text heavier.
  ghost predicate LowerNoHeavier(extra: char -> nat, p: Parsers)
  {
    forall s :: Weight(extra, p.lower(s)) <= Weight(extra, s)
  }

  // Text, shortcodes and tags in lower case are flattened to what they were;
  // mentions, references, URLs and invoices to nothing.
  predicate Keeps(p: Parsers, piece: Piece)
  {
    || piece.src == ""
    || piece.segment.Text? || piece.segment.Emoji?
    || (piece.segment.Hashtag? && p.lower(piece.src[1..]) == piece.src[1..])
  }

  lemma TagShows(extra: char -> nat, src: string, tag: string)
    requires src != "" && src[0] == '#' && Weight(extra, tag) <= Weight(extra, src[1..])
    ensures Weight(extra, "#" + tag) <= Weight(extra, src) && ("#" + tag == src <==> tag == src[1..])
  {
    assert src == "#" + src[1..];
    NoHeavierParts(extra, "#", tag, "#", src[1..]);
  }

  lemma PieceShows(extra: char -> nat, p: Parsers, emoji: map<string, Url>, piece: Piece)
    requires Reads(p, emoji, piece) && LowerNoHeavier(extra, p)
    ensures Weight(extra, PlainText(Inline(piece.segment))) <= Weight(extra, piece.src)
    ensures PlainText(Inline(piece.segment)) == piece.src <==> Keeps(p, piece)
  {
    if piece.segment.Hashtag? {
      TagShows(extra, piece.src, piece.segment.tag);
    } else if piece.segment.Emoji? {
      assert ":" + piece.segment.shortcode + ":" == [':'] + piece.segment.shortcode + [':'];
    }
  }

  lemma ShownSegments(pieces: seq<Piece>)
    requires pieces != []
    ensures var init, last := pieces[..|pieces| - 1], pieces[|pieces| - 1];
            PlainTexts(InlineAll(Segments(pieces)))
            == PlainTexts(InlineAll(Segments(init))) + PlainText(Inline(last.segment))
  {
    var before, last := Segments(pieces[..|pieces| - 1]), pieces[|pieces| - 1].segment;
    assert (before + [last])[..|before|] == before;
    assert InlineAll(before + [last]) == InlineAll(before) + [Inline(last)];
    assert (InlineAll(before) + [Inline(last)])[..|InlineAll(before)|] == InlineAll(before);
  }

  ghost predicate KeepsAll(p: Parsers, pieces: seq<Piece>)
  {
    forall i :: 0 <= i < |pieces| ==> Keeps(p, pieces[i])
  }

  lemma KeepsOneMore(p: Parsers, emoji: map<string, Url>, pieces: seq<Piece>)
    requires pieces != [] && AllRead(p, emoji, pieces)
    ensures var init, last := pieces[..|pieces| - 1], pieces[|pieces| - 1];
            && AllRead(p, emoji, init) && Reads(p, emoji, last)
            && (KeepsAll(p, pieces) <==> KeepsAll(p, init) && Keeps(p, last))
  {
  }

  // However a text was cut into pieces, flattening them gives the text back
  // exactly when it keeps every piece, and never gives more weight.
  lemma {:induction false} PiecesShow(extra: char -> nat, p: Parsers, emoji: map<string, Url>, pieces: seq<Piece>)
    requires AllRead(p, emoji, pieces) && LowerNoHeavier(extra, p)
    ensures Weight(extra, PlainTexts(InlineAll(Segments(pieces)))) <= Weight(extra, Source(pieces))
    ensures PlainTexts(InlineAll(Segments(pieces))) == Source(pieces) <==> KeepsAll(p, pieces)
  {
    if pieces != [] {
      var init, last := pieces[..|pieces| - 1], pieces[|pieces| - 1];
      KeepsOneMore(p, emoji, pieces);
      PiecesShow(extra, p, emoji, init);
      PieceShows(extra, p, emoji, last);
      ShownSegments(pieces);
      NoHeavierParts(extra, PlainTexts(InlineAll(Segments(init))), PlainText(Inline(last.segment)), Source(init), last.src);
    }
  }

  // A text the inline tokenizer covers is not made heavier by it, as long as
  // lower-casing makes none heavier: what FaithfulIffTidy asks of the texts inside
  // pictures to be exact.
  lemma CoveredTextIsNoHeavier(extra: char -> nat, env: Env, p: Parsers, emoji: map<string, Url>, t: string)
    requires LowerNoHeavier(extra, p) && Covers(p, emoji, t, env.tokenize(t))
    ensures Weight(extra, Shown(env, t)) <= Weight(extra, t)
  {
    var pieces :| Segments(pieces) == env.tokenize(t) && Source(pieces) == t
                  && AllRead(p, emoji, pieces) && Coalesced(pieces);
    PiecesShow(extra, p, emoji, pieces);
  }

  /******* Unicode lower-casing *******/

  const DOTTED_CAPITAL_I: char := '\U{0130}'

  // The one character whose lower-case form is longer, by one.
  function Dotted(c: char): nat
  {
    if c == DOTTED_CAPITAL_I then 1 else 0
  }

  // A lower-case form of one character: one character, or two for the dotted
  // capital I, and never that one again.
  predicate LowerForm(c: char, form: string)
  {
    |form| <= 1 + Dotted(c) && DOTTED_CAPITAL_I !in form
  }

  // Lower-casing goes character by character, though a form may depend on its
  // neighbours.
  ghost predicate LowersByCharacter(p: Parsers)
  {
    forall s :: exists forms :: IsLowering(s, forms, p.lower(s))
  }

  ghost predicate IsLowering(s: string, forms: seq<string>, lowered: string)
  {
    |forms| == |s| && Flatten(forms) == lowered && forall i :: 0 <= i < |s| ==> LowerForm(s[i], forms[i])
  }

  lemma {:induction false} PlainWeight(s: string)
    requires DOTTED_CAPITAL_I !in s
    ensures Weight(Dotted, s) == |s|
  {
    if s != "" {
      PlainWeight(s[..|s| - 1]);
      assert s[|s| - 1] in s;
    }
  }

  lemma {:induction false} FormsAreNoHeavier(s: string, forms: seq<string>)
    requires |forms| == |s| && forall i :: 0 <= i < |s| ==> LowerForm(s[i], forms[i])
    ensures Weight(Dotted, Flatten(forms)) <= Weight(Dotted, s)
  {
    if s != "" {
      var n := |s| - 1;
      FormsAreNoHeavier(s[..n], forms[..n]);
      assert LowerForm(s[n], forms[n]);
      PlainWeight(forms[n]);
      WeightAppend(Dotted, Flatten(forms[..n]), forms[n]);
    }
  }

  // Lower-casing may lengthen a text, but not make it heavier when the dotted
  // capital I counts for two.
  lemma UnicodeLowerIsNoHeavier(p: Parsers)
    requires LowersByCharacter(p)
    ensures LowerNoHeavier(Dotted, p)
  {
    forall s
      ensures Weight(Dotted, p.lower(s)) <= Weight(Dotted, s)
    {
      var forms :| IsLowering(s, forms, p.lower(s));
      FormsAreNoHeavier(s, forms);
    }
  }

  // So for the tokenizer as shipped: a document whose pictures' wrapped texts are
  // covered is rendered as what it means exactly when it is tidy and they survive.
  lemma ShippedWalkerIsFaithfulIff(env: Env, p: Parsers, emoji: map<string, Url>, doc: seq<Block>)
    requires LowersByCharacter(p)
    requires forall d, t :: d in BlocksPictures(doc) && t in AllWrappedTexts(d, false) ==> Covers(p, emoji, t, env.tokenize(t))
    ensures Faithful(env, doc) <==> Tidy(env, doc) && PicturesSurvive(env, doc)
  {
    UnicodeLowerIsNoHeavier(p);
    forall d, t | d in BlocksPictures(doc) && t in AllWrappedTexts(d, false)
      ensures Weight(Dotted, Shown(env, t)) <= Weight(Dotted, t)
    {
      CoveredTextIsNoHeavier(Dotted, env, p, emoji, t);
    }
    FaithfulIffTidy(Dotted, env, doc);
  }
}
