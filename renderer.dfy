/**
 * Slide view selection (`SlideRenderer` in components/SlideRenderer.tsx): a total case analysis
 * from a slide to the view it is drawn with. Title and closing slides get the title view; a
 * content slide gets the view of its layout when that layout's payload is present, and the bullet
 * view otherwise; a slide of any other kind is drawn as nothing. Each view holds exactly what the
 * markup displays; class names and styling are not modelled.
 */
module SlideRendering {
  import opened Wrappers
  import opened Js
  import opened Text
  import opened Types

  /** One drawn step of a timeline: its number, texts, optional duration and whether a connector follows. */
  datatype TimelineEntry = TimelineEntry(
    number: nat, caption: string, description: string, duration: Option<string>, connector: bool)

  /** The text of a statement view: the emphasis, a space and the rest; or the text verbatim. */
  datatype StatementBody = Emphasised(emphasis: string, rest: string) | Verbatim(text: string)

  /**
   * What a slide is drawn as. `subtitle`, `image`, `context`, `role` and `duration` hold a value
   * exactly when the markup shows that element.
   */
  datatype View =
    | TitleView(title: string, subtitle: Option<string>, image: Option<string>)
    | StatView(title: string, value: string, caption: string, context: Option<string>, background: Option<string>)
    | QuoteView(title: string, text: string, author: string, role: Option<string>, background: Option<string>)
    | StatementView(background: Option<string>, body: StatementBody)
    | ComparisonView(title: string, leftCaption: string, leftItems: seq<string>, rightCaption: string, rightItems: seq<string>)
    | TimelineView(title: string, entries: seq<TimelineEntry>)
    | ImageFullView(title: string, subtitle: Option<string>, fullImage: string)
    | BulletsView(title: string, points: seq<string>)
    | NoView

  /** `slide.layout || 'default'`. */
  function EffectiveLayout(slide: Slide): (l: SlideLayout)
    ensures slide.layout.None? ==> l == DefaultLayout
    ensures slide.layout.Some? ==> l == slide.layout.value
  {
    slide.layout.GetOr(DefaultLayout)
  }

  /** The text a statement shows: with a truthy emphasis, the emphasis and then the text with its first occurrence cut out and trimmed. */
  function StatementText(s: Statement): (b: StatementBody)
    ensures b.Emphasised? <==> Truthy(s.emphasis)
    ensures b.Emphasised? ==> b.emphasis == s.emphasis.value && IsTrimmed(b.rest)
    ensures b.Verbatim? ==> b.text == s.text
  {
    if Truthy(s.emphasis) then Emphasised(s.emphasis.value, Trim(RemoveFirst(s.text, s.emphasis.value)))
    else Verbatim(s.text)
  }

  /** The drawn steps of a timeline: step `k` is numbered `k + 1`, and every step but the last is followed by a connector. */
  function TimelineEntries(steps: seq<TimelineStep>): (r: seq<TimelineEntry>)
    ensures |r| == |steps|
    ensures forall k :: 0 <= k < |r| ==>
      r[k].caption == steps[k].caption && r[k].description == steps[k].description
      && r[k].duration == IfTruthy(steps[k].duration)
  {
    seq(|steps|, k requires 0 <= k < |steps| =>
      TimelineEntry(k + 1, steps[k].caption, steps[k].description, IfTruthy(steps[k].duration), k < |steps| - 1))
  }

  /** The number of connectors among drawn steps. */
  function Connectors(entries: seq<TimelineEntry>): nat {
    if entries == [] then 0
    else (if entries[0].connector then 1 else 0) + Connectors(entries[1..])
  }

  /** Numbering runs 1..n, and `n` steps are joined by `n - 1` connectors (none for no steps). */
  lemma TimelineNumbering(steps: seq<TimelineStep>)
    ensures var r := TimelineEntries(steps);
      (forall k :: 0 <= k < |r| ==> r[k].number == k + 1 && (r[k].connector <==> k < |r| - 1))
      && Connectors(r) == if steps == [] then 0 else |steps| - 1
  {
    ConnectorsOfTail(TimelineEntries(steps), 0);
  }

  lemma {:induction false} ConnectorsOfTail(r: seq<TimelineEntry>, i: nat)
    requires i <= |r|
    requires forall k :: 0 <= k < |r| ==> (r[k].connector <==> k < |r| - 1)
    ensures Connectors(r[i..]) == if i == |r| then 0 else |r| - 1 - i
    decreases |r| - i
  {
    if i < |r| {
      ConnectorsOfTail(r, i + 1);
      assert r[i..][1..] == r[i + 1..];
    }
  }

  /** `SlideRenderer`: the view a slide is drawn with; `NoView` is the `null` it returns for an unknown kind. */
  function Render(slide: Slide): (v: View)
    ensures slide.kind.TitleSlide? || slide.kind.ClosingSlide? ==>
      v == TitleView(slide.title, IfTruthy(slide.subtitle), IfTruthy(slide.imageUrl))
    ensures v.NoView? <==> slide.kind.UnknownKind?
  {
    if slide.kind.TitleSlide? || slide.kind.ClosingSlide? then
      TitleView(slide.title, IfTruthy(slide.subtitle), IfTruthy(slide.imageUrl))
    else if slide.kind.UnknownKind? then
      NoView
    else
      var layout := EffectiveLayout(slide);
      if layout == StatCallout && slide.stat.Some? then
        var st := slide.stat.value;
        StatView(slide.title, st.value, st.caption, IfTruthy(st.context), IfTruthy(slide.imageUrl))
      else if layout == QuoteLayout && slide.quote.Some? then
        var q := slide.quote.value;
        QuoteView(slide.title, q.text, q.author, IfTruthy(q.role), IfTruthy(slide.imageUrl))
      else if layout == StatementLayout && slide.statement.Some? then
        StatementView(IfTruthy(slide.imageUrl), StatementText(slide.statement.value))
      else if layout == ComparisonLayout && slide.comparison.Some? then
        var c := slide.comparison.value;
        ComparisonView(slide.title, c.left.caption, c.left.items, c.right.caption, c.right.items)
      else if layout == TimelineLayout && slide.timeline.Some? then
        TimelineView(slide.title, TimelineEntries(slide.timeline.value.steps))
      else if layout == ImageFull && Truthy(slide.imageUrl) then
        ImageFullView(slide.title, IfTruthy(slide.subtitle), slide.imageUrl.value)
      else
        BulletsView(slide.title, slide.points.GetOr([]))
  }

  /** The layout-and-payload condition under which a content slide gets a structured view. */
  predicate Structured(slide: Slide) {
    var layout := EffectiveLayout(slide);
    (layout == StatCallout && slide.stat.Some?)
    || (layout == QuoteLayout && slide.quote.Some?)
    || (layout == StatementLayout && slide.statement.Some?)
    || (layout == ComparisonLayout && slide.comparison.Some?)
    || (layout == TimelineLayout && slide.timeline.Some?)
    || (layout == ImageFull && Truthy(slide.imageUrl))
  }

  /**
   * A content slide gets each structured view exactly when its layout names it and the payload it
   * needs is there, and the bullet view exactly when no structured view applies.
   */
  lemma ContentViewSelection(slide: Slide)
    requires slide.kind == ContentSlide
    ensures var v := Render(slide); var layout := EffectiveLayout(slide);
      (v.StatView? <==> layout == StatCallout && slide.stat.Some?)
      && (v.QuoteView? <==> layout == QuoteLayout && slide.quote.Some?)
      && (v.StatementView? <==> layout == StatementLayout && slide.statement.Some?)
      && (v.ComparisonView? <==> layout == ComparisonLayout && slide.comparison.Some?)
      && (v.TimelineView? <==> layout == TimelineLayout && slide.timeline.Some?)
      && (v.ImageFullView? <==> layout == ImageFull && Truthy(slide.imageUrl))
      && (v.BulletsView? <==> !Structured(slide))
      && !v.TitleView? && !v.NoView?
      && (v.StatView? ==>
            v.title == slide.title && v.value == slide.stat.value.value && v.caption == slide.stat.value.caption)
      && (v.QuoteView? ==>
            v.title == slide.title && v.text == slide.quote.value.text && v.author == slide.quote.value.author)
      && (v.StatementView? ==>
            v.body == StatementText(slide.statement.value) && v.background == IfTruthy(slide.imageUrl))
      && (v.ComparisonView? ==>
            var c := slide.comparison.value;
            v.title == slide.title
            && v.leftCaption == c.left.caption && v.leftItems == c.left.items
            && v.rightCaption == c.right.caption && v.rightItems == c.right.items)
      && (v.TimelineView? ==>
            v.title == slide.title && v.entries == TimelineEntries(slide.timeline.value.steps))
      && (v.ImageFullView? ==>
            v.title == slide.title && v.subtitle == IfTruthy(slide.subtitle) && v.fullImage == slide.imageUrl.value)
  {
  }

  /** A content slide without a layout, or whose layout lacks its payload, shows its points as bullets, in order. */
  lemma FallbackShowsBullets(slide: Slide)
    requires slide.kind == ContentSlide && !Structured(slide)
    ensures Render(slide) == BulletsView(slide.title, if slide.points.Some? then slide.points.value else [])
  {
  }

  /** The image a view displays, as foreground or background. */
  function ShownImage(v: View): Option<string> {
    match v
    case TitleView(_, _, image) => image
    case StatView(_, _, _, _, background) => background
    case QuoteView(_, _, _, _, background) => background
    case StatementView(background, _) => background
    case ImageFullView(_, _, fullImage) => Some(fullImage)
    case _ => None
  }

  /**
   * A slide's image is shown only when its URL is truthy, and then it is that URL; comparison,
   * timeline and bullet views never show it.
   */
  lemma ImageShownOnlyIfSet(slide: Slide)
    ensures var v := Render(slide);
      (ShownImage(v).Some? ==> Truthy(slide.imageUrl) && ShownImage(v) == slide.imageUrl)
      && (v.ComparisonView? || v.TimelineView? || v.BulletsView? ==> ShownImage(v).None?)
      && (v.TitleView? ==> (ShownImage(v).Some? <==> Truthy(slide.imageUrl)))
  {
  }

  /** The optional parts of the stat, quote and title views appear exactly when truthy. */
  lemma OptionalPartsShownIfTruthy(slide: Slide)
    ensures var v := Render(slide);
      (v.StatView? ==> (v.context.Some? <==> Truthy(slide.stat.value.context)))
      && (v.QuoteView? ==> (v.role.Some? <==> Truthy(slide.quote.value.role)))
      && (v.TitleView? ==> (v.subtitle.Some? <==> Truthy(slide.subtitle)))
  {
  }

  /** A statement that opens with its emphasis shows the emphasis and then the trimmed remainder. */
  lemma LeadingEmphasisIsLifted(emphasis: string, rest: string)
    requires emphasis != ""
    ensures StatementText(Statement(emphasis + rest, Some(emphasis))) == Emphasised(emphasis, Trim(rest))
  {
    RemoveFirstOfPrefix(emphasis, rest);
  }

  /** Only the first occurrence of the emphasis is cut out of the text. */
  lemma EmphasisCutOnce(before: string, emphasis: string, after: string)
    requires emphasis != ""
    requires forall j :: 0 <= j < |before| ==> !StartsWith((before + emphasis + after)[j..], emphasis)
    ensures StatementText(Statement(before + emphasis + after, Some(emphasis)))
      == Emphasised(emphasis, Trim(before + after))
  {
    var s := before + emphasis + after;
    assert s[|before|..] == emphasis + after && (emphasis + after)[..|emphasis|] == emphasis;
    RemoveFirstAt(s, emphasis, |before|);
    assert s[..|before|] == before && s[|before| + |emphasis|..] == after;
  }

  /** An emphasis that does not occur leaves the text whole, only trimmed. */
  lemma AbsentEmphasisKeepsText(s: Statement)
    requires Truthy(s.emphasis) && !Occurs(s.text, s.emphasis.value)
    ensures StatementText(s) == Emphasised(s.emphasis.value, Trim(s.text))
  {
  }
}
