/**
 * The data contract shared by generation, storage and rendering: the slide schema,
 * the theme and layout enumerations, and the presentation records.
 */
module Types {
  import opened Wrappers

  /**
   * The three kinds of slide, and any other `type` string: the generated slides are cast to the
   * schema without a check, so a slide may carry a kind outside the three.
   */
  datatype SlideType = TitleSlide | ContentSlide | ClosingSlide | UnknownKind(name: string)

  /** The seven visual layouts of a content slide. */
  datatype SlideLayout = DefaultLayout | StatCallout | QuoteLayout | ImageFull | ComparisonLayout | TimelineLayout | StatementLayout

  /** The three themes. */
  datatype Theme = Executive | Minimal | Tech

  /** Payload of a `stat_callout` slide: value and label (`caption`) are required, context is optional. */
  datatype Stat = Stat(value: string, caption: string, context: Option<string>)

  /** Payload of a `quote` slide: text and author are required, role is optional. */
  datatype Quote = Quote(text: string, author: string, role: Option<string>)

  /** Payload of a `statement` slide: text is required, emphasis is optional. */
  datatype Statement = Statement(text: string, emphasis: Option<string>)

  /** One column of a `comparison` slide. */
  datatype ComparisonSide = ComparisonSide(caption: string, items: seq<string>)

  /** Payload of a `comparison` slide. */
  datatype Comparison = Comparison(left: ComparisonSide, right: ComparisonSide)

  /** One step of a `timeline` slide: label (`caption`) and description are required, duration is optional. */
  datatype TimelineStep = TimelineStep(caption: string, description: string, duration: Option<string>)

  /** Payload of a `timeline` slide. */
  datatype Timeline = Timeline(steps: seq<TimelineStep>)

  /** A slide always has a kind and a title; every other field is optional. */
  datatype Slide = Slide(
    kind: SlideType,
    layout: Option<SlideLayout>,
    title: string,
    subtitle: Option<string>,
    points: Option<seq<string>>,
    imageUrl: Option<string>,
    imagePrompt: Option<string>,
    stat: Option<Stat>,
    quote: Option<Quote>,
    statement: Option<Statement>,
    comparison: Option<Comparison>,
    timeline: Option<Timeline>)

  /** A stored presentation; only the client name may be null. */
  datatype Presentation = Presentation(
    id: string,
    title: string,
    clientName: Option<string>,
    sourceUrl: string,
    theme: Theme,
    slides: seq<Slide>,
    shareToken: string,
    createdBy: string,
    createdAt: string,
    updatedAt: string)

  /** The body of a generation request: the client name is optional, the rest required. */
  datatype CreatePresentationRequest = CreatePresentationRequest(
    sourceUrl: string,
    title: string,
    clientName: Option<string>,
    theme: Theme)

  /** The body of an edit request: every field is optional. */
  datatype UpdatePresentationRequest = UpdatePresentationRequest(
    title: Option<string>,
    clientName: Option<string>,
    theme: Option<Theme>,
    slides: Option<seq<Slide>>)

  // The string values of the enumerations, as they appear in JSON.

  function ThemeName(t: Theme): string {
    match t
    case Executive => "executive"
    case Minimal => "minimal"
    case Tech => "tech"
  }

  /** The theme a string names, if it names one of the three. */
  function ParseTheme(s: string): (r: Option<Theme>)
    ensures r.Some? <==> s == "executive" || s == "minimal" || s == "tech"
    ensures r.Some? ==> ThemeName(r.value) == s
  {
    if s == "executive" then Some(Executive)
    else if s == "minimal" then Some(Minimal)
    else if s == "tech" then Some(Tech)
    else None
  }

  function SlideTypeName(t: SlideType): string {
    match t
    case TitleSlide => "title"
    case ContentSlide => "content"
    case ClosingSlide => "closing"
    case UnknownKind(name) => name
  }

  /** The slide kind a string names, if it names one of the three. */
  function ParseSlideType(s: string): (r: Option<SlideType>)
    ensures r.Some? <==> s == "title" || s == "content" || s == "closing"
    ensures r.Some? ==> SlideTypeName(r.value) == s
  {
    if s == "title" then Some(TitleSlide)
    else if s == "content" then Some(ContentSlide)
    else if s == "closing" then Some(ClosingSlide)
    else None
  }

  /** The kind a slide whose `type` is `s` has once cast to the schema: one of the three, or an unknown one. */
  function KindOf(s: string): (k: SlideType)
    ensures SlideTypeName(k) == s
    ensures k.UnknownKind? <==> ParseSlideType(s).None?
  {
    match ParseSlideType(s)
    case Some(k) => k
    case None => UnknownKind(s)
  }

  function LayoutName(l: SlideLayout): string {
    match l
    case DefaultLayout => "default"
    case StatCallout => "stat_callout"
    case QuoteLayout => "quote"
    case ImageFull => "image_full"
    case ComparisonLayout => "comparison"
    case TimelineLayout => "timeline"
    case StatementLayout => "statement"
  }

  /** The layout a string names, if it names one of the seven. */
  function ParseLayout(s: string): (r: Option<SlideLayout>)
    ensures r.Some? ==> LayoutName(r.value) == s
  {
    if s == "default" then Some(DefaultLayout)
    else if s == "stat_callout" then Some(StatCallout)
    else if s == "quote" then Some(QuoteLayout)
    else if s == "image_full" then Some(ImageFull)
    else if s == "comparison" then Some(ComparisonLayout)
    else if s == "timeline" then Some(TimelineLayout)
    else if s == "statement" then Some(StatementLayout)
    else None
  }

  /** Each enumeration value has its own name, and parsing the name gives the value back. */
  lemma NamesRoundTrip(t: Theme, k: SlideType, l: SlideLayout)
    ensures ParseTheme(ThemeName(t)) == Some(t)
    ensures !k.UnknownKind? ==> ParseSlideType(SlideTypeName(k)) == Some(k) && KindOf(SlideTypeName(k)) == k
    ensures ParseLayout(LayoutName(l)) == Some(l)
  {
  }
}
