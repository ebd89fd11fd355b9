/**
 * Slide generation (`generateSlides` in lib/anthropic.ts): the prompt is assembled from the
 * scraped content, the title, the optional client and the theme; the text of the backend's first
 * reply block is parsed as JSON, and the parsed value is accepted only as an array of exactly five
 * elements, which is returned unchanged. The backend call and `JSON.parse` are oracles.
 */
module SlideGeneration {
  import opened Wrappers
  import opened Js
  import opened Text
  import opened Types

  // ---------------------------------------------------------------------------
  // Prompt fragments

  const GenericClientText := "Client: None - use generic professional language"

  /** The client directive: a truthy client name is named twice, otherwise a fixed generic line. */
  function ClientText(clientName: Option<string>): (r: string)
    ensures Truthy(clientName) ==>
      StartsWith(r, "Client: " + clientName.value) && Occurs(r, "Personalize ALL content to reference " + clientName.value)
    ensures !Truthy(clientName) ==> r == GenericClientText
  {
    if Truthy(clientName) then
      var name := clientName.value;
      var personalize := "Personalize ALL content to reference " + name;
      var r := "Client: " + name + "\n" + personalize + " specifically.";
      assert r == "Client: " + name + ("\n" + personalize + " specifically.");
      assert r[..|"Client: " + name|] == "Client: " + name;
      OccursInMiddle("Client: " + name + "\n", personalize, " specifically.");
      r
    else GenericClientText
  }

  /** The aesthetic each theme stands for. */
  function ThemeAesthetic(theme: Theme): string {
    match theme
    case Executive => "sophisticated, professional, corporate"
    case Minimal => "clean, simple, modern minimalist"
    case Tech => "cutting-edge technology, innovative, digital"
  }

  /** The subtitle the prompt asks for on the title slide. */
  function TitleSubtitle(clientName: Option<string>): (r: string)
    ensures Truthy(clientName) ==> r == "Prepared exclusively for " + clientName.value
    ensures !Truthy(clientName) ==> r == "Powered by The Algorithm"
  {
    if Truthy(clientName) then "Prepared exclusively for " + clientName.value else "Powered by The Algorithm"
  }

  /** The subtitle the prompt asks for on the closing slide. */
  function ClosingSubtitle(clientName: Option<string>): (r: string)
    ensures Truthy(clientName) ==> r == "Looking forward to working with " + clientName.value
    ensures !Truthy(clientName) ==> r == "Questions & Discussion"
  {
    if Truthy(clientName) then "Looking forward to working with " + clientName.value else "Questions & Discussion"
  }

  /** The `"subtitle"` line of a slide in the JSON skeleton. */
  function SubtitleLine(subtitle: string): string {
    "    \"subtitle\": \"" + subtitle + "\","
  }

  /** The second rule of the prompt: personalise for a client, or keep the language generic. */
  function ClientRule(clientName: Option<string>): (r: string)
    ensures Truthy(clientName) ==> r == "- Personalize ALL content to reference " + clientName.value
    ensures !Truthy(clientName) ==> r == "- Use professional, engaging language"
  {
    if Truthy(clientName) then "- Personalize ALL content to reference " + clientName.value
    else "- Use professional, engaging language"
  }

  /**
   * The input-dependent lines of the prompt, each as the template writes it and in the order the
   * template has them: the content, the title, the client directive, the theme with its aesthetic,
   * the subtitle and image-prompt lines of the first and last slide of the JSON skeleton, the client
   * rule and the theme rule. The fixed lines between them do not depend on the inputs and are not
   * modelled, so neighbouring lines here need not be neighbours in the real prompt.
   */
  function PromptLines(content: string, title: string, clientName: Option<string>, theme: Theme): seq<string> {
    var aesthetic := ThemeAesthetic(theme);
    [ "",
      "Content: " + content,
      "Title: " + title,
      ClientText(clientName),
      "Theme: " + ThemeName(theme) + " (" + aesthetic + ")",
      SubtitleLine(TitleSubtitle(clientName)),
      "    \"image_prompt\": \"abstract professional background image for " + title + ", " + aesthetic + " aesthetic\"",
      SubtitleLine(ClosingSubtitle(clientName)),
      "    \"image_prompt\": \"professional closing slide background, " + aesthetic + " style\"",
      ClientRule(clientName),
      "- Image prompts should match the " + ThemeName(theme) + " theme aesthetic",
      ""]
  }

  /** The prompt sent to the backend, as its input-dependent lines. */
  function Prompt(content: string, title: string, clientName: Option<string>, theme: Theme): string {
    JoinLines(PromptLines(content, title, clientName, theme))
  }

  /** The prompt carries the content, the title, the client directive and the theme with its aesthetic, each on a line of its own. */
  lemma PromptEmbedsInputs(content: string, title: string, clientName: Option<string>, theme: Theme)
    ensures var p := Prompt(content, title, clientName, theme);
      Occurs(p, "\n" + ("Content: " + content) + "\n")
      && Occurs(p, "\n" + ("Title: " + title) + "\n")
      && Occurs(p, "\n" + ClientText(clientName) + "\n")
      && Occurs(p, "\n" + ("Theme: " + ThemeName(theme) + " (" + ThemeAesthetic(theme) + ")") + "\n")
  {
    var lines := PromptLines(content, title, clientName, theme);
    assert lines[1] == "Content: " + content && lines[2] == "Title: " + title && lines[3] == ClientText(clientName);
    assert lines[4] == "Theme: " + ThemeName(theme) + " (" + ThemeAesthetic(theme) + ")";
    InnerLineOccurs(lines, 1);
    InnerLineOccurs(lines, 2);
    InnerLineOccurs(lines, 3);
    InnerLineOccurs(lines, 4);
  }

  /** With a client, the prompt asks for both personalised subtitles and the personalisation rule. */
  lemma PromptPersonalises(content: string, title: string, clientName: Option<string>, theme: Theme)
    requires Truthy(clientName)
    ensures var p := Prompt(content, title, clientName, theme);
      var name := clientName.value;
      Occurs(p, "\n" + SubtitleLine("Prepared exclusively for " + name) + "\n")
      && Occurs(p, "\n" + SubtitleLine("Looking forward to working with " + name) + "\n")
      && Occurs(p, "\n" + ("- Personalize ALL content to reference " + name) + "\n")
  {
    var lines := PromptLines(content, title, clientName, theme);
    var name := clientName.value;
    assert lines[5] == SubtitleLine("Prepared exclusively for " + name);
    assert lines[7] == SubtitleLine("Looking forward to working with " + name);
    assert lines[9] == "- Personalize ALL content to reference " + name;
    InnerLineOccurs(lines, 5);
    InnerLineOccurs(lines, 7);
    InnerLineOccurs(lines, 9);
  }

  /** An empty client name is no client: the prompt is the one for no client at all. */
  lemma EmptyClientIsNoClient(content: string, title: string, theme: Theme)
    ensures Prompt(content, title, Some(""), theme) == Prompt(content, title, None, theme)
  {
  }

  // ---------------------------------------------------------------------------
  // The backend reply and its validation

  const ModelName := "claude-sonnet-4-20250514"
  const MaxTokens: nat := 4000

  /** The one request sent: model, token budget and a single user message holding the prompt. */
  datatype BackendRequest = BackendRequest(model: string, maxTokens: nat, prompt: string)

  /** A block of the backend's reply. */
  datatype ContentBlock = TextBlock(text: string) | OtherBlock

  /** What the backend call yields: the reply's content blocks, or a thrown value. */
  datatype BackendOutcome = Replied(blocks: seq<ContentBlock>) | BackendFailed(reason: Exception)

  /** What `JSON.parse(text) as Slide[]` yields: an array (taken as slides), some other JSON value, or a thrown value. */
  datatype ParseOutcome = ParsedArray(items: seq<Slide>) | ParsedOther | ParseFailed(reason: Exception)

  const GenerateErrorPrefix := "Failed to generate slides: "
  const InvalidStructure := "Invalid slide structure returned from AI"
  const SlideCount: nat := 5

  /** Reading `content[0].type` of an empty reply throws this. */
  const NoFirstBlock := Exception(true, "TypeError", "Cannot read properties of undefined (reading 'type')")

  /** The text of the first reply block: its text if it is a text block, `''` otherwise. */
  function ResponseText(blocks: seq<ContentBlock>): (r: Result<string, Exception>)
    ensures r.Failure? <==> blocks == []
    ensures r.Success? && blocks[0].OtherBlock? ==> r.value == ""
    ensures r.Success? && blocks[0].TextBlock? ==> r.value == blocks[0].text
  {
    if blocks == [] then Failure(NoFirstBlock)
    else match blocks[0]
      case TextBlock(text) => Success(text)
      case OtherBlock => Success("")
  }

  /** The message the catch block rethrows. */
  function GenerateFailure(e: Exception): (m: string)
    ensures StartsWith(m, GenerateErrorPrefix)
    ensures m == GenerateErrorPrefix + MessageOr(e, "Unknown error")
  {
    var m := GenerateErrorPrefix + MessageOr(e, "Unknown error");
    assert m[..|GenerateErrorPrefix|] == GenerateErrorPrefix;
    m
  }

  /** `generateSlides`, with the backend and `JSON.parse` as oracles. */
  function GenerateSlides(
    content: string, title: string, clientName: Option<string>, theme: Theme,
    backend: BackendRequest -> BackendOutcome, parse: string -> ParseOutcome): (r: Result<seq<Slide>, string>)
    ensures var reply := backend(BackendRequest(ModelName, MaxTokens, Prompt(content, title, clientName, theme)));
      r.Success? <==>
        reply.Replied? && reply.blocks != [] && parse(ResponseText(reply.blocks).value).ParsedArray?
        && |parse(ResponseText(reply.blocks).value).items| == SlideCount
    ensures var reply := backend(BackendRequest(ModelName, MaxTokens, Prompt(content, title, clientName, theme)));
      r.Success? ==> r.value == parse(ResponseText(reply.blocks).value).items
    ensures r.Success? ==> |r.value| == SlideCount
    ensures r.Failure? ==> StartsWith(r.error, GenerateErrorPrefix)
  {
    var request := BackendRequest(ModelName, MaxTokens, Prompt(content, title, clientName, theme));
    match backend(request)
    case BackendFailed(e) => Failure(GenerateFailure(e))
    case Replied(blocks) =>
      match ResponseText(blocks)
      case Failure(e) => Failure(GenerateFailure(e))
      case Success(text) =>
        match parse(text)
        case ParseFailed(e) => Failure(GenerateFailure(e))
        case ParsedOther => Failure(GenerateFailure(Exception(true, "Error", InvalidStructure)))
        case ParsedArray(items) =>
          if |items| != SlideCount then Failure(GenerateFailure(Exception(true, "Error", InvalidStructure)))
          else Success(items)
  }

  /** A parsed value that is not an array of five fails with the structure message, whatever it holds. */
  lemma WrongShapeIsInvalidStructure(
    content: string, title: string, clientName: Option<string>, theme: Theme,
    backend: BackendRequest -> BackendOutcome, parse: string -> ParseOutcome)
    requires var reply := backend(BackendRequest(ModelName, MaxTokens, Prompt(content, title, clientName, theme)));
      reply.Replied? && reply.blocks != []
      && var parsed := parse(ResponseText(reply.blocks).value);
      parsed.ParsedOther? || (parsed.ParsedArray? && |parsed.items| != SlideCount)
    ensures GenerateSlides(content, title, clientName, theme, backend, parse)
      == Failure(GenerateErrorPrefix + InvalidStructure)
  {
  }

  /**
   * A reply whose first block is not text is read as `''`; where parsing `''` throws, as
   * `JSON.parse` does, generation fails with that error.
   */
  lemma NonTextReplyFails(
    content: string, title: string, clientName: Option<string>, theme: Theme,
    backend: BackendRequest -> BackendOutcome, parse: string -> ParseOutcome)
    requires var reply := backend(BackendRequest(ModelName, MaxTokens, Prompt(content, title, clientName, theme)));
      reply.Replied? && reply.blocks != [] && reply.blocks[0].OtherBlock?
    requires parse("").ParseFailed?
    ensures GenerateSlides(content, title, clientName, theme, backend, parse)
      == Failure(GenerateFailure(parse("").reason))
  {
  }

  /** The five accepted slides are whatever the backend produced: kinds, order and fields are not checked. */
  lemma AnyFiveAreAccepted(
    content: string, title: string, clientName: Option<string>, theme: Theme,
    backend: BackendRequest -> BackendOutcome, parse: string -> ParseOutcome, text: string)
    requires backend(BackendRequest(ModelName, MaxTokens, Prompt(content, title, clientName, theme))) == Replied([TextBlock(text)])
    requires parse(text).ParsedArray? && |parse(text).items| == SlideCount
    ensures GenerateSlides(content, title, clientName, theme, backend, parse) == Success(parse(text).items)
  {
  }

  // ---------------------------------------------------------------------------
  // Images

  /** `getThemeImageStyle`: the image style each theme stands for (each written in two halves, which is the same string). */
  function ThemeImageStyle(theme: Theme): string {
    match theme
    case Executive => "sophisticated gradients with deep purples and blues, " + "professional serif aesthetic, elegant and refined"
    case Minimal => "clean geometric shapes, " + "monochrome black and white, minimalist and modern"
    case Tech => "tech gradients with electric blue accents, " + "digital and futuristic, innovative and cutting-edge"
  }

  /** The aesthetic table tells the themes apart. */
  lemma AestheticIsInjective(a: Theme, b: Theme)
    ensures ThemeAesthetic(a) == ThemeAesthetic(b) ==> a == b
  {
    match a
    case Executive =>
    case Minimal =>
    case Tech =>
  }

  /** The image-style table tells the themes apart too. */
  lemma ImageStyleIsInjective(a: Theme, b: Theme)
    ensures ThemeImageStyle(a) == ThemeImageStyle(b) ==> a == b
  {
    match a
    case Executive =>
    case Minimal =>
    case Tech =>
  }

  /** `generateSlideImage`: a placeholder that yields no image for any prompt and theme. */
  function GenerateSlideImage(imagePrompt: string, theme: Theme): (r: Option<string>)
    ensures r.None?
  {
    None
  }
}
