# URL-to-deck: a verified model of the core rules

This project models the rules at the centre of a Next.js application that turns a web page into a five-slide presentation. The rules modelled are these:

- The scraper turns HTML into plain text and a title.
- The generation step builds a prompt and accepts the backend's answer only as an array of exactly five slides.
- The renderer picks one view per slide.
- The viewer moves one cursor over the slides.
- The generation endpoint validates a request, then runs scrape, generate and insert strictly in that order.
- The listing endpoint turns a page number and a limit into a row range and a page count.
- The stock-image lookup turns every failure into "no image".
- The dashboard list keeps presentations, loading, error and copied-link state.

Every effect is a parameter of the model:

- the page fetch;
- the model backend and `JSON.parse`;
- the image service;
- the database.

Each one is a function from the request to an outcome, or a failure with a JavaScript-style thrown value (`Js.Exception`).

The modules follow the source files:

| module | file | source |
|---|---|---|
| `Wrappers` | `wrappers.dfy` | `Option` and `Result` |
| `Js` | `js.dfy` | thrown values, truthiness, string comparison, `response.ok`, `Math.min`/`Math.max` |
| `Text` | `text.dfy` | the JavaScript string operations the code uses: `\s`, `trim`, `\s+` collapsing, literal `replace`, `indexOf`, decimal numerals, `join('\n')` |
| `Types` | `types.dfy` | lib/types.ts |
| `Scraper` | `scraper.dfy` | lib/scraper.ts |
| `SlideGeneration` | `generation.dfy` | lib/anthropic.ts |
| `SlideRendering` | `renderer.dfy` | components/SlideRenderer.tsx |
| `Navigation` | `viewer.dfy` | components/PresentationViewer.tsx |
| `ImageLookup` | `unsplash.dfy` | lib/unsplash.ts |
| `GenerateRoute` | `generate_route.dfy` | app/api/presentations/generate/route.ts |
| `ListRoute` | `list_route.dfy` | app/api/presentations/route.ts |
| `Dashboard` | `presentation_list.dfy` | components/Dashboard/PresentationList.tsx |

Some source code changes state step by step. The model keeps those parts imperative:

- `extractTextFromHTML` rebinds one variable through its passes. It is the method `Scraper.ExtractTextFromHtml`, proved equal to the function `Scraper.ExtractedText`.
- `scrapeURL` reassigns `content` on truncation. It is the method `Scraper.ScrapeUrl`.
- The viewer's `currentSlide` state is the class `Navigation.Viewer`. Its methods update the cursor and keep it in range.
- The presentations table is the class `GenerateRoute.PresentationStore`. The endpoint `GenerateRoute.Post` is a method that may extend it by one row.
- The dashboard state is the class `Dashboard.PresentationList`.

The rest of the core is pure code and is modelled as functions and lemmas.

`generateSlides` checks only that the parsed value is an array of five. Nothing truncates decks, checks slide kinds or calls the image lookup, and the model does none of these either.

## Model

| member | source | states |
|---|---|---|
| Js.MessageOr | lib/anthropic.ts:103 | a thrown `Error` gives its message; any other thrown value gives the fallback |
| Js.IfTruthy | components/SlideRenderer.tsx:20-24 | the value is kept exactly when it is truthy (present and non-empty), else nothing |
| Types.ParseTheme | app/api/presentations/generate/route.ts:21 | a string names a theme exactly when it is `executive`, `minimal` or `tech`, and then names that theme |
| Types.ParseSlideType | lib/types.ts:1 | a string names one of the three declared slide kinds exactly when it is `title`, `content` or `closing` |
| Types.KindOf | lib/anthropic.ts:93 | the kind a parsed `type` string gives under the unchecked cast: it keeps the string, and is an unknown kind exactly when the string is none of the three names |
| Types.ParseLayout | lib/types.ts:3-10 | a parsed layout has the name that was parsed |
| Types.NamesRoundTrip | lib/types.ts:1-12 | every theme, declared slide kind and layout parses back from its JSON name, and a declared kind's name gives that kind back |
| Text.TrimStart | lib/scraper.ts:33 | the result is a suffix of the input, what was dropped is all white space, and the result does not start with white space |
| Text.TrimEnd | lib/scraper.ts:33 | the result is a prefix of the input, what was dropped is all white space, and the result does not end with white space |
| Text.Trim | lib/scraper.ts:33 | the result has no white space at either end, and is the input with only leading and trailing white space removed |
| Text.CollapseSpaces | lib/scraper.ts:33 | the result is single-spaced, no longer than the input, empty only for the empty input, and starts with white space exactly when the input does |
| Text.Normalize | lib/scraper.ts:33 | the two white-space passes give text that is trimmed and single-spaced |
| Text.TrimKeepsSingleSpaced | lib/scraper.ts:33 | trimming single-spaced text keeps it single-spaced |
| Text.CollapseRunBetween | lib/scraper.ts:33 | a white-space run between two words becomes exactly one space, and the text on either side is collapsed on its own |
| Text.CollapseKeepsVisible | lib/scraper.ts:33 | collapsing white space keeps every other character, in order |
| Text.CollapseFixesSingleSpaced | lib/scraper.ts:33 | a single-spaced string does not change when collapsed |
| Text.NormalizeIdempotent | lib/scraper.ts:33 | applying the two white-space passes twice gives the same as once |
| Text.TrimmedIsFixed | lib/scraper.ts:44 | trimming an already trimmed string changes nothing |
| Text.TrimAllSpace | lib/scraper.ts:44 | a string of white space alone trims to the empty string |
| Text.Visible | lib/scraper.ts:33 | the non-white-space characters of a string, each taken from it |
| Text.IndexOf | components/SlideRenderer.tsx:102 | the result is the least position where the pattern starts, and nothing exactly when it starts nowhere |
| Text.IndexOfIgnoringCase | lib/scraper.ts:17-18 | the same, with ASCII letters compared without case |
| Text.IndexOfChar | lib/scraper.ts:21 | the first position of a character, and nothing only when the character is absent |
| Text.ReplaceAll | lib/scraper.ts:24-30 | a global literal replace never lengthens the text when the replacement is no longer than the pattern, and replacing a pattern by itself changes nothing |
| Text.ReplaceAbsentIsIdentity | lib/scraper.ts:24-30 | replacing a pattern that does not occur changes nothing |
| Text.ReplaceLeavesNoOccurrence | lib/scraper.ts:24-30 | after a replacement, the pattern does not occur, nor does any pattern disjoint from the replacement that was absent before |
| Text.ReplaceHitsPrefix | lib/scraper.ts:24-30 | an occurrence at the front is replaced and the scan resumes after it |
| Text.ReplaceSkipsForeignPrefix | lib/scraper.ts:24-30 | text without the pattern's first character is copied through untouched |
| Text.RemoveFirst | components/SlideRenderer.tsx:102 | when the pattern does not occur the text is unchanged |
| Text.RemoveFirstAt | components/SlideRenderer.tsx:102 | the leftmost occurrence, and only it, is cut out |
| Text.DecimalString | components/PresentationViewer.tsx:79 | the numeral is non-empty, all digits, and has no leading zero |
| Text.DecimalRoundTrip | components/PresentationViewer.tsx:79 | reading the printed numeral back gives the number |
| Text.LeadingDigits | components/PresentationViewer.tsx:46 | the longest all-digit prefix, as `parseInt` reads it |
| Text.CodeUnits | lib/scraper.ts:92 | a character is one UTF-16 code unit, or two exactly when it lies beyond U+FFFF |
| Text.Utf16Length | lib/scraper.ts:92 | the JavaScript `length` of a string: at least its number of characters and at most twice that |
| Text.Utf16LengthConcat | lib/scraper.ts:92-93 | the code-unit length of a concatenation is the sum of the lengths |
| Text.Utf16LengthOfBmp | lib/scraper.ts:92 | text without characters beyond U+FFFF has as many code units as characters |
| Text.Utf16Prefix | lib/scraper.ts:93 | the longest prefix that fits in `n` code units: a prefix of the text, within `n`, and the next character would not fit |
| Text.Utf16PrefixOfBmp | lib/scraper.ts:93 | for text without characters beyond U+FFFF, the prefix of `n` code units is the first `n` characters, as `substring(0, n)` gives |
| Text.InnerLineOccurs | lib/anthropic.ts:27-76 | every inner line of a joined text appears in it between two newlines |
| Scraper.RemoveBlocks | lib/scraper.ts:17-18 | removing script/style blocks never lengthens the text and adds no character |
| Scraper.BlockLength | lib/scraper.ts:17-18 | a block match is longer than its opener and fits in the text |
| Scraper.BlockLengthOfBlock | lib/scraper.ts:17-18 | an opener in any letter case, a body with no closer in it, and the closer give a match of exactly their length |
| Scraper.RemoveBlocksDropsBlock | lib/scraper.ts:17-18 | a script/style block is deleted with its contents, whatever the letter case, and the scan resumes after the first closer |
| Scraper.RemoveBlocksDropsPlainBlock | lib/scraper.ts:17-18 | the same, for a block whose contents hold no `<` |
| Scraper.RemoveBlocksKeepsPlainPrefix | lib/scraper.ts:17-18 | text before the first `<` is kept as it is |
| Scraper.ClosingTagKept | lib/scraper.ts:17-18 | a closing tag on its own opens no block and is kept |
| Scraper.SplitOpenerSurvives | lib/scraper.ts:17-18 | one removal pass is not a fixed point: a block that splits another opener joins the halves into a block that survives |
| Scraper.TagLength | lib/scraper.ts:21 | a tag match is a `<`, at least one character, then the first `>`; no match exactly when that shape is absent |
| Scraper.StripTags | lib/scraper.ts:21 | stripping never lengthens the text or adds any character except spaces |
| Scraper.TagBecomesSpace | lib/scraper.ts:21 | a tag is replaced by one space, so the text on either side stays apart |
| Scraper.StripTagsKeepsPlainPrefix | lib/scraper.ts:21 | text before the first `<` is kept as it is |
| Scraper.StripTagsIsTagFree | lib/scraper.ts:21 | no tag is left after stripping |
| Scraper.StripTagsFixesTagFree | lib/scraper.ts:21 | text with no tag passes through unchanged |
| Scraper.StripTagsIdempotent | lib/scraper.ts:21 | stripping twice is stripping once |
| Scraper.DecodeEntities | lib/scraper.ts:24-30 | decoding entities never lengthens the text |
| Scraper.DecodeWithoutAmpersand | lib/scraper.ts:24-30 | text without `&` is not changed by entity decoding |
| Scraper.DecodedHasNoLateEntities | lib/scraper.ts:24-30 | after decoding, no `&lt;`, `&gt;`, `&quot;` or `&#39;` remains |
| Scraper.DecodeLessThan | lib/scraper.ts:27 | `&lt;` becomes `<` |
| Scraper.DoubleEncodedDecodesFully | lib/scraper.ts:24-30 | because `&amp;` is decoded before the later entities, a double-encoded one decodes all the way |
| Scraper.DoubleEncodedLessThan | lib/scraper.ts:26-27 | `&amp;lt;` decodes to `<` |
| Scraper.DoubleEncodedSpaceSurvives | lib/scraper.ts:25-26 | because `&nbsp;` is decoded before `&amp;`, `&amp;nbsp;` leaves `&nbsp;` |
| Scraper.DoubleEncodedAmpersandDecodesOnce | lib/scraper.ts:26 | only one level of `&amp;` is decoded: `&amp;amp;` gives `&amp;` |
| Scraper.ExtractedText | lib/scraper.ts:15-36 | the extracted text has no white space at either end and no two adjacent white-space characters, each a plain space |
| Scraper.ExtractTextFromHtml | lib/scraper.ts:15-36 | the passes, run in order on one variable, give exactly `ExtractedText`, which is trimmed and single-spaced |
| Scraper.ExtractedPlainText | lib/scraper.ts:15-36 | for text without `<`, only entities and white space change |
| Scraper.EscapedTagSurvives | lib/scraper.ts:21-30 | entities are decoded after tags are stripped, so `&lt;b>` is extracted as the markup `<b>` |
| Scraper.DecodeEscapedTag | lib/scraper.ts:24-30 | `&lt;t&gt;`, for `t` without `&`, decodes to the markup `<t>` |
| Scraper.EscapedMarkupSurvives | lib/scraper.ts:15-36 | entities are decoded after tags are stripped, so an escaped tag `&lt;t&gt;` is extracted as the markup `<t>`, only white-space normalised |
| Scraper.NormalizeFixesClean | lib/scraper.ts:33 | trimmed, single-spaced text is not changed by the white-space passes |
| Scraper.ElementAt | lib/scraper.ts:42 | a captured title or heading text is non-empty and contains no `<` |
| Scraper.ElementAfterOpener | lib/scraper.ts:42 | the same, after the opener's attributes |
| Scraper.ElementText | lib/scraper.ts:42 | the same, for the group and its closer |
| Scraper.ElementAtFindsElement | lib/scraper.ts:42 | an opener in any case, attributes without `>`, a non-empty text without `<` and the closer match, and capture that text |
| Scraper.ElementAtHasShape | lib/scraper.ts:42 | every match has that shape |
| Scraper.FirstElement | lib/scraper.ts:42 | the captured text of the leftmost match is non-empty with no `<` |
| Scraper.FirstElementIsLeftmost | lib/scraper.ts:42 | the capture is the one at the leftmost position where an element matches, and there is none exactly when nothing matches anywhere |
| Scraper.FirstElementAtLeftmost | lib/scraper.ts:42-47 | an element at position `i` with none before it is the one `match` returns |
| Scraper.NoElementWithoutMarkup | lib/scraper.ts:42-47 | a text without `<` holds neither a title nor a heading element |
| Scraper.ExtractTitle | lib/scraper.ts:41-53 | the title is always trimmed; the first `<title>` element gives its text trimmed (with no `<`); failing that the first `<h1>` gives its extracted text; failing both, `Untitled` |
| Scraper.TitleOfLeftmostElement | lib/scraper.ts:42-45 | wherever the first title element stands in the page, the title is its text trimmed |
| Scraper.TitleTextIsOnlyTrimmed | lib/scraper.ts:42-45 | for a page that begins with a title element, the title is its text trimmed, with entities left undecoded |
| Scraper.BlankTitleIsEmpty | lib/scraper.ts:42-45 | for a page that begins with a title of white space only, the title is `""`, not the fallback |
| Scraper.HeadingTitleIsExtracted | lib/scraper.ts:47-50 | for a page that begins with an `<h1>` and has no title element, the heading text is run through the full text extraction |
| Scraper.PlainPageIsUntitled | lib/scraper.ts:52 | a page without any markup is titled "Untitled" |
| Scraper.Capped | lib/scraper.ts:92-94 | content of at most 5000 UTF-16 code units is unchanged; longer content becomes its longest prefix of at most 5000 code units plus `...` (at least 4999, the next character not fitting); the result is at most 5003 code units |
| Scraper.CapOfBmpText | lib/scraper.ts:92-94 | for text without characters beyond U+FFFF, content over 5000 characters becomes its first 5000 characters plus `...` |
| Scraper.ScrapeFailure | lib/scraper.ts:104-111 | every failure message starts with `Failed to scrape URL: `; an `AbortError` gives `Request timeout after 10 seconds`, any other `Error` its message, and any other thrown value `Unknown error` |
| Scraper.ScrapeUrl | lib/scraper.ts:58-113 | success exactly on an OK response; the result is the title, the text capped at 5000 UTF-16 code units and the URL; a non-OK status and a rejection each give their prefixed message |
| SlideGeneration.ClientText | lib/anthropic.ts:17-19 | a truthy client is named, with the personalisation directive; otherwise the fixed generic line |
| SlideGeneration.TitleSubtitle | lib/anthropic.ts:40 | `Prepared exclusively for <client>` with a client, `Powered by The Algorithm` without |
| SlideGeneration.ClosingSubtitle | lib/anthropic.ts:64 | `Looking forward to working with <client>` with a client, `Questions & Discussion` without |
| SlideGeneration.ClientRule | lib/anthropic.ts:71 | the personalisation rule with a client, the generic-language rule without |
| SlideGeneration.AestheticIsInjective | lib/anthropic.ts:21-25 | the aesthetic table (`ThemeAesthetic`) gives each theme its own aesthetic |
| SlideGeneration.PromptEmbedsInputs | lib/anthropic.ts:27-33 | the prompt (`Prompt`, joining `PromptLines`) holds the content, the title, the client directive, and the theme with its aesthetic, each on a line of its own |
| SlideGeneration.PromptPersonalises | lib/anthropic.ts:40-71 | with a client, the prompt holds the template's two `"subtitle"` lines with the personalised subtitles, and states the personalisation rule |
| SlideGeneration.EmptyClientIsNoClient | lib/anthropic.ts:17 | an empty client name gives the same prompt as no client |
| SlideGeneration.ResponseText | lib/anthropic.ts:90 | the first block's text, or `''` when it is not text; an empty reply throws |
| SlideGeneration.GenerateFailure | lib/anthropic.ts:103 | every rethrown message starts with `Failed to generate slides: ` and carries the thrown message |
| SlideGeneration.GenerateSlides | lib/anthropic.ts:78-104 | success exactly when the reply parses to an array of five, which is then returned unchanged; every failure is prefixed |
| SlideGeneration.WrongShapeIsInvalidStructure | lib/anthropic.ts:96-98 | a non-array, or an array of any other length, fails with the structure message |
| SlideGeneration.NonTextReplyFails | lib/anthropic.ts:90-93 | a first block that is not text is parsed as `''`, and the parse error is reported |
| SlideGeneration.AnyFiveAreAccepted | lib/anthropic.ts:96-100 | any five parsed slides are accepted as they are |
| SlideGeneration.ImageStyleIsInjective | lib/anthropic.ts:110-117 | the image-style table (`ThemeImageStyle`) gives each theme its own style |
| SlideGeneration.GenerateSlideImage | lib/anthropic.ts:123-139 | no image, for every prompt and theme |
| SlideRendering.EffectiveLayout | components/SlideRenderer.tsx:39 | a slide without a layout is drawn as `default`; otherwise its own layout |
| SlideRendering.StatementText | components/SlideRenderer.tsx:98-106 | with a truthy emphasis, the emphasis and a trimmed remainder; otherwise the text as it is |
| SlideRendering.LeadingEmphasisIsLifted | components/SlideRenderer.tsx:102 | a statement that opens with its emphasis shows the emphasis and then the trimmed remainder |
| SlideRendering.EmphasisCutOnce | components/SlideRenderer.tsx:102 | only the first occurrence of the emphasis is cut out |
| SlideRendering.AbsentEmphasisKeepsText | components/SlideRenderer.tsx:102 | an emphasis that does not occur leaves the text whole, only trimmed |
| SlideRendering.TimelineEntries | components/SlideRenderer.tsx:153-166 | one entry per step, in order, with its texts, and the duration exactly when truthy |
| SlideRendering.TimelineNumbering | components/SlideRenderer.tsx:153-166 | step `k` is numbered `k + 1`; a connector follows every step but the last, so `n` steps have `n - 1` connectors |
| SlideRendering.Render | components/SlideRenderer.tsx:12-35 | title and closing slides get the title view, with subtitle and image exactly when truthy; a slide of an unknown kind gets no view, and only such a slide |
| SlideRendering.ContentViewSelection | components/SlideRenderer.tsx:38-208 | a content slide gets each structured view exactly when its layout names it and its payload is there, and the bullet view otherwise; each view shows its slide's parts: the stat value and caption, the quote text and author, the statement text, the comparison captions and items in order, the timeline entries, the full image with title and subtitle |
| SlideRendering.FallbackShowsBullets | components/SlideRenderer.tsx:191-207 | the fallback shows the points in order, and none when there are no points |
| SlideRendering.ImageShownOnlyIfSet | components/SlideRenderer.tsx:26-207 | an image is shown only when its URL is truthy, and is that URL; comparison, timeline and bullet views never show it |
| SlideRendering.OptionalPartsShownIfTruthy | components/SlideRenderer.tsx:20-75 | the stat context, the quote role and the title subtitle appear exactly when truthy |
| Navigation.NextIndex | components/PresentationViewer.tsx:20 | one slide on, staying put on the last |
| Navigation.PreviousIndex | components/PresentationViewer.tsx:24 | one slide back, staying put on the first |
| Navigation.ClampIndex | components/PresentationViewer.tsx:28 | the requested slide clamped into the deck: below the first gives the first, past the last gives the last, and an index already in the deck is kept |
| Navigation.DigitKeyShape | components/PresentationViewer.tsx:45 | the string comparison admits exactly keys starting with `1` to `8`, and `9` itself |
| Navigation.DigitSlide | components/PresentationViewer.tsx:46 | the slide a digit key asks for is never negative |
| Navigation.KeyTarget | components/PresentationViewer.tsx:33-50 | a key outside the map, and a digit for a slide the deck lacks, leave the cursor where it is |
| Navigation.NavigationKeepsRange | components/PresentationViewer.tsx:20-50 | next, previous, go-to and every key keep the cursor in range |
| Navigation.KeyMap | components/PresentationViewer.tsx:33-50 | arrows and space step, Home and End jump to the ends, a digit `d` jumps to slide `d - 1` only if the deck has it |
| Navigation.UnmappedKeyIsIgnored | components/PresentationViewer.tsx:32-51 | a key outside the map leaves the cursor where it is |
| Navigation.ReplayKeepsRange | components/PresentationViewer.tsx:16-50 | the cursor stays in range after any sequence of key presses |
| Navigation.Viewer.constructor | components/PresentationViewer.tsx:16 | the viewer opens on the first slide |
| Navigation.Viewer.GoToNextSlide | components/PresentationViewer.tsx:19-21 | the cursor becomes `NextIndex` of the old one and stays in range |
| Navigation.Viewer.GoToPreviousSlide | components/PresentationViewer.tsx:23-25 | the cursor becomes `PreviousIndex` of the old one and stays in range |
| Navigation.Viewer.GoToSlide | components/PresentationViewer.tsx:27-29 | the cursor becomes the clamped index and stays in range |
| Navigation.Viewer.HandleKeyDown | components/PresentationViewer.tsx:32-51 | the cursor becomes the key's target and stays in range |
| Navigation.Viewer.Counter | components/PresentationViewer.tsx:79 | the counter is the one-based position, ` / `, and the number of slides |
| Navigation.CounterReadsPosition | components/PresentationViewer.tsx:79 | the counter's leading number reads back as the one-based position |
| Navigation.Viewer.PreviousDisabled | components/PresentationViewer.tsx:96 | the previous button is disabled exactly when going back would not move the cursor |
| Navigation.Viewer.NextDisabled | components/PresentationViewer.tsx:102 | on a non-empty deck, the next button is disabled exactly when going on would not move the cursor |
| Navigation.Viewer.HintShown | components/PresentationViewer.tsx:84 | the hint shows exactly with the controls and while the previous button is disabled, that is on the first slide |
| Navigation.Viewer.Badge | components/PresentationViewer.tsx:70-74 | the client badge shows exactly with the controls and a truthy client, and names the client |
| ImageLookup.HexDigit | lib/unsplash.ts:16 | an escape digit is an unreserved character |
| ImageLookup.Escape | lib/unsplash.ts:16 | a byte escapes to `%` and two unreserved characters |
| ImageLookup.Utf8 | lib/unsplash.ts:16 | a character has one to four bytes, each below 256, and a single byte exactly when it is ASCII |
| ImageLookup.EscapeBytes | lib/unsplash.ts:16 | three characters per byte, each unreserved or `%` |
| ImageLookup.EncodeChar | lib/unsplash.ts:16 | unreserved characters stay; every other one becomes escapes |
| ImageLookup.EncodeURIComponent | lib/unsplash.ts:16 | the encoding holds only unreserved characters and `%`, and is one to twelve times as long |
| ImageLookup.SeparatorsAreEscaped | lib/unsplash.ts:16 | a space, `&`, `=` and `#` are escaped |
| ImageLookup.EncodeKeepsUnreserved | lib/unsplash.ts:16 | text of unreserved characters is passed through |
| ImageLookup.EncodeConcat | lib/unsplash.ts:16 | encoding distributes over concatenation |
| ImageLookup.SearchRequest | lib/unsplash.ts:15-22 | the URL starts with the endpoint, and the authorization header carries the key |
| ImageLookup.QueryParameterIsEncodedQuery | lib/unsplash.ts:16 | the query parameter runs to the first `&` and is exactly the encoded query, followed by `orientation=landscape` |
| ImageLookup.FetchImage | lib/unsplash.ts:8-35 | no key gives no image; an image exactly for an OK reply whose body has `urls.regular`, and then that URL |
| ImageLookup.NoKeyMakesNoRequest | lib/unsplash.ts:9-12 | without a key the result does not depend on the network |
| ImageLookup.LookupReadsOnlyItsReply | lib/unsplash.ts:14-34 | with a key, the result depends only on the reply to this query's request |
| ImageLookup.FetchImages | lib/unsplash.ts:40-42 | one result per query, in order, each the single lookup of that query |
| ImageLookup.BatchConcat | lib/unsplash.ts:40-42 | the batch of two lists is the batch of each, one after the other |
| GenerateRoute.HasRequiredFields | app/api/presentations/generate/route.ts:14 | the three required fields are all present and non-empty |
| GenerateRoute.Validate | app/api/presentations/generate/route.ts:13-26 | a missing or empty field is rejected first, then an unknown theme; a valid body becomes a request with the same fields |
| GenerateRoute.UnknownThemeRejected | app/api/presentations/generate/route.ts:21-26 | every non-empty theme outside the three is rejected as invalid |
| GenerateRoute.RowFor | app/api/presentations/generate/route.ts:43-62 | the row holds the request's title, URL and theme, the slides unchanged, the client or null, the token and the placeholder creator |
| GenerateRoute.Stored | app/api/presentations/generate/route.ts:52-64 | the stored presentation is the row with the database's id and timestamps |
| GenerateRoute.PresentationStore.constructor | app/api/presentations/generate/route.ts:51 | the store holds the given rows |
| GenerateRoute.PresentationStore.Insert | app/api/presentations/generate/route.ts:52-64 | on success exactly one row, the stored one, is appended; on failure nothing changes |
| GenerateRoute.ThrownResponse | app/api/presentations/generate/route.ts:87-95 | a thrown value becomes a 500 with the generic error and its message as details |
| GenerateRoute.GeneratorCall | app/api/presentations/generate/route.ts:34-39 | the generator gets the scraped content (not the scraped title), the request's title and theme, and the client or null |
| GenerateRoute.Post | app/api/presentations/generate/route.ts:8-97 | validation first, then scrape, generate and insert strictly in order, each only after the previous succeeded; a row is stored exactly on a 200; each failure has its status and body |
| ListRoute.ParameterOr | app/api/presentations/route.ts:8-9 | an absent parameter takes its default |
| ListRoute.Offset | app/api/presentations/route.ts:10 | the offset is `(page - 1) * limit` |
| ListRoute.PageRange | app/api/presentations/route.ts:19 | the inclusive range starts at the offset and spans `limit` rows |
| ListRoute.PageRows | app/api/presentations/route.ts:18-19 | a page holds at most `limit` rows, each the table row at its offset, and a full page whenever the table reaches past it |
| ListRoute.AdjacentPages | app/api/presentations/route.ts:19 | page `p + 1` starts right after page `p` ends |
| ListRoute.TotalPages | app/api/presentations/route.ts:34 | the page count is enough pages to hold every row |
| ListRoute.TotalPagesIsCeiling | app/api/presentations/route.ts:34 | no rows give no pages; otherwise the page count is the least that holds every row |
| ListRoute.RangeRows | app/api/presentations/route.ts:19 | a range yields at most its span of rows, each at its position in the table |
| ListRoute.RangeOf | app/api/presentations/route.ts:15-19 | the working database answers every range query with rows and the exact count of the table |
| ListRoute.PageKeepsOrder | app/api/presentations/route.ts:18-19 | a page of a newest-first table is newest first |
| ListRoute.FirstPagesArePrefix | app/api/presentations/route.ts:19 | the first `k` pages together are the first `k * limit` rows, clipped to the table |
| ListRoute.PagesCoverTable | app/api/presentations/route.ts:19-34 | pages `1` to the page count list every row once, in table order |
| ListRoute.Get | app/api/presentations/route.ts:5-44 | a query error gives a 500; otherwise the rows (or none), the page, the limit, the total (or 0) and its page count |
| ListRoute.GetListsPage | app/api/presentations/route.ts:15-35 | against a working database, a listing is that page of the table with the table's size and page count |
| ListRoute.DefaultsListFirstTen | app/api/presentations/route.ts:8-10 | without parameters, the first ten rows are listed as page one |
| Dashboard.RemoveById | components/Dashboard/PresentationList.tsx:54 | no kept entry has the id, and each comes from the list |
| Dashboard.RemoveByIdConcat | components/Dashboard/PresentationList.tsx:54 | filtering works piece by piece, so the kept entries keep their order |
| Dashboard.RemoveByIdKeepsOthers | components/Dashboard/PresentationList.tsx:54 | every entry with another id is kept; a list without the id is unchanged |
| Dashboard.RemoveByIdIdempotent | components/Dashboard/PresentationList.tsx:54 | deleting twice is deleting once |
| Dashboard.BadgeColor | components/Dashboard/PresentationList.tsx:75-86 | purple for executive, blue for tech, gray for everything else |
| Dashboard.UnknownThemeLooksMinimal | components/Dashboard/PresentationList.tsx:83-84 | an unknown theme gets the same badge as minimal |
| Dashboard.ShareUrl | components/Dashboard/PresentationList.tsx:61 | the link is the origin followed by `/p/` and the token |
| Dashboard.ClientCell | components/Dashboard/PresentationList.tsx:142 | the client's name when truthy, `-` otherwise |
| Dashboard.PresentationList.constructor | components/Dashboard/PresentationList.tsx:12-21 | loading starts exactly when the initial list is empty, which is when a fetch follows |
| Dashboard.PresentationList.FetchPresentations | components/Dashboard/PresentationList.tsx:23-38 | an OK response replaces the list; any failure sets the error and keeps the list; loading is always over |
| Dashboard.PresentationList.HandleDelete | components/Dashboard/PresentationList.tsx:40-58 | a confirmed, successful delete removes exactly the entries with that id; a cancelled or failed one changes nothing, and a failure raises its alert |
| Dashboard.PresentationList.CopyShareLink | components/Dashboard/PresentationList.tsx:60-65 | the share link is returned and the token is marked as copied |
| Dashboard.PresentationList.ClearCopied | components/Dashboard/PresentationList.tsx:64 | the copied mark is cleared and nothing else changes |
| Dashboard.PresentationList.ShareLabel | components/Dashboard/PresentationList.tsx:168 | `Copied!` exactly for the copied token, `Share` otherwise |
| Dashboard.OnlyCopiedRowSaysCopied | components/Dashboard/PresentationList.tsx:168 | two rows with different tokens never both show `Copied!` |
| Dashboard.PresentationList.Rows | components/Dashboard/PresentationList.tsx:131-179 | one row per presentation, in list order, with its title, client cell, theme, badge and share label |
| Dashboard.PresentationList.View | components/Dashboard/PresentationList.tsx:88-116 | loading first, then a truthy error, then the empty prompt, then the table |

## Left out

- Effects are oracles. The page fetch, the model backend, `JSON.parse`, the image service and the database are parameters. Their behaviour is not visible in the code.
- The full regular-expression engine is not modelled. Script/style removal, tag stripping and entity decoding are written as the left-to-right scans those particular patterns perform.
  - `\s` is JavaScript's white-space set, written out.
  - Case-insensitive matching folds ASCII letters only, which is all the patterns contain.
- The prompt is not modelled byte for byte. `SlideGeneration.PromptLines` holds the lines of the template that depend on the inputs, written as the template writes them and in template order. The fixed lines between them (the instructions and the rest of the JSON skeleton) are left out, so two neighbouring lines of the model need not be neighbours in the prompt.
- `SlideGeneration.ThemeImageStyle` is only used from code that is commented out. The model keeps the table alone, with an injectivity lemma.
- Two render inputs are never used, and are left out:
  - the renderer's `theme` prop is never read;
  - the `image_prompt` field is carried but never drawn.
- `SlideRendering.Render` returns `NoView`, the model of the final `return null` (components/SlideRenderer.tsx:210), for a slide of an unknown kind. Such a slide gets through because the reply is cast `as Slide[]` without a check (lib/anthropic.ts:93). Layouts stay typed: an unknown `layout` string is not modelled, and the source would draw it with the bullet view.
- `Scraper.Capped`: the source counts and cuts UTF-16 code units, and so does the model. When the 5000th code unit is the first half of a surrogate pair, `substring(0, 5000)` keeps that lone half, which a Dafny string cannot hold; the model stops before the pair, at 4999 code units, and then adds `...`.
- The image oracle is a function of the request, so equal queries in one batch get the same photo. The `photos/random` endpoint (lib/unsplash.ts:16) may return a different one each time.
- `undefined` and `null` are both `None`.
  - `ImageLookup.FetchImage` therefore does not tell an absent `urls.regular` (the source returns `undefined`) from a failure (`null`).
  - An OK list response without `presentations` is not modelled: the source would store `undefined`.
- `ListRoute.Get` takes page and limit as positive integers when present. It does not model `parseInt` of non-numeric text, a limit of 0, or `NaN`.
- `getServerSupabase` throwing on missing configuration is not modelled. It is part of the database oracle.
- The following are outside the model: uuid generation (the token is a parameter), date formatting, `setTimeout` (the clear is a separate method), the clipboard, `confirm` (a parameter), `alert` (a returned value), `window.location.origin` (a parameter), the 10-second abort timer, and console logging.
- Share-token uniqueness is a database property. `Dashboard.OnlyCopiedRowSaysCopied` assumes distinct tokens for the two rows it compares.
- `Dashboard.PresentationList.HandleDelete` filters the current list. The source filters the list its closure captured when the click happened, so deletes running at the same time can interfere. Concurrency is not modelled.
- `Navigation` allows a cursor of `-1` on an empty deck. Next on an empty deck computes `Math.min(0 + 1, -1)`. The source then renders `slides[-1]`, and that rendering is not modelled.
- `ImageLookup.EncodeURIComponent` works on Unicode scalar values. The lone-surrogate `URIError` cannot arise, so it is not modelled.
- `Text.RemoveFirst`: its own contract states only the no-occurrence case. The occurrence cases are the lemmas `Text.RemoveFirstAt` and `Text.RemoveFirstOfPrefix`.
- Pages other than the core (landing, dashboard shells, the creation form, the sharing and single-presentation routes, the theme selector, styles) and lib/database.types.ts are not part of this model.
