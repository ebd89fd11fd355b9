/**
 * The generation endpoint (`POST` in app/api/presentations/generate/route.ts): validate the
 * request body, then scrape, generate and insert, strictly in that order, answering with the new
 * presentation or with the error of the first stage that failed. Scraping, generation and the
 * database are oracles; the table of presentations is a store whose rows the insert extends.
 */
module GenerateRoute {
  import opened Wrappers
  import opened Js
  import opened Types

  // ---------------------------------------------------------------------------
  // Validation

  /** The body as sent: each field may be missing. */
  datatype RawCreateRequest = RawCreateRequest(
    sourceUrl: Option<string>, title: Option<string>, clientName: Option<string>, theme: Option<string>)

  const MissingFields := "Missing required fields: source_url, title, theme"
  const InvalidTheme := "Invalid theme. Must be: executive, minimal, or tech"

  /** A required field is missing when it is absent or empty. */
  predicate HasRequiredFields(body: RawCreateRequest)
    ensures HasRequiredFields(body) <==>
      body.sourceUrl.Some? && body.sourceUrl.value != ""
      && body.title.Some? && body.title.value != ""
      && body.theme.Some? && body.theme.value != ""
  {
    Truthy(body.sourceUrl) && Truthy(body.title) && Truthy(body.theme)
  }

  /** The two 400 rejections, missing fields before an unknown theme; a valid body becomes a typed request. */
  function Validate(body: RawCreateRequest): (r: Result<CreatePresentationRequest, string>)
    ensures !HasRequiredFields(body) ==> r == Failure(MissingFields)
    ensures HasRequiredFields(body) && ParseTheme(body.theme.value).None? ==> r == Failure(InvalidTheme)
    ensures r.Success? <==> HasRequiredFields(body) && ParseTheme(body.theme.value).Some?
    ensures r.Success? ==>
      r.value.sourceUrl == body.sourceUrl.value && r.value.title == body.title.value
      && ThemeName(r.value.theme) == body.theme.value && r.value.clientName == body.clientName
  {
    if !HasRequiredFields(body) then Failure(MissingFields)
    else match ParseTheme(body.theme.value)
      case None => Failure(InvalidTheme)
      case Some(theme) => Success(CreatePresentationRequest(body.sourceUrl.value, body.title.value, body.clientName, theme))
  }

  /** Every non-empty theme outside the three is rejected as invalid once the required fields are present. */
  lemma UnknownThemeRejected(sourceUrl: string, title: string, clientName: Option<string>, theme: string)
    requires sourceUrl != "" && title != "" && theme != ""
    requires theme != "executive" && theme != "minimal" && theme != "tech"
    ensures Validate(RawCreateRequest(Some(sourceUrl), Some(title), clientName, Some(theme))) == Failure(InvalidTheme)
  {
  }

  // ---------------------------------------------------------------------------
  // The row

  /** The creator id used until authentication exists. */
  const PlaceholderUser := "00000000-0000-0000-0000-000000000000"

  /** The row sent to the insert; the database adds the id and the timestamps. */
  datatype NewRow = NewRow(
    title: string, clientName: Option<string>, sourceUrl: string, theme: Theme,
    slides: seq<Slide>, shareToken: string, createdBy: string)

  /** The row for a validated request, its generated slides and a fresh token; an empty client name is stored as null. */
  function RowFor(req: CreatePresentationRequest, slides: seq<Slide>, token: string): (row: NewRow)
    ensures row.title == req.title && row.sourceUrl == req.sourceUrl && row.theme == req.theme
    ensures row.slides == slides && row.shareToken == token && row.createdBy == PlaceholderUser
    ensures row.clientName.Some? <==> Truthy(req.clientName)
    ensures row.clientName.Some? ==> row.clientName == req.clientName
  {
    NewRow(req.title, IfTruthy(req.clientName), req.sourceUrl, req.theme, slides, token, PlaceholderUser)
  }

  /** What the database assigns to an inserted row. */
  datatype StoredMeta = StoredMeta(id: string, createdAt: string, updatedAt: string)

  /** A database error, with the fields the 500 response passes on. */
  datatype DbError = DbError(message: string, code: string, hint: string)

  /** The stored presentation: the row with what the database assigned. */
  function Stored(row: NewRow, meta: StoredMeta): (p: Presentation)
    ensures p.title == row.title && p.clientName == row.clientName && p.sourceUrl == row.sourceUrl
    ensures p.theme == row.theme && p.slides == row.slides && p.shareToken == row.shareToken
    ensures p.createdBy == row.createdBy && p.id == meta.id
  {
    Presentation(meta.id, row.title, row.clientName, row.sourceUrl, row.theme, row.slides,
      row.shareToken, row.createdBy, meta.createdAt, meta.updatedAt)
  }

  /** The presentations table. */
  class PresentationStore {
    var rows: seq<Presentation>

    constructor(initial: seq<Presentation>)
      ensures rows == initial
    {
      rows := initial;
    }

    /** `insert(row).select().single()`: the database either stores the row and returns it, or fails and stores nothing. */
    method Insert(row: NewRow, db: NewRow -> Result<StoredMeta, DbError>) returns (r: Result<Presentation, DbError>)
      modifies this
      ensures db(row).Success? ==> r == Success(Stored(row, db(row).value)) && rows == old(rows) + [r.value]
      ensures db(row).Failure? ==> r == Failure(db(row).error) && rows == old(rows)
    {
      match db(row)
      case Success(meta) =>
        var p := Stored(row, meta);
        rows := rows + [p];
        r := Success(p);
      case Failure(e) =>
        r := Failure(e);
    }
  }

  // ---------------------------------------------------------------------------
  // The handler

  /** The three stages, in the order the handler runs them. */
  datatype Stage = ScrapeStage | GenerateStage | InsertStage

  /** The scraped page as the handler uses it. */
  datatype Scraped = Scraped(title: string, content: string)

  /** The request the generator receives. */
  datatype GenerateCall = GenerateCall(content: string, title: string, clientName: Option<string>, theme: Theme)

  datatype ResponseBody =
    | Created(presentation: Presentation)
    | ErrorBody(error: string, details: Option<string>, code: Option<string>, hint: Option<string>)

  datatype Response = Response(status: nat, body: ResponseBody)

  const GenerateFailed := "Failed to generate presentation"
  const SaveFailed := "Failed to save presentation to database"

  /** The catch-all 500: any thrown value, with its message when it is an `Error`. */
  function ThrownResponse(e: Exception): (resp: Response)
    ensures resp.status == 500 && resp.body.ErrorBody? && resp.body.error == GenerateFailed
    ensures resp.body.details == Some(MessageOr(e, "Unknown error"))
  {
    Response(500, ErrorBody(GenerateFailed, Some(MessageOr(e, "Unknown error")), None, None))
  }

  /** The generator's arguments: the scraped content (not the scraped title), the request's title, the client or null, and the theme. */
  function GeneratorCall(req: CreatePresentationRequest, page: Scraped): (call: GenerateCall)
    ensures call.content == page.content && call.title == req.title && call.theme == req.theme
    ensures call.clientName.Some? <==> Truthy(req.clientName)
  {
    GenerateCall(page.content, req.title, IfTruthy(req.clientName), req.theme)
  }

  /**
   * `POST`: `body` is what reading the request as JSON gave, `scrape`, `generate` and `db` stand
   * for the three effects, and `token` is the fresh share token. `trace` lists the stages run.
   */
  method Post(
    body: Result<RawCreateRequest, Exception>,
    scrape: string -> Result<Scraped, Exception>,
    generate: GenerateCall -> Result<seq<Slide>, Exception>,
    token: string,
    store: PresentationStore,
    db: NewRow -> Result<StoredMeta, DbError>)
    returns (resp: Response, trace: seq<Stage>)
    modifies store
    // Stages run strictly in order, each only after the one before succeeded.
    ensures trace == [] || trace == [ScrapeStage] || trace == [ScrapeStage, GenerateStage]
      || trace == [ScrapeStage, GenerateStage, InsertStage]
    // The store gains exactly one row, on success, and nothing otherwise.
    ensures resp.status == 200 <==> store.rows != old(store.rows)
    ensures resp.status == 200 ==>
      resp.body.Created? && store.rows == old(store.rows) + [resp.body.presentation]
    ensures resp.status != 200 ==> store.rows == old(store.rows)
    // A body that cannot be read is a thrown error.
    ensures body.Failure? ==> resp == ThrownResponse(body.error) && trace == []
    // Validation failures are 400s and run no stage.
    ensures body.Success? && Validate(body.value).Failure? ==>
      resp == Response(400, ErrorBody(Validate(body.value).error, None, None, None)) && trace == []
    ensures body.Success? && Validate(body.value).Success? ==>
      var req := Validate(body.value).value;
      trace != [] && trace[0] == ScrapeStage
      && (scrape(req.sourceUrl).Failure? ==> resp == ThrownResponse(scrape(req.sourceUrl).error) && trace == [ScrapeStage])
      && (scrape(req.sourceUrl).Success? ==>
        var call := GeneratorCall(req, scrape(req.sourceUrl).value);
        |trace| >= 2
        && (generate(call).Failure? ==> resp == ThrownResponse(generate(call).error) && |trace| == 2)
        && (generate(call).Success? ==>
          var row := RowFor(req, generate(call).value, token);
          |trace| == 3
          && (db(row).Failure? ==>
            resp == Response(500, ErrorBody(SaveFailed, Some(db(row).error.message), Some(db(row).error.code), Some(db(row).error.hint))))
          && (db(row).Success? ==> resp == Response(200, Created(Stored(row, db(row).value))))))
  {
    trace := [];
    if body.Failure? {
      return ThrownResponse(body.error), trace;
    }
    var validated := Validate(body.value);
    if validated.Failure? {
      return Response(400, ErrorBody(validated.error, None, None, None)), trace;
    }
    var req := validated.value;

    trace := trace + [ScrapeStage];
    var scraped := scrape(req.sourceUrl);
    if scraped.Failure? {
      return ThrownResponse(scraped.error), trace;
    }

    trace := trace + [GenerateStage];
    var slides := generate(GeneratorCall(req, scraped.value));
    if slides.Failure? {
      return ThrownResponse(slides.error), trace;
    }

    trace := trace + [InsertStage];
    var row := RowFor(req, slides.value, token);
    var inserted := store.Insert(row, db);
    match inserted
    case Failure(e) =>
      resp := Response(500, ErrorBody(SaveFailed, Some(e.message), Some(e.code), Some(e.hint)));
    case Success(p) =>
      resp := Response(200, Created(p));
  }
}
