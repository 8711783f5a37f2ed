/**
 * The `POST /generate-email` handler: it checks the three required fields, puts in the default
 * firm name, fetches and formats the news, generates the email, and shapes the JSON response.
 * The news feed, the date formatting, the model and `JSON.parse` are parameters.
 */
module EmailRoute {
  import opened Wrappers
  import opened Strings
  import opened Prompts
  import opened Claude
  import opened News

  const MISSING_FIELDS := "Missing required fields: companyName, contactName, and senderName are required"
  const GENERATION_FAILED := "Failed to generate email"
  const DEFAULT_FIRM := "Rivel Research Group"

  /** The request body; a field it lacks is `None`. */
  datatype RouteRequest = RouteRequest(
    companyName: Option<string>,
    contactName: Option<string>,
    senderName: Option<string>,
    firmName: Option<string>,
    preferredSources: Option<seq<string>>)

  /** The response: its status and its JSON body. */
  datatype Response =
    | BadRequest(error: string)                                         // 400
    | Generated(email: EmailResult, articlesFound: nat, sources: seq<string>)  // 200
    | ServerError(error: string, details: string)                       // 500

  /** JavaScript's falsiness on a string field: missing or empty. */
  predicate Falsy(field: Option<string>) {
    field.None? || field.value == ""
  }

  /** `firmName || 'Rivel Research Group'`. */
  function FirmOf(firmName: Option<string>): (r: string)
    ensures r != ""
    ensures !Falsy(firmName) ==> r == firmName.value
    ensures Falsy(firmName) ==> r == DEFAULT_FIRM
  {
    if Falsy(firmName) then DEFAULT_FIRM else firmName.value
  }

  /** The sources of the articles, in order. */
  function SourcesOf(articles: seq<Article>): (r: seq<string>)
    ensures |r| == |articles|
    ensures forall k :: 0 <= k < |articles| ==> r[k] == articles[k].source
  {
    seq(|articles|, k requires 0 <= k < |articles| => articles[k].source)
  }

  /**
   * The arguments generation gets: the three required names, the firm with its default, and
   * the news context; no tone, role, length or prompt choice.
   */
  function GenerationRequest(req: RouteRequest, newsContext: string): (r: EmailRequest)
    requires !Falsy(req.companyName) && !Falsy(req.contactName) && !Falsy(req.senderName)
    ensures r.tone.None? && r.contactRole.None? && r.length.None? && r.useLegacyPrompt.None?
    ensures r.companyName == req.companyName.value && r.contactName == req.contactName.value
    ensures r.senderName == req.senderName.value && r.firmName == FirmOf(req.firmName)
    ensures r.newsContext == newsContext
  {
    EmailRequest(req.companyName.value, req.contactName.value, req.senderName.value,
                 FirmOf(req.firmName), newsContext, None, None, None, None)
  }

  /**
   * The handler. `feed` gives the parsed feed for a company name, `date` formats a publication
   * date, `complete` is the model and `parse` is `JSON.parse`; an error of the model becomes
   * the 500 response.
   */
  function HandleGenerateEmail(texts: PromptTexts, req: RouteRequest,
                               feed: string -> Result<seq<FeedItem>, string>,
                               date: Option<string> -> string,
                               complete: string -> Result<string, string>,
                               parse: string -> ParseOutcome): (r: Response)
    ensures Falsy(req.companyName) || Falsy(req.contactName) || Falsy(req.senderName) <==>
              r == BadRequest(MISSING_FIELDS)
    ensures r.Generated? ==> |r.sources| == r.articlesFound <= MAX_ARTICLES
    ensures r.ServerError? ==> r.error == GENERATION_FAILED
  {
    if Falsy(req.companyName) || Falsy(req.contactName) || Falsy(req.senderName) then
      BadRequest(MISSING_FIELDS)
    else
      var articles := CompanyNews(feed(req.companyName.value), req.preferredSources);
      var newsContext := FormatNewsForPrompt(articles, date);
      match GenerateEmail(texts, GenerationRequest(req, newsContext), complete, parse)
      case Failure(e) => ServerError(GENERATION_FAILED, e)
      case Success(email) => Generated(email, |articles|, SourcesOf(articles))
  }

  /** A request without the required fields is turned away before any service is used. */
  lemma MissingFieldsUseNoService(texts: PromptTexts, req: RouteRequest,
                                  feed: string -> Result<seq<FeedItem>, string>,
                                  feed': string -> Result<seq<FeedItem>, string>,
                                  date: Option<string> -> string, date': Option<string> -> string,
                                  complete: string -> Result<string, string>,
                                  complete': string -> Result<string, string>,
                                  parse: string -> ParseOutcome, parse': string -> ParseOutcome)
    requires Falsy(req.companyName) || Falsy(req.contactName) || Falsy(req.senderName)
    ensures HandleGenerateEmail(texts, req, feed, date, complete, parse)
         == HandleGenerateEmail(texts, req, feed', date', complete', parse')
  {
  }

  /**
   * For a complete request, the model is asked once, with the structured prompt of the default
   * style, built from the names, the firm with its default and the formatted news of exactly the
   * articles fetched; its reply answers the request, with the articles' count and sources.
   */
  lemma CompleteRequestOutcome(texts: PromptTexts, req: RouteRequest,
                               feed: string -> Result<seq<FeedItem>, string>,
                               date: Option<string> -> string,
                               complete: string -> Result<string, string>,
                               parse: string -> ParseOutcome)
    requires !Falsy(req.companyName) && !Falsy(req.contactName) && !Falsy(req.senderName)
    ensures var articles := CompanyNews(feed(req.companyName.value), req.preferredSources);
            var genReq := GenerationRequest(req, FormatNewsForPrompt(articles, date));
            var prompt := StructuredPrompt(texts, Resolve(texts, genReq));
            var r := HandleGenerateEmail(texts, req, feed, date, complete, parse);
            && Prompt(texts, genReq) == prompt
            && Resolve(texts, genReq).firmName == FirmOf(req.firmName)
            && Resolve(texts, genReq).toneInstruction == ToneInstructionOf(texts, Some(DEFAULT_TONE))
            && Resolve(texts, genReq).roleContext == RoleContextOf(texts, Some(DEFAULT_ROLE))
            && Resolve(texts, genReq).lengthInstruction == LengthInstructionOf(texts, Some(DEFAULT_LENGTH))
            && (complete(prompt).Failure? ==> r == ServerError(GENERATION_FAILED, complete(prompt).error))
            && (complete(prompt).Success? ==>
                  r == Generated(InterpretReply(complete(prompt).value, parse(complete(prompt).value), prompt),
                                 |articles|, SourcesOf(articles)))
  {
    var articles := CompanyNews(feed(req.companyName.value), req.preferredSources);
    var genReq := GenerationRequest(req, FormatNewsForPrompt(articles, date));
    OmittedArgumentsAreDefaults(texts, genReq);
  }
}
