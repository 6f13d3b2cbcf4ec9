/**
 * The script that runs the stages in turn: extract the page text, stop if
 * there is none, otherwise have the language model structure it, format the
 * post and hand it to the publisher. The language-model service and the
 * publisher's HTTP request are parameters: functions giving their outcome.
 */
module Pipeline {
  import opened Wrappers
  import opened GeminiClient
  import opened LinkedinPost
  import opened JobLinkTextExtraction

  /** What the structuring stage gives for the extracted text. */
  datatype StructureOutcome =
    | CallRaised(error: string)  // creating the client or the generation call raised
    | EmptyResponse              // the response has no text: a ValueError is raised
    | Unparsed                   // the response has text but `response.parsed` is None
    | Structured(job: JobDescription)

  /** What the publisher's POST request gives for the post. */
  datatype PublishOutcome =
    | PostRaised(error: string)  // the request itself raised (connection error, timeout, ...)
    | Responded(status: int)     // the endpoint answered with this status code

  /** How one run of the script ends. */
  datatype RunEnd =
    | Halted                                 // the failure message is printed and the script ends
    | Crashed(error: string)                 // an exception escapes the script
    | Delivered(content: string, status: int)  // the publisher got an answer, printed it and returned

  /** The message of the error raised when the model returns nothing. */
  const NoStructuredResult := "Failed to get structured job description."

  /** The error raised when the formatter reads a field of `None`. */
  const NoneHasNoField := "'NoneType' object has no attribute 'company_name'"

  /** The status code the publisher reports as success. */
  const Created := 201

  /** Where the script stands before publishing: it has ended, or it holds the post. */
  datatype Handover =
    | Ended(end: RunEnd)
    | Ready(post: string)

  /** Python truthiness of the extractor's result: neither `None` nor `""`. */
  predicate Truthy(text: Option<string>) {
    text.Some? && text.value != ""
  }

  /**
   * The script up to the publisher: it halts, it crashes, or it has the post
   * that it hands to the publisher.
   */
  function BeforePublish(url: string, outcome: FetchOutcome,
                         structure: string -> StructureOutcome): Handover {
    match ExtractTextFromUrl(outcome)
    case Raised(e) => Ended(Crashed(e))
    case Returned(text) =>
      if !Truthy(text) then Ended(Halted)
      else
        match structure(text.value)
        case CallRaised(e) => Ended(Crashed(e))
        case EmptyResponse => Ended(Crashed(NoStructuredResult))
        case Unparsed => Ended(Crashed(NoneHasNoField))
        case Structured(job) => Ready(PostText(job, url))
  }

  /** One run of the script for the URL typed in. */
  function Run(url: string, outcome: FetchOutcome, structure: string -> StructureOutcome,
               publish: string -> PublishOutcome): RunEnd {
    match BeforePublish(url, outcome, structure)
    case Ended(end) => end
    case Ready(post) =>
      match publish(post)
      case PostRaised(e) => Crashed(e)
      case Responded(status) => Delivered(post, status)
  }

  /** The run ended with the post accepted by the endpoint. */
  predicate Published(r: RunEnd) {
    r.Delivered? && r.status == Created
  }

  /**
   * The script stops quietly exactly when the fetch failed or the page text is
   * empty: no paragraph, or a single empty one. A page without paragraphs
   * therefore stops the script like a failed fetch does.
   */
  lemma HaltsExactly(url: string, outcome: FetchOutcome, structure: string -> StructureOutcome,
                     publish: string -> PublishOutcome)
    ensures Run(url, outcome, structure, publish) == Halted
      <==> outcome == RequestFailure
           || (outcome.Parsed? && (|outcome.paragraphs| == 0
               || (|outcome.paragraphs| == 1 && outcome.paragraphs[0] == "")))
  {
    if outcome.Parsed? {
      JoinEmptyIff(outcome.paragraphs);
    }
  }

  /**
   * The post is handed to the publisher exactly when some paragraph text was
   * extracted and the model structured it; the post is then the formatted
   * record with the URL that was fetched, and the model saw exactly the
   * joined paragraphs.
   */
  lemma PublishesFormattedRecord(url: string, outcome: FetchOutcome,
                                 structure: string -> StructureOutcome)
    ensures BeforePublish(url, outcome, structure).Ready?
      <==> outcome.Parsed? && JoinLines(outcome.paragraphs) != ""
           && structure(JoinLines(outcome.paragraphs)).Structured?
    ensures BeforePublish(url, outcome, structure).Ready?
      ==> BeforePublish(url, outcome, structure).post
          == PostText(structure(JoinLines(outcome.paragraphs)).job, url)
  {
  }

  /**
   * An exception escapes the script exactly when the extractor fails with
   * something other than a request failure, when the model call raises or
   * its response is empty or unparsed for non-empty text, or when the
   * publisher's request raises for the post handed to it. An error raised by
   * the model call escapes unchanged.
   */
  lemma CrashesExactly(url: string, outcome: FetchOutcome, structure: string -> StructureOutcome,
                       publish: string -> PublishOutcome)
    ensures Run(url, outcome, structure, publish).Crashed?
      <==> outcome.OtherFailure?
           || (outcome.Parsed? && JoinLines(outcome.paragraphs) != ""
               && !structure(JoinLines(outcome.paragraphs)).Structured?)
           || (BeforePublish(url, outcome, structure).Ready?
               && publish(BeforePublish(url, outcome, structure).post).PostRaised?)
    ensures outcome.Parsed? && JoinLines(outcome.paragraphs) != ""
            && structure(JoinLines(outcome.paragraphs)).CallRaised?
            ==> Run(url, outcome, structure, publish)
                == Crashed(structure(JoinLines(outcome.paragraphs)).error)
  {
  }

  /**
   * The post goes up exactly when it was handed to the publisher and the
   * endpoint answered 201; any other status is only printed, and the script
   * still ends without an error.
   */
  lemma PostedExactly(url: string, outcome: FetchOutcome, structure: string -> StructureOutcome,
                      publish: string -> PublishOutcome)
    ensures Published(Run(url, outcome, structure, publish))
      <==> BeforePublish(url, outcome, structure).Ready?
           && publish(BeforePublish(url, outcome, structure).post) == Responded(Created)
    ensures Run(url, outcome, structure, publish).Delivered?
      ==> Run(url, outcome, structure, publish).content
          == BeforePublish(url, outcome, structure).post
    ensures BeforePublish(url, outcome, structure).Ready?
            && publish(BeforePublish(url, outcome, structure).post).Responded?
      ==> Run(url, outcome, structure, publish)
          == Delivered(BeforePublish(url, outcome, structure).post,
                       publish(BeforePublish(url, outcome, structure).post).status)
  {
  }
}
