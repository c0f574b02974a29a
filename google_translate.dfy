/**
 * The Google Cloud translation client (services/googleTranslateService.js).
 * Unlike the free chain it reports three HTTP statuses as errors; every
 * other failure gives the original text back.
 */
module GoogleTranslate {
  import opened Wrappers
  import Js
  import Http

  /** The errors `translate` rethrows, by the status that caused them. */
  datatype TranslateError = InvalidRequest | KeyRejected | QuotaExceeded
  {
    function Message(): (m: string)
      ensures m != ""
    {
      match this
      case InvalidRequest => "Invalid translation request"
      case KeyRejected => "Google API key invalid or Translation API not enabled"
      case QuotaExceeded => "API quota exceeded"
    }
  }

  /** Each rethrown status has a message of its own. */
  lemma MessagesDistinct(a: TranslateError, b: TranslateError)
    requires a.Message() == b.Message()
    ensures a == b
  {
  }

  /** The query parameters of a translate request; `source` is sent only when given. */
  datatype Params = Params(q: string, target: string, format: string, key: Option<string>, source: Option<string>)

  /** The request `translate` sends, or None when the text is blank and nothing is sent. */
  function Request(apiKey: Option<string>, text: string, targetLanguage: string,
                   sourceLanguage: Option<string>): (p: Option<Params>)
    ensures p.None? <==> Js.Trim(text) == ""
    ensures p.Some? ==> p.value.q == text && p.value.target == targetLanguage && p.value.format == "text"
    ensures p.Some? ==> (p.value.source.Some? <==> Http.IsSet(sourceLanguage))
    ensures p.Some? && p.value.source.Some? ==> p.value.source == sourceLanguage
  {
    if Js.Trim(text) == "" then None
    else Some(Params(text, targetLanguage, "text", apiKey,
                     if Http.IsSet(sourceLanguage) then sourceLanguage else None))
  }

  /** Which failures are reported as errors rather than answered with the original text. */
  function ClassifyStatus(status: int): (e: Option<TranslateError>)
    ensures e.Some? <==> status in {400, 403, 429}
  {
    if status == 400 then Some(InvalidRequest)
    else if status == 403 then Some(KeyRejected)
    else if status == 429 then Some(QuotaExceeded)
    else None
  }

  /**
   * `translate`: a blank text gives "" without a request; a response listing
   * a translation gives its first one; status 400, 403 or 429 is an error;
   * anything else gives the original text.
   */
  function Translate(text: string, response: Http.Outcome<Option<string>>): (r: Result<string, TranslateError>)
    ensures Js.Trim(text) == "" ==> r == Ok("")
    ensures Js.Trim(text) != "" && response.Ok? && response.body.Some? ==> r == Ok(response.body.value)
    ensures Js.Trim(text) != "" && response.HttpError? ==>
              (r.Err? <==> ClassifyStatus(response.status).Some?)
    ensures r.Err? ==> response.HttpError? && r == Err(ClassifyStatus(response.status).value)
    ensures Js.Trim(text) != "" && (response.NetworkError? || response.Timeout? || response == Http.Ok(None)) ==>
              r == Ok(text)
  {
    if Js.Trim(text) == "" then Ok("")
    else match response
      case Ok(Some(translated)) => Ok(translated)
      case Ok(None) => Ok(text)
      case HttpError(status) =>
        (match ClassifyStatus(status)
         case Some(e) => Err(e)
         case None => Ok(text))
      case NetworkError => Ok(text)
      case Timeout => Ok(text)
  }

  /** A blank text never depends on what the API would have answered. */
  lemma BlankNeedsNoCall(text: string, a: Http.Outcome<Option<string>>, b: Http.Outcome<Option<string>>)
    requires Request(None, text, "", None).None?
    ensures Translate(text, a) == Translate(text, b) == Ok("")
  {
  }

  /** `detectLanguage`: the first detection, or English on any failure. */
  function DetectLanguage(response: Http.Outcome<Option<string>>): (language: string)
    ensures response.Ok? && response.body.Some? ==> language == response.body.value
    ensures !(response.Ok? && response.body.Some?) ==> language == "en"
  {
    if response.Ok? && response.body.Some? then response.body.value else "en"
  }

  datatype Language = Language(language: string, name: string)

  /** `getSupportedLanguages`: the listed languages, or none on any failure. */
  function GetSupportedLanguages(response: Http.Outcome<Option<seq<Language>>>): (r: seq<Language>)
    ensures response.Ok? && response.body.Some? ==> r == response.body.value
    ensures !(response.Ok? && response.body.Some?) ==> r == []
  {
    if response.Ok? && response.body.Some? then response.body.value else []
  }

  /** Unlike `translate`, the detection and the language list never fail: any failed request gives a default. */
  lemma FailuresFallBack(detect: Http.Outcome<Option<string>>, languages: Http.Outcome<Option<seq<Language>>>)
    requires !detect.Ok? && !languages.Ok?
    ensures DetectLanguage(detect) == "en" && GetSupportedLanguages(languages) == []
  {
  }

  /** The key: the configured one when it is set, else the environment's. */
  function ApiKey(configured: Option<string>, environment: Option<string>): (k: Option<string>)
    ensures k == configured || k == environment
    ensures Http.IsSet(configured) ==> k == configured
  {
    if Http.IsSet(configured) then configured else environment
  }

  /**
   * `isConfigured` (of this client and of the speech client, which reads its
   * key the same way): whether the key is truthy.
   */
  function IsConfigured(configured: Option<string>, environment: Option<string>): (b: bool)
    ensures b <==> Http.IsSet(configured) || Http.IsSet(environment)
  {
    Http.IsSet(ApiKey(configured, environment))
  }
}
