/**
 * The HTTP translation endpoints (controllers/translationController.js):
 * Google Cloud first, the free chain when Google reports an error, and a
 * label saying which of the two answered. Request fields are either absent
 * or strings.
 */
module TranslationController {
  import opened Wrappers
  import Http
  import Js
  import GoogleTranslate
  import TranslateFree
  import Validation

  datatype Service = Google | Libre

  datatype Reply =
    | BadRequest(message: string)
    | Translated(original: string, translated: string, sourceLanguage: string,
                 targetLanguage: string, service: Service)
    | Detected(text: string, detectedLanguage: string)
  {
    function Status(): int {
      if BadRequest? then 400 else 200
    }
  }

  const MaxTextLength := 5000

  /** A request field is truthy when present and not empty. */
  predicate Given(field: Option<string>) {
    field.Some? && field.value != ""
  }

  /** What the free chain would answer, with its provider outcomes. */
  datatype FreeOutcomes = FreeOutcomes(
    apiKey: Option<string>,
    cloud: Http.Outcome<Option<string>>,
    libre: Http.Outcome<string>,
    unofficial: Http.Outcome<seq<string>>)

  /**
   * `translate`: 400 for a missing field or an over-long text; otherwise the
   * Google translation, or the free chain's when Google reports an error.
   */
  function Translate(text: Option<string>, targetLanguage: Option<string>, sourceLanguage: Option<string>,
                     google: Http.Outcome<Option<string>>, free: FreeOutcomes): (r: Reply)
    ensures r.BadRequest? <==> !Given(text) || !Given(targetLanguage) || Js.Utf16Length(text.value) > MaxTextLength
    ensures !Given(text) || !Given(targetLanguage) ==>
              r == BadRequest("Missing required fields: text and targetLanguage")
    ensures Given(text) && Given(targetLanguage) && Js.Utf16Length(text.value) > MaxTextLength ==>
              r == BadRequest("Text too long (max 5000 characters)")
    ensures r.Translated? ==>
              && r.original == text.value && r.targetLanguage == targetLanguage.value
              && r.sourceLanguage == (if sourceLanguage.Some? then sourceLanguage.value else "en")
    ensures r.Translated? ==>
              (r.service == Libre <==> GoogleTranslate.Translate(text.value, google).Err?)
    ensures r.Translated? && r.service == Google ==>
              r.translated == GoogleTranslate.Translate(text.value, google).value
    ensures r.Translated? && r.service == Libre ==>
              r.translated == TranslateFree.Translate(free.apiKey, text.value, free.cloud, free.libre, free.unofficial).result
  {
    if !Given(text) || !Given(targetLanguage) then
      BadRequest("Missing required fields: text and targetLanguage")
    else if Js.Utf16Length(text.value) > MaxTextLength then
      BadRequest("Text too long (max 5000 characters)")
    else
      var source := sourceLanguage.GetOr("en");
      match GoogleTranslate.Translate(text.value, google)
      case Ok(t) => Translated(text.value, t, source, targetLanguage.value, Google)
      case Err(_) =>
        var t := TranslateFree.Translate(free.apiKey, text.value, free.cloud, free.libre, free.unofficial).result;
        Translated(text.value, t, source, targetLanguage.value, Libre)
  }

  /**
   * For a text that is not blank, the free chain answers exactly when Google
   * reported status 400, 403 or 429. (A whitespace-only text passes the
   * controller's check and Google answers "" for it without a request.)
   */
  lemma LibreOnlyOnReportedStatus(text: string, targetLanguage: string, sourceLanguage: Option<string>,
                                  google: Http.Outcome<Option<string>>, free: FreeOutcomes)
    requires Js.Trim(text) != "" && targetLanguage != "" && Js.Utf16Length(text) <= MaxTextLength
    ensures var r := Translate(Some(text), Some(targetLanguage), sourceLanguage, google, free);
            r.Translated? && (r.service == Libre <==> google.HttpError? && google.status in {400, 403, 429})
  {
    assert |Js.Trim(text)| <= |text|;
    GoogleErrIffReported(text, google);
    LibreIffGoogleErr(text, targetLanguage, sourceLanguage, google, free);
  }

  /** A well-formed request is translated, by the free chain exactly when Google's client fails. */
  lemma LibreIffGoogleErr(text: string, targetLanguage: string, sourceLanguage: Option<string>,
                          google: Http.Outcome<Option<string>>, free: FreeOutcomes)
    requires text != "" && targetLanguage != "" && Js.Utf16Length(text) <= MaxTextLength
    ensures var r := Translate(Some(text), Some(targetLanguage), sourceLanguage, google, free);
            r.Translated? && (r.service == Libre <==> GoogleTranslate.Translate(text, google).Err?)
  {
  }

  /** For a text that is not blank, Google's client fails exactly on statuses 400, 403 and 429. */
  lemma GoogleErrIffReported(text: string, google: Http.Outcome<Option<string>>)
    requires Js.Trim(text) != ""
    ensures GoogleTranslate.Translate(text, google).Err? <==> google.HttpError? && google.status in {400, 403, 429}
  {
    assert GoogleTranslate.ClassifyStatus(400).Some? && GoogleTranslate.ClassifyStatus(403).Some?;
  }

  /** A whitespace-only text is answered by Google with "" whatever the API would say. */
  lemma BlankTextAnsweredEmpty(text: string, targetLanguage: string, sourceLanguage: Option<string>,
                               google: Http.Outcome<Option<string>>, free: FreeOutcomes)
    requires text != "" && Js.Trim(text) == "" && targetLanguage != "" && Js.Utf16Length(text) <= MaxTextLength
    ensures var r := Translate(Some(text), Some(targetLanguage), sourceLanguage, google, free);
            r.Translated? && r.service == Google && r.translated == ""
  {
  }

  /**
   * On the `POST /` route `validateTranslation` runs first and refuses a
   * blank text, so `BlankTextAnsweredEmpty` describes the controller alone.
   */
  lemma RouteRefusesBlankText(text: string, targetLanguage: Js.Value)
    requires Js.IsBlank(text)
    ensures Validation.ValidateTranslation(Js.Str(text), targetLanguage).Reject?
  {
  }

  /** `detectLanguage`: 400 without a text, otherwise Google's detection. */
  function DetectLanguage(text: Option<string>, response: Http.Outcome<Option<string>>): (r: Reply)
    ensures r.BadRequest? <==> !Given(text)
    ensures !Given(text) ==> r == BadRequest("Missing required field: text")
    ensures Given(text) ==> r == Detected(text.value, GoogleTranslate.DetectLanguage(response))
  {
    if !Given(text) then BadRequest("Missing required field: text")
    else Detected(text.value, GoogleTranslate.DetectLanguage(response))
  }
}
