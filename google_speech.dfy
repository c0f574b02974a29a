/**
 * The speech-to-text client (services/googleSpeechService.js): audio size
 * checks, the language tables, transcript assembly and the optional
 * translation of the transcript. The audio bytes themselves only matter
 * through their count; their base64 encoding is not modelled.
 */
module GoogleSpeech {
  import opened Wrappers
  import Js
  import Http
  import GoogleTranslate
  import Seqs

  const MaxAudioSize := 10485760  // 10 * 1024 * 1024
  const Mebibyte := 1048576

  const AlternativesTable: seq<(string, seq<string>)> := [
    ("te-IN", ["en-IN", "hi-IN"]),
    ("hi-IN", ["en-IN", "te-IN"]),
    ("ta-IN", ["en-IN", "hi-IN"]),
    ("en-IN", ["hi-IN", "te-IN"]),
    ("en-US", ["en-GB", "en-AU"])]

  /** The short codes `getLanguageCode` knows, each with the region of its full code. */
  const LanguageRegions: seq<(string, string)> := [
    ("en", "US"), ("es", "ES"), ("fr", "FR"), ("de", "DE"), ("it", "IT"),
    ("pt", "BR"), ("ru", "RU"), ("ja", "JP"), ("ko", "KR"), ("zh", "CN"),
    ("ar", "SA"), ("hi", "IN"), ("te", "IN"), ("ta", "IN"), ("bn", "IN"),
    ("mr", "IN"), ("gu", "IN"), ("kn", "IN"), ("ml", "IN"), ("pa", "IN"),
    ("ur", "PK")]

  /** `getAlternativeLanguages`: the listed alternatives, or none. */
  function GetAlternativeLanguages(primary: string): (r: seq<string>)
    ensures forall i :: 0 <= i < |AlternativesTable| && AlternativesTable[i].0 == primary ==> r == AlternativesTable[i].1
    ensures (forall i :: 0 <= i < |AlternativesTable| ==> AlternativesTable[i].0 != primary) ==> r == []
    ensures primary !in r
  {
    match Seqs.Lookup(AlternativesTable, primary)
    case Some(alternatives) => alternatives
    case None => []
  }

  /** `getLanguageCode`: the full code of a listed short code, and `en-US` for anything else. */
  function GetLanguageCode(language: string): (code: string)
    ensures Seqs.Lookup(LanguageRegions, language).None? ==> code == "en-US"
    ensures Seqs.Lookup(LanguageRegions, language).Some? ==> code == language + "-" + Seqs.Lookup(LanguageRegions, language).value
  {
    match Seqs.Lookup(LanguageRegions, language)
    case Some(region) => language + "-" + region
    case None => "en-US"
  }

  /** `code.split('-')[0]`: the part before the first hyphen. */
  function Prefix(code: string): (p: string)
    ensures |p| <= |code| && p == code[..|p|]
    ensures '-' !in p
    ensures |p| < |code| ==> code[|p|] == '-'
  {
    if code == [] || code[0] == '-' then "" else [code[0]] + Prefix(code[1..])
  }

  /** `Prefix` is the first part of `split('-')`. */
  lemma {:induction false} PrefixIsFirstPart(code: string)
    ensures Prefix(code) == Js.Split(code, '-')[0]
  {
    if code != [] && code[0] != '-' {
      PrefixIsFirstPart(code[1..]);
    }
  }

  /** Every full code `getLanguageCode` produces begins with the short code it came from. */
  lemma LanguageCodeKeepsPrefix(language: string)
    ensures Prefix(GetLanguageCode(language)) == (if Seqs.Lookup(LanguageRegions, language).Some? then language else "en")
  {
    match Seqs.Lookup(LanguageRegions, language)
    case Some(region) =>
      ListedCodeHasNoHyphen(language);
      PrefixOfCode(language, region);
    case None =>
      DefaultCodePrefix();
  }

  /** The language part of the default code `en-US` is `en`. */
  lemma DefaultCodePrefix()
    ensures Prefix("en-US") == "en"
  {
    assert "en-US" == "en" + "-" + "US";
    PrefixOfCode("en", "US");
  }

  /** No short code listed in the region table holds a hyphen. */
  lemma ListedCodeHasNoHyphen(language: string)
    requires Seqs.Lookup(LanguageRegions, language).Some?
    ensures '-' !in language
  {
    var i := Seqs.LookupIndex(LanguageRegions, language);
    ShortCodesHaveNoHyphen(i);
  }

  lemma ShortCodesHaveNoHyphen(i: nat)
    requires i < |LanguageRegions|
    ensures '-' !in LanguageRegions[i].0
  {
    var code := LanguageRegions[i].0;
    assert |code| == 2 && code[0] != '-' && code[1] != '-';
  }

  lemma {:induction false} PrefixOfCode(short: string, region: string)
    requires '-' !in short
    ensures Prefix(short + "-" + region) == short
  {
    if short != [] {
      assert (short + "-" + region)[1..] == short[1..] + "-" + region;
      PrefixOfCode(short[1..], region);
    }
  }

  /** `Math.round(bytes / 1024 / 1024)` for a positive count. */
  function RoundedMebibytes(bytes: nat): (mb: nat)
    ensures 2 * mb * Mebibyte <= 2 * bytes + Mebibyte < 2 * (mb + 1) * Mebibyte
  {
    (bytes + Mebibyte / 2) / Mebibyte
  }

  /** The context the final rethrow puts in front of a message. */
  const WrapPrefix := "Speech-to-Text failed: "

  predicate Wrapped(m: string) {
    |WrapPrefix| <= |m| && forall i :: 0 <= i < |WrapPrefix| ==> m[i] == WrapPrefix[i]
  }

  /** A message thrown as it is, which does not open with the rethrow's context. */
  function Unwrapped(m: string): (r: string)
    requires m != "" && m[0] != WrapPrefix[0]
    ensures r == m && !Wrapped(r)
  {
    m
  }

  /** Why a transcription fails, each with the message the caller receives. */
  datatype SpeechError =
    | AudioTooLarge(bytes: nat)
    | EmptyAudio
    | RequestTimeout
    | BadRequest(detail: Option<string>)
    | KeyRejected
    | QuotaExceeded
    | PayloadTooLarge
    | StatusFailed(status: int)
    | Unreachable(reason: string)
    | NoSpeech
  {
    /** The thrown message: a rethrow wraps every error without a special status. */
    function Message(): (m: string)
      ensures m != ""
      ensures Wrapped(m) <==> !(BadRequest? || KeyRejected? || QuotaExceeded? || PayloadTooLarge?)
    {
      match this
      case BadRequest(detail) =>
        Unwrapped("Bad Request: " + (if detail.Some? && detail.value != "" then detail.value
                                     else "Invalid audio format or configuration"))
      case KeyRejected => Unwrapped("Google API key invalid" + " or Speech-to-Text API not enabled")
      case QuotaExceeded => Unwrapped("API quota exceeded - too many requests")
      case PayloadTooLarge => Unwrapped("Audio file too large for Google Speech API")
      case AudioTooLarge(bytes) =>
        WrapPrefix + "Audio file too large: " + Js.IntToString(RoundedMebibytes(bytes)) + "MB (max 10MB)"
      case EmptyAudio => WrapPrefix + "Empty audio buffer"
      case RequestTimeout =>
        WrapPrefix + "Request timeout - audio file may be too large or network is slow"
      case StatusFailed(status) =>
        WrapPrefix + "Request failed with status code " + Js.IntToString(status)
      case Unreachable(reason) => WrapPrefix + reason
      case NoSpeech => WrapPrefix + "No speech detected in audio"
    }
  }

  /** The error thrown for a failed request: four statuses are named, the rest wrapped. */
  function ClassifyFailure(o: Http.Outcome<seq<string>>, errorDetail: Option<string>, reason: string): (e: SpeechError)
    requires !o.Ok?
    ensures o.HttpError? && o.status == 400 <==> e == BadRequest(errorDetail)
    ensures o.HttpError? && o.status == 403 <==> e == KeyRejected
    ensures o.HttpError? && o.status == 429 <==> e == QuotaExceeded
    ensures o.HttpError? && o.status == 413 <==> e == PayloadTooLarge
    ensures o.HttpError? && o.status !in {400, 403, 429, 413} <==> e.StatusFailed?
    ensures e.StatusFailed? ==> o.HttpError? && e.status == o.status
    ensures o.Timeout? <==> e == RequestTimeout
    ensures o.NetworkError? <==> e == Unreachable(reason)
  {
    match o
    case Timeout => RequestTimeout
    case NetworkError => Unreachable(reason)
    case HttpError(status) =>
      if status == 400 then BadRequest(errorDetail)
      else if status == 403 then KeyRejected
      else if status == 429 then QuotaExceeded
      else if status == 413 then PayloadTooLarge
      else StatusFailed(status)
  }

  datatype Transcription = Transcription(transcript: string, translation: Option<string>, languageCode: string)

  /** Translation is asked for only with a target that differs from the code's language part. */
  predicate WantsTranslation(targetLanguage: Option<string>, languageCode: string) {
    Http.IsSet(targetLanguage) && targetLanguage.value != Prefix(languageCode)
  }

  /**
   * `transcribeAudio`: the size check, then the empty check, then the
   * request. `recognized` holds each result's first alternative; the
   * transcript is their trimmed space-separated join, and its translation is
   * kept only when it succeeds.
   */
  function TranscribeAudio(audioLength: nat, languageCode: Option<string>, targetLanguage: Option<string>,
                           recognized: Http.Outcome<seq<string>>, errorDetail: Option<string>, reason: string,
                           translateResponse: Http.Outcome<Option<string>>): (r: Result<Transcription, SpeechError>)
    ensures audioLength > MaxAudioSize ==> r == Err(AudioTooLarge(audioLength))
    ensures audioLength == 0 ==> r == Err(EmptyAudio)
    ensures r.Ok? <==> 0 < audioLength <= MaxAudioSize && recognized.Ok? && recognized.body != []
    ensures 0 < audioLength <= MaxAudioSize && recognized == Http.Ok([]) ==> r == Err(NoSpeech)
    ensures 0 < audioLength <= MaxAudioSize && !recognized.Ok? ==>
              r == Err(ClassifyFailure(recognized, errorDetail, reason))
    ensures r.Ok? ==> recognized.Ok? && r.value.transcript == Js.Trim(Js.Join(recognized.body, " "))
    ensures r.Ok? ==> r.value.languageCode == languageCode.GetOr("en-US")
    ensures r.Ok? && !WantsTranslation(targetLanguage, languageCode.GetOr("en-US")) ==> r.value.translation == None
    ensures r.Ok? && WantsTranslation(targetLanguage, languageCode.GetOr("en-US")) ==>
              r.value.translation == match GoogleTranslate.Translate(r.value.transcript, translateResponse)
                                     case Ok(t) => Some(t)
                                     case Err(_) => None
  {
    var code := languageCode.GetOr("en-US");
    if audioLength > MaxAudioSize then Err(AudioTooLarge(audioLength))
    else if audioLength == 0 then Err(EmptyAudio)
    else match recognized
      case Ok(firsts) =>
        if firsts == [] then Err(NoSpeech)
        else
          var transcript := Js.Trim(Js.Join(firsts, " "));
          var translation :=
            if WantsTranslation(targetLanguage, code) then
              match GoogleTranslate.Translate(transcript, translateResponse)
              case Ok(t) => Some(t)
              case Err(_) => None
            else None;
          Ok(Transcription(transcript, translation, code))
      case _ => Err(ClassifyFailure(recognized, errorDetail, reason))
  }

  /** A failed translation of the transcript leaves the translation empty; the transcription still succeeds. */
  lemma TranslationFailureKeepsTranscript(audioLength: nat, languageCode: Option<string>, targetLanguage: Option<string>,
                                          firsts: seq<string>, translateResponse: Http.Outcome<Option<string>>)
    requires 0 < audioLength <= MaxAudioSize && firsts != []
    requires GoogleTranslate.Translate(Js.Trim(Js.Join(firsts, " ")), translateResponse).Err?
    ensures var r := TranscribeAudio(audioLength, languageCode, targetLanguage, Http.Ok(firsts), None, "", translateResponse);
            r.Ok? && r.value.translation == None && r.value.transcript == Js.Trim(Js.Join(firsts, " "))
  {
  }
}
