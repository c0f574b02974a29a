/**
 * The free translation chain (services/translateServiceFree.js). Providers
 * are tried in a fixed order and the first usable answer wins; when none
 * answers, the original text comes back. Nothing here ever fails.
 */
module TranslateFree {
  import opened Wrappers
  import Http

  datatype Provider = GoogleCloud | LibreTranslate | UnofficialGoogle

  /** What a chain returns, and which providers it called, in order. */
  datatype Answer = Answer(result: string, tried: seq<Provider>)

  /** The reference rule: the first provider whose answer is usable wins. */
  function FirstSuccess(attempts: seq<(Provider, Option<string>)>, fallback: string): (a: Answer)
    ensures |a.tried| <= |attempts|
    ensures forall i :: 0 <= i < |a.tried| ==> a.tried[i] == attempts[i].0
  {
    if attempts == [] then Answer(fallback, [])
    else if attempts[0].1.Some? then Answer(attempts[0].1.value, [attempts[0].0])
    else
      var rest := FirstSuccess(attempts[1..], fallback);
      assert forall i :: 1 <= i < |attempts| ==> attempts[1..][i - 1] == attempts[i];
      Answer(rest.result, [attempts[0].0] + rest.tried)
  }

  /** Attempt `i` is the first one with a usable answer. */
  predicate FirstUsableAt(attempts: seq<(Provider, Option<string>)>, i: nat) {
    && i < |attempts| && attempts[i].1.Some?
    && forall j :: 0 <= j < i ==> attempts[j].1.None?
  }

  /** No attempt has a usable answer. */
  predicate AllFailed(attempts: seq<(Provider, Option<string>)>) {
    forall i :: 0 <= i < |attempts| ==> attempts[i].1.None?
  }

  /** With no usable answer the fallback comes back and every provider was called. */
  lemma {:induction false} FirstSuccessAllFailed(attempts: seq<(Provider, Option<string>)>, fallback: string)
    requires AllFailed(attempts)
    ensures FirstSuccess(attempts, fallback) == Answer(fallback, Providers(attempts))
  {
    if attempts != [] {
      assert AllFailed(attempts[1..]) by {
        forall i | 0 <= i < |attempts[1..]| ensures attempts[1..][i].1.None? {
          assert attempts[1..][i] == attempts[i + 1];
        }
      }
      FirstSuccessAllFailed(attempts[1..], fallback);
      assert Providers(attempts) == [attempts[0].0] + Providers(attempts[1..]);
    }
  }

  /** The first usable answer wins and nothing after it is called. */
  lemma {:induction false} FirstSuccessStopsAtFirstUsable(attempts: seq<(Provider, Option<string>)>, fallback: string, i: nat)
    requires FirstUsableAt(attempts, i)
    ensures FirstSuccess(attempts, fallback) == Answer(attempts[i].1.value, Providers(attempts[..i + 1]))
  {
    if i > 0 {
      assert FirstUsableAt(attempts[1..], i - 1) by {
        forall j | 0 <= j < i - 1 ensures attempts[1..][j].1.None? {
          assert attempts[1..][j] == attempts[j + 1];
        }
      }
      FirstSuccessStopsAtFirstUsable(attempts[1..], fallback, i - 1);
      assert attempts[1..][..i] == attempts[1..i + 1];
      assert Providers(attempts[..i + 1]) == [attempts[0].0] + Providers(attempts[1..i + 1]) by {
        assert attempts[..i + 1][1..] == attempts[1..i + 1];
      }
    } else {
      assert Providers(attempts[..1]) == [attempts[0].0];
    }
  }

  /** The providers of a list of attempts, in order. */
  function Providers(attempts: seq<(Provider, Option<string>)>): (ps: seq<Provider>)
    ensures |ps| == |attempts|
    ensures forall i :: 0 <= i < |ps| ==> ps[i] == attempts[i].0
  {
    if attempts == [] then [] else [attempts[0].0] + Providers(attempts[1..])
  }

  /** Google Cloud v2 answers when its payload lists a first translation (`Some`). */
  function CloudAnswer(o: Http.Outcome<Option<string>>): (r: Option<string>)
    ensures r.Some? <==> o.Ok? && o.body.Some?
    ensures r.Some? ==> r == o.body
  {
    if o.Ok? then o.body else None
  }

  /** LibreTranslate answers when its `translatedText` is truthy. */
  function LibreAnswer(o: Http.Outcome<string>): (r: Option<string>)
    ensures r.Some? <==> o.Ok? && o.body != ""
    ensures r.Some? ==> r.value == o.body
  {
    if o.Ok? && o.body != "" then Some(o.body) else None
  }

  /** The unofficial endpoint answers with its first translated segment, if there is one. */
  function UnofficialAnswer(o: Http.Outcome<seq<string>>): (r: Option<string>)
    ensures r.Some? <==> o.Ok? && o.body != []
    ensures r.Some? ==> r.value == o.body[0]
  {
    if o.Ok? && |o.body| > 0 then Some(o.body[0]) else None
  }

  /**
   * `translate`: Google Cloud first and only with an API key, then
   * LibreTranslate, then the unofficial endpoint, then the original text.
   */
  function Translate(apiKey: Option<string>, text: string,
                     cloud: Http.Outcome<Option<string>>,
                     libre: Http.Outcome<string>,
                     unofficial: Http.Outcome<seq<string>>): (a: Answer)
    ensures |a.tried| >= 1
    ensures Http.IsSet(apiKey) <==> a.tried[0] == GoogleCloud
  {
    if Http.IsSet(apiKey) && CloudAnswer(cloud).Some? then
      Answer(CloudAnswer(cloud).value, [GoogleCloud])
    else
      var before := if Http.IsSet(apiKey) then [GoogleCloud] else [];
      if LibreAnswer(libre).Some? then
        Answer(LibreAnswer(libre).value, before + [LibreTranslate])
      else if UnofficialAnswer(unofficial).Some? then
        Answer(UnofficialAnswer(unofficial).value, before + [LibreTranslate, UnofficialGoogle])
      else
        Answer(text, before + [LibreTranslate, UnofficialGoogle])
  }

  /** The providers `translate` consults, in order, with the answer each would give. */
  function TranslateAttempts(apiKey: Option<string>,
                             cloud: Http.Outcome<Option<string>>,
                             libre: Http.Outcome<string>,
                             unofficial: Http.Outcome<seq<string>>): seq<(Provider, Option<string>)> {
    (if Http.IsSet(apiKey) then [(GoogleCloud, CloudAnswer(cloud))] else [])
    + [(LibreTranslate, LibreAnswer(libre)), (UnofficialGoogle, UnofficialAnswer(unofficial))]
  }

  /** The chain after Google Cloud, as the first-success rule sees it. */
  lemma {:induction false} FreeTailIsFirstSuccess(text: string, libre: Http.Outcome<string>,
                                                   unofficial: Http.Outcome<seq<string>>)
    ensures var tail := [(LibreTranslate, LibreAnswer(libre)), (UnofficialGoogle, UnofficialAnswer(unofficial))];
            FirstSuccess(tail, text)
              == if LibreAnswer(libre).Some? then Answer(LibreAnswer(libre).value, [LibreTranslate])
                 else if UnofficialAnswer(unofficial).Some? then
                   Answer(UnofficialAnswer(unofficial).value, [LibreTranslate, UnofficialGoogle])
                 else Answer(text, [LibreTranslate, UnofficialGoogle])
  {
    var last := [(UnofficialGoogle, UnofficialAnswer(unofficial))];
    var tail := [(LibreTranslate, LibreAnswer(libre))] + last;
    assert tail[1..] == last && last[1..] == [];
    assert FirstSuccess([], text) == Answer(text, []);
  }

  /** `translate` is the first-success rule over its providers, falling back to the text. */
  lemma {:induction false} TranslateIsFirstSuccess(apiKey: Option<string>, text: string,
                                                   cloud: Http.Outcome<Option<string>>,
                                                   libre: Http.Outcome<string>,
                                                   unofficial: Http.Outcome<seq<string>>)
    ensures Translate(apiKey, text, cloud, libre, unofficial)
         == FirstSuccess(TranslateAttempts(apiKey, cloud, libre, unofficial), text)
  {
    var tail := [(LibreTranslate, LibreAnswer(libre)), (UnofficialGoogle, UnofficialAnswer(unofficial))];
    FreeTailIsFirstSuccess(text, libre, unofficial);
    var attempts := TranslateAttempts(apiKey, cloud, libre, unofficial);
    if Http.IsSet(apiKey) {
      assert attempts == [(GoogleCloud, CloudAnswer(cloud))] + tail;
      assert attempts[1..] == tail;
    } else {
      assert attempts == tail;
    }
  }

  /** When every provider fails, the original text is returned and all of them were called. */
  lemma AllFailedGivesOriginal(apiKey: Option<string>, text: string,
                               cloud: Http.Outcome<Option<string>>,
                               libre: Http.Outcome<string>,
                               unofficial: Http.Outcome<seq<string>>)
    requires !cloud.Ok? && !libre.Ok? && !unofficial.Ok?
    ensures Translate(apiKey, text, cloud, libre, unofficial).result == text
    ensures |Translate(apiKey, text, cloud, libre, unofficial).tried| == if Http.IsSet(apiKey) then 3 else 2
  {
  }

  /** A Google Cloud translation ends the chain: no later provider is called. */
  lemma CloudSuccessStopsChain(apiKey: Option<string>, text: string, translated: string,
                               libre: Http.Outcome<string>,
                               unofficial: Http.Outcome<seq<string>>)
    requires Http.IsSet(apiKey)
    ensures Translate(apiKey, text, Http.Ok(Some(translated)), libre, unofficial)
         == Answer(translated, [GoogleCloud])
  {
  }

  /**
   * `detectLanguage`: Google Cloud (with an API key), then LibreTranslate's
   * first detection when its language is truthy, otherwise English.
   */
  function DetectLanguage(apiKey: Option<string>,
                          cloud: Http.Outcome<Option<string>>,
                          libre: Http.Outcome<seq<string>>): (language: string)
    ensures language == "en" ||
            (Http.IsSet(apiKey) && cloud.Ok? && cloud.body == Some(language)) ||
            (libre.Ok? && |libre.body| > 0 && libre.body[0] == language)
  {
    if Http.IsSet(apiKey) && CloudAnswer(cloud).Some? then CloudAnswer(cloud).value
    else if libre.Ok? && |libre.body| > 0 && libre.body[0] != "" then libre.body[0]
    else "en"
  }

  /** `detectLanguage` is the first-success rule with English as the fallback. */
  lemma DetectIsFirstSuccess(apiKey: Option<string>,
                             cloud: Http.Outcome<Option<string>>,
                             libre: Http.Outcome<seq<string>>)
    ensures DetectLanguage(apiKey, cloud, libre)
         == FirstSuccess((if Http.IsSet(apiKey) then [(GoogleCloud, CloudAnswer(cloud))] else [])
                         + [(LibreTranslate, LibreAnswer(if libre.Ok? && |libre.body| > 0
                                                          then Http.Ok(libre.body[0]) else Http.NetworkError))],
                         "en").result
  {
    var tail := [(LibreTranslate, LibreAnswer(if libre.Ok? && |libre.body| > 0
                                              then Http.Ok(libre.body[0]) else Http.NetworkError))];
    assert tail[1..] == [];
    assert FirstSuccess([], "en") == Answer("en", []);
    assert FirstSuccess(tail, "en").result == if tail[0].1.Some? then tail[0].1.value else "en";
    if Http.IsSet(apiKey) {
      var attempts := [(GoogleCloud, CloudAnswer(cloud))] + tail;
      assert attempts[1..] == tail;
    }
  }
}
