/** Article-text translation (ml_subscriber/core/translator.py): a DeepL
    backed translator, a no-op translator and the factory choosing one. The
    remote DeepL service is a parameter: a function from the request to
    either the translated text or a DeepL error. */
module Translator {
  import opened Wrappers
  import opened Text

  const DefaultTargetLang: string := "ZH"

  datatype Translator =
    | NoOp
    | DeepL(apiKey: string, targetLang: string)

  /** One call to the remote service's `translate_text`. */
  datatype Request = Request(text: string, targetLang: string)

  /** What `translate` returns, together with the service calls it made. */
  datatype Outcome = Outcome(text: string, calls: seq<Request>)

  /** `translate`: blank text (empty, or only whitespace) comes back as it
      is without any call; otherwise the DeepL translator makes exactly one
      call, in its target language, and returns the service's text, or the
      original text when the service reports an error. The no-op translator
      never calls anything and returns its input. */
  function Translate(t: Translator, text: string, service: Request -> Result<string, string>): (o: Outcome)
    ensures o.calls == [] <==> t.NoOp? || IsBlank(text)
    ensures o.calls == [] ==> o.text == text
    ensures o.calls != [] ==> o.calls == [Request(text, t.targetLang)]
    ensures o.calls != [] && service(o.calls[0]).Success? ==> o.text == service(o.calls[0]).value
    ensures o.calls != [] && service(o.calls[0]).Failure? ==> o.text == text
  {
    match t
    case NoOp => Outcome(text, [])
    case DeepL(_, lang) =>
      StripEmptyIffBlank(text);
      if text == "" || Strip(text) == "" then Outcome(text, [])
      else
        var req := Request(text, lang);
        match service(req)
        case Success(translated) => Outcome(translated, [req])
        case Failure(_) => Outcome(text, [req])
  }

  /** `create_translator`: a DeepL translator exactly when a non-empty API
      key is given, keeping the key and the target language; otherwise the
      no-op translator. */
  function CreateTranslator(apiKey: Option<string>, targetLang: string := DefaultTargetLang): (t: Translator)
    ensures t.DeepL? <==> apiKey.Some? && apiKey.value != ""
    ensures t.DeepL? ==> t.apiKey == apiKey.value && t.targetLang == targetLang
  {
    if apiKey.Some? && apiKey.value != "" then DeepL(apiKey.value, targetLang) else NoOp
  }

  /** The outcome depends on the service only through its answer to the one
      request the translator makes: two services that agree there give the
      same result, and for blank text any two services do. */
  lemma TranslateDependsOnlyOnRequest(t: Translator, text: string,
                                      s1: Request -> Result<string, string>,
                                      s2: Request -> Result<string, string>)
    requires t.DeepL? && !IsBlank(text) ==> s1(Request(text, t.targetLang)) == s2(Request(text, t.targetLang))
    ensures Translate(t, text, s1) == Translate(t, text, s2)
  {
  }

  /** Without an API key, translation is the identity for every text and
      every service, and calls nothing. */
  lemma NoKeyMeansIdentity(apiKey: Option<string>, lang: string, text: string,
                           service: Request -> Result<string, string>)
    requires apiKey.None? || apiKey.value == ""
    ensures Translate(CreateTranslator(apiKey, lang), text, service) == Outcome(text, [])
  {
  }

  /** A failing service never loses text: whatever the translator, the
      result is the input. */
  lemma FailingServiceKeepsText(t: Translator, text: string, service: Request -> Result<string, string>)
    requires forall q :: service(q).Failure?
    ensures Translate(t, text, service).text == text
  {
  }
}
