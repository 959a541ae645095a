/** The standalone translator page, src/App.tsx: a model picker that pulls the chosen model
    before switching to it, explicit source and target languages with a swap button, and a
    translate button guarded by plain truthiness (no trimming). */
module ModelPickerApp {
  import opened Wrappers
  import opened Translation

  /** JavaScript truthiness of a string cell that may hold `undefined` (`None`). */
  predicate Truthy(s: Option<string>) {
    s.Some? && s.value != ""
  }

  /** How `/api/pull` came back: `fetch` threw, or a response with its `ok` flag. */
  datatype PullOutcome = PullThrew | PullResponse(ok: bool)

  /** The four cells `switchLanguages` touches. */
  datatype Texts = Texts(sourceLang: Lang, targetLang: Lang, sourceText: Option<string>,
                         translatedText: Option<string>)

  /** `switchLanguages`: all four setters read the values of the same render, so the swap
      is simultaneous. */
  function Switched(t: Texts): (r: Texts)
    ensures r.sourceLang == t.targetLang && r.targetLang == t.sourceLang
    ensures r.sourceText == t.translatedText && r.translatedText == t.sourceText
  {
    Texts(t.targetLang, t.sourceLang, t.translatedText, t.sourceText)
  }

  /** Swapping twice restores every cell. */
  lemma SwitchedInvolution(t: Texts)
    ensures Switched(Switched(t)) == t
  {
  }

  /** The guard at the top of `handleTranslate`. */
  predicate TranslateGuardPasses(sourceText: Option<string>, model: string) {
    Truthy(sourceText) && model != ""
  }

  /** The translate button's `disabled` expression, negated. */
  predicate TranslateButtonEnabled(sourceText: Option<string>, loading: bool, pulling: bool, model: string) {
    !(!Truthy(sourceText) || loading || pulling || model == "")
  }

  /** The button is enabled iff there is source text, no request or pull is running and a
      model is set; so a click on an enabled button always gets past the guard. */
  lemma TranslateButtonEnabledIff(sourceText: Option<string>, loading: bool, pulling: bool, model: string)
    ensures TranslateButtonEnabled(sourceText, loading, pulling, model) <==>
      sourceText.Some? && sourceText.value != "" && !loading && !pulling && model != ""
    ensures TranslateButtonEnabled(sourceText, loading, pulling, model) ==>
      TranslateGuardPasses(sourceText, model)
  {
  }

  class View {
    var sourceText: Option<string>
    var translatedText: Option<string>
    var sourceLang: Lang
    var targetLang: Lang
    var model: string
    var models: seq<string>
    var loading: bool
    var pulling: bool
    /** The `/api/generate` requests sent so far. */
    var requests: seq<Request>
    /** The model names sent to `/api/pull` so far. */
    var pulls: seq<string>

    function TextsNow(): Texts
      reads this
    {
      Texts(sourceLang, targetLang, sourceText, translatedText)
    }

    constructor ()
      ensures sourceText == Some("") && translatedText == Some("")
      ensures sourceLang == Zh && targetLang == En && model == "" && models == []
      ensures !loading && !pulling && requests == [] && pulls == []
    {
      sourceText := Some("");
      translatedText := Some("");
      sourceLang := Zh;
      targetLang := En;
      model := "";
      models := [];
      loading := false;
      pulling := false;
      requests := [];
      pulls := [];
    }

    /** `fetchModels`: the list, or `[]` when the reply has none; the first name becomes the
        model only when the list is non-empty. */
    method FetchModels(reply: TagsReply)
      modifies this
      ensures reply.TagsThrew? ==> models == old(models) && model == old(model)
      ensures reply.Tags? ==> models == (if reply.models.Some? then reply.models.value else [])
      ensures reply.Tags? && reply.models.Some? && reply.models.value != [] ==>
        model == reply.models.value[0]
      ensures reply.Tags? && (reply.models.None? || reply.models.value == []) ==> model == old(model)
      ensures TextsNow() == old(TextsNow()) && loading == old(loading) && pulling == old(pulling)
      ensures requests == old(requests) && pulls == old(pulls)
    {
      match reply {
        case TagsThrew =>
        case Tags(list) =>
          models := if list.Some? then list.value else [];
          if list.Some? && |list.value| > 0 {
            model := list.value[0];
          }
      }
    }

    /** `handleModelChange`: the model is pulled first and adopted only on an `ok`
        response; `finally` clears `pulling`. */
    method HandleModelChange(newModel: string, outcome: PullOutcome)
      modifies this
      ensures pulls == old(pulls) + [newModel]
      ensures model == if outcome == PullResponse(true) then newModel else old(model)
      ensures !pulling
      ensures TextsNow() == old(TextsNow()) && models == old(models) && loading == old(loading)
      ensures requests == old(requests)
    {
      pulling := true;
      pulls := pulls + [newModel];
      match outcome {
        case PullThrew =>
        case PullResponse(ok) =>
          if ok {
            model := newModel;
          }
      }
      pulling := false;
    }

    /** `handleTranslate`: nothing without source text or without a model (whitespace-only
        text is sent); otherwise one request naming both languages, the reply's `response`
        or the error message as the result, and `loading` cleared by `finally`. */
    method HandleTranslate(reply: GenerateReply)
      modifies this
      ensures !TranslateGuardPasses(old(sourceText), old(model)) ==>
        requests == old(requests) && translatedText == old(translatedText) && loading == old(loading)
      ensures TranslateGuardPasses(old(sourceText), old(model)) ==>
        requests == old(requests) + [Request(model, DirectedPrompt(old(sourceText).value, sourceLang, targetLang))] &&
        translatedText == TranslationAfter(reply) && !loading
      ensures sourceText == old(sourceText) && sourceLang == old(sourceLang) && targetLang == old(targetLang)
      ensures model == old(model) && models == old(models) && pulling == old(pulling) && pulls == old(pulls)
    {
      if !Truthy(sourceText) || model == "" {
        return;
      }
      loading := true;
      requests := requests + [Request(model, DirectedPrompt(sourceText.value, sourceLang, targetLang))];
      translatedText := TranslationAfter(reply);
      loading := false;
    }

    /** The swap button. */
    method SwitchLanguages()
      modifies this
      ensures TextsNow() == Switched(old(TextsNow()))
      ensures model == old(model) && models == old(models) && loading == old(loading)
      ensures pulling == old(pulling) && requests == old(requests) && pulls == old(pulls)
    {
      sourceLang, targetLang, sourceText, translatedText := targetLang, sourceLang, translatedText, sourceText;
    }

    /** The source text field's `onChange`. */
    method EditSourceText(t: string)
      modifies this
      ensures sourceText == Some(t)
      ensures translatedText == old(translatedText) && sourceLang == old(sourceLang) && targetLang == old(targetLang)
      ensures model == old(model) && models == old(models) && loading == old(loading)
      ensures pulling == old(pulling) && requests == old(requests) && pulls == old(pulls)
    {
      sourceText := Some(t);
    }
  }

  /** After a translation, swapping moves the result into the source field with the
      languages reversed; swapping back restores the page. */
  lemma SwapAfterTranslation(t: Texts, reply: GenerateReply)
    ensures Switched(t.(translatedText := TranslationAfter(reply))).sourceText == TranslationAfter(reply)
    ensures Switched(Switched(t.(translatedText := TranslationAfter(reply)))) ==
      t.(translatedText := TranslationAfter(reply))
  {
  }
}
