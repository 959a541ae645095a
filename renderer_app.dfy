/** The main translator window, src/renderer/App.tsx: the model list from `/api/tags`, the
    input box whose every change re-detects the language and re-arms a 500 ms debounce, and
    `handleTranslate`, which skips text without content and always clears `loading`.

    React state cells are the fields of `View`. A handler reads the values of the render it
    was created in; the debounced callback keeps the `handleTranslate` of the render in which
    the input change happened, so a `Pending` entry records the language and model that
    closure sees. Timers are identified by number and fire as separate steps. */
module RendererApp {
  import opened Wrappers
  import opened JsText
  import opened Translation

  /** A callback scheduled by `handleInputChange`: the text it will translate and the
      `sourceLanguage` and `selectedModel` its closure reads. */
  datatype Pending = Pending(text: string, language: Lang, model: string)

  /** The initial `sourceLanguage` cell. */
  const InitialLanguage: Lang := Zh

  /** The translate button is disabled while loading and while the input has no content. */
  predicate TranslateButtonEnabled(inputText: string, loading: bool) {
    !loading && Trim(inputText) != ""
  }

  lemma TranslateButtonEnabledIff(inputText: string, loading: bool)
    ensures TranslateButtonEnabled(inputText, loading) <==> !loading && HasContent(inputText)
  {
    HasContentIff(inputText);
  }

  class View {
    var inputText: string
    var translation: Option<string>
    var loading: bool
    /** `None` is the `undefined` a reply without `models` leaves in the cell. */
    var models: Option<seq<string>>
    var selectedModel: string
    var sourceLanguage: Lang
    var typingTimeout: Option<nat>
    /** The timers that are still armed, with what each will run. */
    var timers: map<nat, Pending>
    var nextTimer: nat
    /** The `/api/generate` requests sent so far. */
    var requests: seq<Request>

    /** Between events no request is in flight, the only armed timer, if any, is the one
        `typingTimeout` holds, and only text with content is armed. */
    predicate Valid()
      reads this
    {
      !loading &&
      (forall id :: id in timers ==> typingTimeout == Some(id) && HasContent(timers[id].text)) &&
      (typingTimeout.Some? ==> typingTimeout.value < nextTimer)
    }

    constructor ()
      ensures inputText == "" && translation == Some("") && !loading
      ensures models == Some([]) && selectedModel == "" && sourceLanguage == InitialLanguage
      ensures typingTimeout == None && timers == map[] && requests == []
      ensures Valid()
    {
      inputText := "";
      translation := Some("");
      loading := false;
      models := Some([]);
      selectedModel := "";
      sourceLanguage := InitialLanguage;
      typingTimeout := None;
      timers := map[];
      nextTimer := 1;
      requests := [];
    }

    /** `fetchModels`, run once on mount. A reply without `models` stores `undefined` and
        then throws on `.length`, which the `catch` swallows. */
    method FetchModels(reply: TagsReply)
      modifies this
      ensures reply.TagsThrew? ==> models == old(models) && selectedModel == old(selectedModel)
      ensures reply.Tags? ==> models == reply.models
      ensures reply.Tags? && reply.models.Some? && reply.models.value != [] ==>
        selectedModel == reply.models.value[0]
      ensures reply.Tags? && (reply.models.None? || reply.models.value == []) ==>
        selectedModel == old(selectedModel)
      ensures inputText == old(inputText) && translation == old(translation) && loading == old(loading)
      ensures sourceLanguage == old(sourceLanguage) && typingTimeout == old(typingTimeout)
      ensures timers == old(timers) && nextTimer == old(nextTimer) && requests == old(requests)
    {
      match reply {
        case TagsThrew =>
        case Tags(list) =>
          models := list;
          if list.Some? && |list.value| > 0 {
            selectedModel := list.value[0];
          }
      }
    }

    /** The model `Select`: only `selectedModel` changes. An armed timer keeps the model
        its closure saw. */
    method SelectModel(model: string)
      modifies this
      ensures selectedModel == model
      ensures inputText == old(inputText) && translation == old(translation) && loading == old(loading)
      ensures models == old(models) && sourceLanguage == old(sourceLanguage)
      ensures typingTimeout == old(typingTimeout) && timers == old(timers)
      ensures nextTimer == old(nextTimer) && requests == old(requests)
    {
      selectedModel := model;
    }

    /** The debounce part of `handleInputChange`: the armed timer is cleared, and a new one
        is armed only for text with content; `typingTimeout` keeps the cleared id otherwise. */
    method Debounce(text: string, closureLanguage: Lang)
      requires Valid()
      modifies this
      ensures timers == if HasContent(text)
        then map[old(nextTimer) := Pending(text, closureLanguage, selectedModel)] else map[]
      ensures typingTimeout == if HasContent(text) then Some(old(nextTimer)) else old(typingTimeout)
      ensures Valid()
      ensures inputText == old(inputText) && translation == old(translation) && loading == old(loading)
      ensures models == old(models) && selectedModel == old(selectedModel)
      ensures sourceLanguage == old(sourceLanguage) && requests == old(requests)
    {
      if typingTimeout.Some? {
        assert forall k :: k in timers ==> k == typingTimeout.value;
        timers := timers - {typingTimeout.value};
      }
      assert timers == map[];
      if HasContent(text) {
        timers := timers[nextTimer := Pending(text, closureLanguage, selectedModel)];
        typingTimeout := Some(nextTimer);
        nextTimer := nextTimer + 1;
      }
    }

    /** `handleInputChange` as the repository has it: the text and its detected language are
        stored, but the debounced callback belongs to the current render, whose
        `sourceLanguage` is still the language of the previous input. */
    method HandleInputChangeAsWritten(text: string)
      requires Valid()
      modifies this
      ensures inputText == text && sourceLanguage == DetectLanguage(text)
      ensures HasContent(text) ==> typingTimeout == Some(old(nextTimer))
      ensures HasContent(text) ==>
        timers == map[old(nextTimer) := Pending(text, old(sourceLanguage), old(selectedModel))]
      ensures !HasContent(text) ==> timers == map[] && typingTimeout == old(typingTimeout)
      ensures Valid()
      ensures translation == old(translation) && models == old(models)
      ensures selectedModel == old(selectedModel) && requests == old(requests)
    {
      var previous := sourceLanguage;
      inputText := text;
      sourceLanguage := DetectLanguage(text);
      Debounce(text, previous);
    }

    /** `handleInputChange` with the debounced call translating in the language just
        detected for the text it carries. */
    method HandleInputChange(text: string)
      requires Valid()
      modifies this
      ensures inputText == text && sourceLanguage == DetectLanguage(text)
      ensures HasContent(text) ==> typingTimeout == Some(old(nextTimer))
      ensures HasContent(text) ==>
        timers == map[old(nextTimer) := Pending(text, DetectLanguage(text), old(selectedModel))]
      ensures !HasContent(text) ==> timers == map[] && typingTimeout == old(typingTimeout)
      ensures Valid()
      ensures translation == old(translation) && models == old(models)
      ensures selectedModel == old(selectedModel) && requests == old(requests)
    {
      var detected := DetectLanguage(text);
      inputText := text;
      sourceLanguage := detected;
      Debounce(text, detected);
    }

    /** `handleTranslate(textToTranslate)` with the language and model its closure reads:
        nothing at all for text without content; otherwise `loading` is set, one request
        goes out, the reply's `response` (or the error message) becomes the translation,
        and `finally` clears `loading`. */
    method Translate(textToTranslate: string, language: Lang, model: string, reply: GenerateReply)
      requires Valid()
      modifies this
      ensures !HasContent(textToTranslate) ==>
        requests == old(requests) && translation == old(translation)
      ensures HasContent(textToTranslate) ==>
        requests == old(requests) + [Request(model, Prompt(textToTranslate, language))] &&
        translation == TranslationAfter(reply)
      ensures !loading && Valid()
      ensures inputText == old(inputText) && models == old(models) && selectedModel == old(selectedModel)
      ensures sourceLanguage == old(sourceLanguage) && typingTimeout == old(typingTimeout)
      ensures timers == old(timers) && nextTimer == old(nextTimer)
    {
      if !HasContent(textToTranslate) {
        return;
      }
      loading := true;
      requests := requests + [Request(model, Prompt(textToTranslate, language))];
      translation := TranslationAfter(reply);
      loading := false;
    }

    /** An armed timer fires (a cleared one never does) and runs its callback. */
    method FireTimer(id: nat, reply: GenerateReply)
      requires Valid() && id in timers
      modifies this
      ensures timers == map[]
      ensures var p := old(timers)[id];
        requests == old(requests) + [Request(p.model, Prompt(p.text, p.language))] &&
        translation == TranslationAfter(reply)
      ensures Valid()
      ensures inputText == old(inputText) && sourceLanguage == old(sourceLanguage)
      ensures models == old(models) && selectedModel == old(selectedModel)
      ensures typingTimeout == old(typingTimeout) && nextTimer == old(nextTimer)
    {
      var p := timers[id];
      assert forall k :: k in timers ==> k == id;
      timers := timers - {id};
      assert timers == map[];
      Translate(p.text, p.language, p.model, reply);
    }

    /** The translate button: `handleTranslate()` with its default argument, the current
        input, in the current render. */
    method ClickTranslate(reply: GenerateReply)
      requires Valid()
      modifies this
      ensures TranslateButtonEnabled(old(inputText), old(loading)) ==>
        requests == old(requests) + [Request(selectedModel, Prompt(inputText, sourceLanguage))] &&
        translation == TranslationAfter(reply)
      ensures !TranslateButtonEnabled(old(inputText), old(loading)) ==>
        requests == old(requests) && translation == old(translation)
      ensures !loading && Valid()
      ensures inputText == old(inputText) && sourceLanguage == old(sourceLanguage)
      ensures models == old(models) && selectedModel == old(selectedModel)
      ensures typingTimeout == old(typingTimeout) && timers == old(timers) && nextTimer == old(nextTimer)
    {
      TranslateButtonEnabledIff(inputText, loading);
      Translate(inputText, sourceLanguage, selectedModel, reply);
    }
  }

  /** Between events at most one debounced translation is armed. */
  lemma AtMostOnePending(v: View)
    requires v.Valid()
    ensures |v.timers| <= 1
  {
    if v.typingTimeout.None? {
      assert v.timers == map[];
    } else {
      var t := v.typingTimeout.value;
      assert forall k :: k in v.timers ==> k == t;
      assert v.timers.Keys == if t in v.timers then {t} else {};
    }
  }

  /** A fresh window and one input change to "hello" under the code as written: the armed
      translation carries the initial Chinese direction although "hello" was detected as
      English, so its prompt asks for Chinese to be translated into English. */
  method StaleLanguageScenario() returns (armed: Pending, detected: Lang)
    ensures armed.text == "hello" && armed.language == Zh && detected == En
    ensures Prompt(armed.text, armed.language) != Prompt(armed.text, detected)
  {
    var v := new View();
    assert "hello"[0] == 'h';
    v.HandleInputChangeAsWritten("hello");
    armed := v.timers[v.typingTimeout.value];
    detected := v.sourceLanguage;
    if Prompt(armed.text, armed.language) == Prompt(armed.text, detected) {
      PromptInjective(armed.text, armed.language, armed.text, detected);
    }
  }

  /** The same input change with the corrected handler arms the English direction. */
  method DetectedLanguageScenario() returns (armed: Pending, detected: Lang)
    ensures armed.text == "hello" && armed.language == En && detected == En
  {
    var v := new View();
    assert "hello"[0] == 'h';
    v.HandleInputChange("hello");
    armed := v.timers[v.typingTimeout.value];
    detected := v.sourceLanguage;
  }
}
