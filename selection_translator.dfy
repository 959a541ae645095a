/** The selection popup's view, src/SelectionTranslator.tsx: a `translate-selection`
    message stores the text and its detected language and translates it in that language
    with the fixed model; the close button only asks the main process to hide the popup. */
module SelectionTranslator {
  import opened Wrappers
  import opened Translation

  /** The IPC channel the close button sends on. */
  const HideChannel: string := "hide-selection-window"

  class View {
    var text: string
    var translation: Option<string>
    var loading: bool
    var sourceLanguage: Lang
    /** The `/api/generate` requests sent so far. */
    var requests: seq<Request>
    /** The IPC messages sent to the main process so far. */
    var sent: seq<string>

    constructor ()
      ensures text == "" && translation == Some("") && !loading && sourceLanguage == Zh
      ensures requests == [] && sent == []
    {
      text := "";
      translation := Some("");
      loading := false;
      sourceLanguage := Zh;
      requests := [];
      sent := [];
    }

    /** `translateText`: there is no content guard here, so every call sends one request;
        the translation is the reply's `response` or the error message, and `finally`
        clears `loading`. */
    method TranslateText(t: string, sourceLang: Lang, reply: GenerateReply)
      modifies this
      ensures requests == old(requests) + [Request(SelectionModel, Prompt(t, sourceLang))]
      ensures translation == TranslationAfter(reply)
      ensures !loading
      ensures text == old(text) && sourceLanguage == old(sourceLanguage) && sent == old(sent)
    {
      loading := true;
      requests := requests + [Request(SelectionModel, Prompt(t, sourceLang))];
      translation := TranslationAfter(reply);
      loading := false;
    }

    /** The `translate-selection` listener: the payload becomes `text`, its detected
        language becomes `sourceLanguage`, and that same language directs the request. */
    method OnTranslateSelection(selectedText: string, reply: GenerateReply)
      modifies this
      ensures text == selectedText && sourceLanguage == DetectLanguage(selectedText)
      ensures requests == old(requests) + [Request(SelectionModel, Prompt(selectedText, sourceLanguage))]
      ensures translation == TranslationAfter(reply)
      ensures !loading && sent == old(sent)
    {
      text := selectedText;
      var detectedLang := DetectLanguage(selectedText);
      sourceLanguage := detectedLang;
      TranslateText(selectedText, detectedLang, reply);
    }

    /** `handleClose`: one IPC message and no change to the view. */
    method HandleClose()
      modifies this
      ensures sent == old(sent) + [HideChannel]
      ensures text == old(text) && translation == old(translation) && loading == old(loading)
      ensures sourceLanguage == old(sourceLanguage) && requests == old(requests)
    {
      sent := sent + [HideChannel];
    }
  }

  /** The request of a `translate-selection` message translates out of Chinese exactly when
      the selection contains a CJK character, and carries the selection itself. */
  lemma SelectionRequestDirection(selectedText: string)
    ensures var p := Prompt(selectedText, DetectLanguage(selectedText));
      PromptText(p) == selectedText &&
      (p[|Preamble| + 3] == '中' <==> exists i :: 0 <= i < |selectedText| && IsCjk(selectedText[i]))
  {
    var lang := DetectLanguage(selectedText);
    PromptTextRecovers(selectedText, lang);
    var p := Prompt(selectedText, lang);
    assert p[|Preamble| + 3] == Instruction(lang)[3];
  }
}
