/** What the three translator views share: the language guess of `detectLanguage`, the
    prompts sent to Ollama's `/api/generate`, and what a reply leaves in the translation
    field. `detectLanguage` is written out twice in the repository (src/renderer/App.tsx
    and src/SelectionTranslator.tsx) with the same body; it is defined once here. */
module Translation {
  import opened Wrappers

  datatype Lang = Zh | En

  /** The character class `[一-龥]`. */
  predicate IsCjk(c: char) {
    '一' <= c <= '龥'
  }

  /** `detectLanguage`: `zhPattern.test(text) ? 'zh' : 'en'`. */
  function DetectLanguage(text: string): (r: Lang)
    ensures r == Zh <==> exists i :: 0 <= i < |text| && IsCjk(text[i])
  {
    if text == [] then En
    else if IsCjk(text[0]) then Zh
    else
      var r := DetectLanguage(text[1..]);
      assert forall i :: 1 <= i < |text| ==> text[i] == text[1..][i - 1];
      r
  }

  /** One CJK character anywhere decides the language, whatever the rest of the text. */
  lemma {:induction false} DetectLanguageOfConcat(a: string, b: string)
    ensures DetectLanguage(a + b) == Zh <==> DetectLanguage(a) == Zh || DetectLanguage(b) == Zh
  {
    if DetectLanguage(a + b) == Zh {
      var i :| 0 <= i < |a + b| && IsCjk((a + b)[i]);
      if i < |a| {
        assert a[i] == (a + b)[i];
      } else {
        assert b[i - |a|] == (a + b)[i];
      }
    }
    if DetectLanguage(a) == Zh {
      var i :| 0 <= i < |a| && IsCjk(a[i]);
      assert (a + b)[i] == a[i];
    }
    if DetectLanguage(b) == Zh {
      var i :| 0 <= i < |b| && IsCjk(b[i]);
      assert (a + b)[|a| + i] == b[i];
    }
  }

  const ZhToEn: string := "将以下中文翻译成英文："
  const EnToZh: string := "将以下英文翻译成中文："
  const Preamble: string := "You are a professional translator. "
  const Closing: string := ". Only return the translated text, no explanations."

  /** The instruction picked by the source language: Chinese to English for `zh`,
      English to Chinese otherwise. */
  function Instruction(lang: Lang): (r: string)
    ensures |r| == 11
    ensures r[3] == (if lang == Zh then '中' else '英')
  {
    if lang == Zh then ZhToEn else EnToZh
  }

  /** The prompt of src/renderer/App.tsx and src/SelectionTranslator.tsx: the preamble,
      the instruction, a blank line, the text, and the closing request. */
  function Prompt(text: string, lang: Lang): string {
    Preamble + Instruction(lang) + "\n\n" + text + Closing
  }

  /** The prompt carries both the text and the direction: two prompts are equal only when
      their texts and their languages are. */
  lemma PromptInjective(t1: string, l1: Lang, t2: string, l2: Lang)
    requires Prompt(t1, l1) == Prompt(t2, l2)
    ensures t1 == t2 && l1 == l2
  {
    var p := Prompt(t1, l1);
    var k := |Preamble| + 11 + 2;
    assert |t1| == |t2|;
    assert p[|Preamble| + 3] == Instruction(l1)[3];
    assert Prompt(t2, l2)[|Preamble| + 3] == Instruction(l2)[3];
    assert p[k..k + |t1|] == t1;
    assert Prompt(t2, l2)[k..k + |t2|] == t2;
  }

  /** The text inside a prompt, as `PromptText(Prompt(t, l)) == t` recovers it. */
  function PromptText(p: string): string
    requires |p| >= |Preamble| + 13 + |Closing|
  {
    p[|Preamble| + 13..|p| - |Closing|]
  }

  lemma PromptTextRecovers(text: string, lang: Lang)
    ensures |Prompt(text, lang)| >= |Preamble| + 13 + |Closing|
    ensures PromptText(Prompt(text, lang)) == text
  {
    var p := Prompt(text, lang);
    assert p == (Preamble + Instruction(lang) + "\n\n") + text + Closing;
  }

  /** The language code written into the prompt of src/App.tsx. */
  function Code(lang: Lang): (r: string)
    ensures |r| == 2
    ensures r == "zh" <==> lang == Zh
  {
    if lang == Zh then "zh" else "en"
  }

  const FromPrefix: string := "You are a professional translator. Please translate the following text from "
  const FromClosing: string := ". Only return the translated text, no explanations:\n\n"

  /** The prompt of src/App.tsx: both language codes, then the text after a blank line. */
  function DirectedPrompt(text: string, source: Lang, target: Lang): string {
    FromPrefix + Code(source) + " to " + Code(target) + FromClosing + text
  }

  /** Slicing a five-part concatenation whose second and fourth parts have length 2. */
  lemma FiveParts(a: string, b: string, c: string, d: string, e: string)
    requires |b| == 2 && |d| == 2
    ensures var p := a + b + c + d + e;
      |p| == |a| + 4 + |c| + |e| &&
      p[|a|..|a| + 2] == b && p[|a| + 2 + |c|..|a| + 4 + |c|] == d && p[|a| + 4 + |c|..] == e
  {
    var p := a + b + c + d + e;
    assert p == a + (b + c + d) + e;
    assert p[|a|..|a| + 2] == (b + c + d)[..2];
    assert p == (a + b + c) + (d + e);
  }

  /** The directed prompt names its languages and ends with exactly the text. */
  lemma DirectedPromptParts(text: string, source: Lang, target: Lang)
    ensures |DirectedPrompt(text, source, target)| == |FromPrefix| + 8 + |FromClosing| + |text|
    ensures DirectedPrompt(text, source, target)[|FromPrefix|..|FromPrefix| + 2] == Code(source)
    ensures DirectedPrompt(text, source, target)[|FromPrefix| + 6..|FromPrefix| + 8] == Code(target)
    ensures DirectedPrompt(text, source, target)[|FromPrefix| + 8 + |FromClosing|..] == text
  {
    FiveParts(FromPrefix, Code(source), " to ", Code(target), FromClosing + text);
    assert DirectedPrompt(text, source, target) ==
      FromPrefix + Code(source) + " to " + Code(target) + (FromClosing + text);
    var p := DirectedPrompt(text, source, target);
    assert p[|FromPrefix| + 8..] == FromClosing + text;
  }

  /** The model named by the selection popup's requests. */
  const SelectionModel: string := "qwen2.5-coder"

  /** The message shown when the request or its JSON decoding throws. */
  const ErrorMessage: string := "翻译出错，请检查 Ollama 服务是否运行"

  /** One POST to `/api/generate`. */
  datatype Request = Request(model: string, prompt: string)

  /** How a `/api/generate` round came back: `fetch` or `response.json()` threw, or a JSON
      object arrived whose `response` field may be missing (`undefined`). */
  datatype GenerateReply = GenerateThrew | Generated(response: Option<string>)

  /** How `/api/tags` came back: `fetch` or `json()` threw, or an object arrived whose
      `models` field (the model names) may be missing. */
  datatype TagsReply = TagsThrew | Tags(models: Option<seq<string>>)

  /** What `setTranslation` receives: the reply's `response` field as it is (possibly
      `undefined`), or the fixed error message when the round threw. */
  function TranslationAfter(reply: GenerateReply): Option<string> {
    match reply
    case GenerateThrew => Some(ErrorMessage)
    case Generated(response) => response
  }
}
