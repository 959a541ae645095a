/** src/main/utils/textCapture.ts: the AppleScript run by `osascript`, which tries four
    ways of reading the selected text in order, and the TypeScript side that parses the
    script's standard output. What System Events and the frontmost application answer is
    given as data: each query either answers a value or raises an AppleScript error. */
module TextCapture {
  import opened Wrappers
  import opened JsText
  import opened ChildProcess

  /** The outcome of one AppleScript query: a value, or an error the script catches. */
  datatype Answer<T> = Answered(value: T) | Raised

  /** One element of `UI elements of window 1`: its `role` and its `AXSelectedText`. */
  datatype UiElement = UiElement(role: Answer<string>, selectedText: Answer<string>)

  /** The frontmost process's first window as System Events sees it: its UI elements and
      its own `AXSelectedText` attribute. */
  datatype AxWindow = AxWindow(elements: Answer<seq<UiElement>>, selectedText: Answer<string>)

  /** What step 4 observes: `pbpaste` before, the Command-C keystroke (true when it did not
      raise), and `pbpaste` after the half-second delay. */
  datatype CopyProbe = CopyProbe(before: Answer<string>, keystroke: bool, after: Answer<string>)

  predicate IsTextRole(role: string) {
    role == "AXTextArea" || role == "AXTextField"
  }

  /** The `repeat with elem in uiElements` loop on its own: the selected text of the first
      text-role element whose `AXSelectedText` is non-empty; empty when there is none, or
      when reading a role raises first (that error leaves the loop). */
  function FirstTextSelection(elems: seq<UiElement>): string
  {
    if elems == [] then ""
    else
      match elems[0].role
      case Raised => ""
      case Answered(role) =>
        if IsTextRole(role) && elems[0].selectedText.Answered? && elems[0].selectedText.value != ""
        then elems[0].selectedText.value
        else FirstTextSelection(elems[1..])
  }

  /** Strategy 1 (script step 2): the window's `AXSelectedText`; only when reading it raises,
      the element loop. Listing the UI elements raising skips the whole step. */
  function AxStrategy(w: AxWindow): string {
    match w.elements
    case Raised => ""
    case Answered(elems) =>
      match w.selectedText
      case Answered(t) => t
      case Raised => FirstTextSelection(elems)
  }

  /** Strategy 2 (script step 3): `get the selection as text` of the frontmost application. */
  function AppSelectionStrategy(a: Answer<string>): string {
    match a
    case Answered(t) => t
    case Raised => ""
  }

  /** Strategy 3 (script step 4): the clipboard after a synthetic Command-C, taken only when
      it differs from the clipboard before. */
  function SyntheticCopyStrategy(c: CopyProbe): string {
    if c.before.Answered? && c.keystroke && c.after.Answered? && c.after.value != c.before.value
    then c.after.value
    else ""
  }

  /** The first non-empty outcome, in order; empty when every outcome is empty. */
  function FirstNonEmpty(outcomes: seq<string>): string {
    if outcomes == [] then ""
    else if outcomes[0] != "" then outcomes[0]
    else FirstNonEmpty(outcomes[1..])
  }

  lemma FirstNonEmptyOfThree(a: string, b: string, c: string)
    ensures FirstNonEmpty([a, b, c]) == if a != "" then a else if b != "" then b else c
  {
    assert [a, b, c][1..] == [b, c];
    assert [b, c][1..] == [c];
    assert [c][1..] == [];
    assert FirstNonEmpty([c]) == c;
    assert FirstNonEmpty([b, c]) == if b != "" then b else c;
  }

  /** The cascade as an ordered list of independent strategies. */
  function Cascade(w: AxWindow, app: Answer<string>, copy: CopyProbe): string {
    FirstNonEmpty([AxStrategy(w), AppSelectionStrategy(app), SyntheticCopyStrategy(copy)])
  }

  /** The AppleScript's `on run` handler, step by step: `selectedText` starts empty, each
      later step runs only while it is still `""`, and every error is caught. */
  method RunScript(w: AxWindow, app: Answer<string>, copy: CopyProbe) returns (selectedText: string)
    ensures selectedText == Cascade(w, app, copy)
  {
    selectedText := "";
    // Step 2: accessibility attributes.
    match w.elements {
      case Raised =>
      case Answered(elems) =>
        match w.selectedText {
          case Answered(t) =>
            selectedText := t;
          case Raised =>
            var i := 0;
            while i < |elems|
              invariant 0 <= i <= |elems|
              invariant selectedText == ""
              invariant FirstTextSelection(elems[i..]) == FirstTextSelection(elems)
            {
              var elem := elems[i];
              assert elems[i..][0] == elem && elems[i..][1..] == elems[i + 1..];
              if elem.role.Raised? {
                break;
              }
              if IsTextRole(elem.role.value) && elem.selectedText.Answered? {
                selectedText := elem.selectedText.value;
                if selectedText != "" {
                  break;
                }
              }
              i := i + 1;
            }
            assert i == |elems| ==> elems[i..] == [];
        }
    }
    assert selectedText == AxStrategy(w);
    // Step 3: the application's own selection.
    if selectedText == "" {
      if app.Answered? {
        selectedText := app.value;
      }
    }
    // Step 4: synthetic copy and clipboard comparison.
    if selectedText == "" {
      if copy.before.Answered? && copy.keystroke && copy.after.Answered? {
        if copy.after.value != copy.before.value {
          selectedText := copy.after.value;
        }
      }
    }
    FirstNonEmptyOfThree(AxStrategy(w), AppSelectionStrategy(app), SyntheticCopyStrategy(copy));
  }

  /** A strategy whose predecessors all came back empty decides the result. */
  lemma {:induction false} FirstNonEmptyPicksFirst(outcomes: seq<string>, k: nat)
    requires k < |outcomes| && outcomes[k] != ""
    requires forall j :: 0 <= j < k ==> outcomes[j] == ""
    ensures FirstNonEmpty(outcomes) == outcomes[k]
    decreases k
  {
    if k > 0 {
      FirstNonEmptyPicksFirst(outcomes[1..], k - 1);
    }
  }

  /** The cascade comes back empty only when every strategy did. */
  lemma {:induction false} FirstNonEmptyEmptyIff(outcomes: seq<string>)
    ensures FirstNonEmpty(outcomes) == "" <==> forall j :: 0 <= j < |outcomes| ==> outcomes[j] == ""
    decreases |outcomes|
  {
    if outcomes != [] {
      FirstNonEmptyEmptyIff(outcomes[1..]);
      assert forall j :: 1 <= j < |outcomes| ==> outcomes[j] == outcomes[1..][j - 1];
    }
  }

  /** The strategies run in the declared order: once one yields text, no later one is
      consulted. */
  lemma CascadeOrder(w: AxWindow, app: Answer<string>, copy: CopyProbe)
    ensures AxStrategy(w) != "" ==> Cascade(w, app, copy) == AxStrategy(w)
    ensures AxStrategy(w) == "" && AppSelectionStrategy(app) != "" ==>
      Cascade(w, app, copy) == AppSelectionStrategy(app)
    ensures AxStrategy(w) == "" && AppSelectionStrategy(app) == "" ==>
      Cascade(w, app, copy) == SyntheticCopyStrategy(copy)
  {
    FirstNonEmptyOfThree(AxStrategy(w), AppSelectionStrategy(app), SyntheticCopyStrategy(copy));
  }

  /** In the element loop the first text-role element with a non-empty `AXSelectedText`
      wins, provided every earlier element's role could be read. */
  lemma {:induction false} FirstTextSelectionWins(elems: seq<UiElement>, k: nat)
    requires k < |elems|
    requires elems[k].role.Answered? && IsTextRole(elems[k].role.value)
    requires elems[k].selectedText.Answered? && elems[k].selectedText.value != ""
    requires forall j :: 0 <= j < k ==> (elems[j].role.Answered? &&
      (IsTextRole(elems[j].role.value) && elems[j].selectedText.Answered? ==> elems[j].selectedText.value == ""))
    ensures FirstTextSelection(elems) == elems[k].selectedText.value
    decreases k
  {
    if k > 0 {
      assert forall j :: 0 <= j < k - 1 ==> elems[1..][j] == elems[j + 1];
      FirstTextSelectionWins(elems[1..], k - 1);
    }
  }

  /** Whatever the element loop returns is the selected text of a text-role element. */
  lemma {:induction false} FirstTextSelectionFromTextRole(elems: seq<UiElement>)
    ensures FirstTextSelection(elems) != "" ==>
      exists k :: 0 <= k < |elems| && elems[k].role.Answered? && IsTextRole(elems[k].role.value) &&
        elems[k].selectedText == Answered(FirstTextSelection(elems))
    decreases |elems|
  {
    if elems != [] && elems[0].role.Answered? {
      FirstTextSelectionFromTextRole(elems[1..]);
      if FirstTextSelection(elems) != "" && FirstTextSelection(elems) == FirstTextSelection(elems[1..]) &&
         !(IsTextRole(elems[0].role.value) && elems[0].selectedText.Answered? && elems[0].selectedText.value != "") {
        var k :| 0 <= k < |elems[1..]| && elems[1..][k].role.Answered? && IsTextRole(elems[1..][k].role.value) &&
          elems[1..][k].selectedText == Answered(FirstTextSelection(elems));
        assert elems[k + 1] == elems[1..][k];
      }
    }
  }

  // ---------------------------------------------------------------------------------
  // The TypeScript side: `osascript` and the parse of its output.

  datatype CaptureError = ScriptFailed

  /** What `osascript` prints for the returned list `{selectedText, debug_log}`: the two
      items joined by `", "` and a newline. */
  function ScriptStdout(selectedText: string, debugLog: string): string {
    selectedText + Sep + debugLog + "\n"
  }

  /** The parse in the `exec` callback: trim, take the first `", "`-separated piece and
      strip one pair of surrounding double quotes. */
  function ParseScriptOutput(stdout: string): (r: string)
    ensures NoSep(r)
    ensures |r| <= |stdout|
  {
    var t := Trim(stdout);
    var piece := FirstPiece(t);
    assert |piece| <= |t| <= |stdout|;
    StripQuotesKeepsNoSep(piece);
    StripQuotes(piece)
  }

  /** `captureSelectedText`: a failed `osascript` run rejects, otherwise the promise resolves
      with the parsed text. (The `catch` around the parse cannot fire: `split` always yields
      a first piece and `replace` does not throw.) */
  function CaptureSelectedText(run: ExecOutcome): (r: Result<string, CaptureError>)
    ensures r.Failure? <==> run.ExecFailed?
    ensures r.Success? ==> NoSep(r.value)
  {
    match run
    case ExecFailed => Failure(ScriptFailed)
    case ExecOutput(stdout) => Success(ParseScriptOutput(stdout))
  }

  /** The parse gives back the script's selected text whenever that text could survive the
      trip through `osascript`'s output: it has no `", "`, does not start with whitespace and
      is not wrapped in double quotes. The debug log is never blank (it starts with the
      step 1 line). */
  lemma ParseRecoversSelection(selectedText: string, debugLog: string)
    requires NoSep(selectedText)
    requires selectedText == [] || !IsWhitespace(selectedText[0])
    requires !IsQuotedLine(selectedText)
    requires !AllWhitespace(debugLog)
    ensures CaptureSelectedText(ExecOutput(ScriptStdout(selectedText, debugLog))) == Success(selectedText)
  {
    var stdout := ScriptStdout(selectedText, debugLog);
    var head := selectedText + Sep;
    assert stdout == head + (debugLog + "\n");
    assert stdout[0] == (if selectedText == [] then ',' else selectedText[0]);
    TrimStartKeeps(stdout);
    assert !AllWhitespace(debugLog + "\n") by {
      var i :| 0 <= i < |debugLog| && !IsWhitespace(debugLog[i]);
      assert (debugLog + "\n")[i] == debugLog[i];
    }
    TrimEndOfConcat(head, debugLog + "\n");
    var tail := TrimEnd(debugLog + "\n");
    assert Trim(stdout) == selectedText + Sep + tail;
    SplitAfterFirst(selectedText, tail);
  }

  /** A quoted value spanning lines keeps its quotes: the `.` of `^"(.*)"$` does not match
      a line terminator. */
  lemma MultilineQuotesKept()
    ensures StripQuotes("\"a\nb\"") == "\"a\nb\""
  {
    assert IsLineTerminator("\"a\nb\""[2]);
  }
}
