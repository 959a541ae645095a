# A Dafny model of the selection translator

The repository is an Electron desktop application. It translates text between Chinese and
English with a local Ollama server. The model covers five parts of it:

- **The main process** (`src/main/main.ts`). A global hotkey reads the selected text, by a
  macOS AppleScript cascade or the X11 primary selection, or reads text from the screen by
  OCR. The text goes to the main window. The model also covers the global-shortcut
  registry and the permission checks. It also covers the selection popup's handlers: the
  toggle and pin hotkeys, and the `pin-selection-window`, `hide-selection-window` and
  `start-window-drag` messages. In the source, nothing calls `createSelectionWindow`
  (main.ts line 462) or `sendTextToWindow` (line 440). So `selectionWindow` stays `null`
  and all of those handlers do nothing. The model offers `App.CreateSelectionWindow` as
  an event of its own, to state what the handlers would do once a popup existed.
- **Text capture** (`src/main/utils/textCapture.ts`). The four-step AppleScript and the
  parse of what `osascript` prints.
- **OCR** (`src/main/utils/ocr.ts`). The mouse query and the 300×200 capture rectangle, the
  temporary PNG, the quoted `curl` command line and the reply handling.
- **The three React views**:
  - the main translator window (`src/renderer/App.tsx`), with its 500 ms debounce;
  - the selection popup (`src/SelectionTranslator.tsx`);
  - the standalone model-picker page (`src/App.tsx`).
- **The theme context** (`src/contexts/ThemeContext.tsx`).

The modules follow those files:

- `Shortcuts`: constants and the registration pass.
- `TextCapture`, `Ocr` and `MainProcess`. `MainProcess` holds the class `App`, whose fields
  are `main.ts`'s module-level state.
- `Translation`: the language guess and the prompts the views share.
- `RendererApp`, `SelectionTranslator` and `ModelPickerApp`: each view is a class holding its
  React state cells.
- `ThemeContext`: the class `ThemeProvider`, with the state and `localStorage`.
- Shared helpers: `JsText` holds the JavaScript string semantics the guards rely on (`trim`,
  `s && s.trim()`, `split(", ")`, the `^"(.*)"$` replace, `parseInt`). `Wrappers` holds
  Option and Result. `ChildProcess` holds the outcome of `exec`.

The outside world enters as parameters. That covers what a subprocess printed, whether a
capture or a read failed, what the operating system answered to each `register` call, the
clipboard at each read, and the server's reply. Every message, notification or dialog the
main process causes is appended to the trace `App.trace`.

Some behaviour follows the code rather than the documented intent:

- **The temporary OCR image:**
  - it is kept when `readFileSync` throws and when `curl` fails;
  - it is deleted only in the `exec` callback (`Ocr.TempImageLeftIff`).
- **The capture rectangle** is only floored at 0. Nothing clamps it to the work area on the
  right or at the bottom.
- **The popup position clamp** has no lower bound (`MainProcess.ClampHasNoLowerBound`).
- **A pinned popup** would still be moved by `sendTextToWindow`. This cannot happen in the
  program as written, because no popup is ever created.
- **`start-window-drag`** would make the popup movable whatever its pin state. This cannot
  happen either, for the same reason.
- **`did-finish-load`** re-registers without a permission check. The 5-second poll exists
  only on macOS.
- **Delivering text:**
  - in the macOS path, cascade text with content goes to the main window directly, without
    passing through `sendTextToMainWindow`;
  - on other platforms nothing is delivered and no manual-copy notice is sent when copying
    fails.

## Model

| member | source | states |
|---|---|---|
| JsText.TrimStart | src/main/utils/ocr.ts:32 | the result is a suffix of the input that does not start with whitespace |
| JsText.TrimEnd | src/main/utils/ocr.ts:32 | the result is a prefix of the input that does not end with whitespace |
| JsText.TrimStartDropsWhitespace | src/main/utils/ocr.ts:32 | every character `trimStart` drops is ECMAScript whitespace |
| JsText.TrimEndDropsWhitespace | src/main/utils/ocr.ts:32 | every character `trimEnd` drops is ECMAScript whitespace |
| JsText.Trim | src/main/utils/textCapture.ts:127 | `trim` gives the empty string exactly for all-whitespace input; otherwise the result starts and ends with a non-whitespace character |
| JsText.TrimIsInfix | src/main/utils/textCapture.ts:127 | `trim` keeps a contiguous infix of its input, starting where `trimStart` stopped |
| JsText.HasContentIff | src/main/main.ts:374 | the guard `text && text.trim()` holds exactly when some character is not whitespace |
| JsText.TrimIdempotent | src/main/main.ts:117-118 | trimming twice equals trimming once, and trimming keeps the content test, so text sent as `extractedText.trim()` passes the guard inside `sendTextToMainWindow` |
| JsText.TrimStartKeeps | src/main/utils/ocr.ts:32 | text that starts with a non-whitespace character is unchanged by `trimStart` |
| JsText.TrimEndKeeps | src/main/utils/ocr.ts:32 | text that ends with a non-whitespace character is unchanged by `trimEnd` |
| JsText.TrimEndDropsTail | src/main/utils/ocr.ts:32 | `trimEnd` removes exactly an all-whitespace tail after a visible last character |
| JsText.TrimEndOfConcat | src/main/utils/textCapture.ts:127 | `trimEnd` of `a + b`, where `b` has content, only touches `b` |
| JsText.Split | src/main/utils/textCapture.ts:130 | `split(", ")` yields at least one piece; the first piece is a prefix of the input; no piece contains the separator |
| JsText.JoinSplit | src/main/utils/textCapture.ts:130 | joining the pieces with `", "` gives the input back |
| JsText.SplitWithoutSep | src/main/utils/ocr.ts:35-36 | a string without `", "` is a single piece |
| JsText.SplitAfterFirst | src/main/utils/textCapture.ts:130-131 | `a + ", " + b` splits into `a` followed by the pieces of `b` when `a` has no separator |
| JsText.FirstPiece | src/main/utils/textCapture.ts:131 | `parts[0]` is a separator-free prefix of the input, and is the whole input when the input has no separator |
| JsText.StripQuotes | src/main/utils/textCapture.ts:131 | `replace(/^"(.*)"$/, '$1')` removes one pair of surrounding quotes exactly when the whole string matches, line terminators excluded from `.` |
| JsText.StripQuotesKeepsNoSep | src/main/utils/textCapture.ts:131 | stripping quotes cannot create a separator |
| JsText.DigitValue | src/main/utils/ocr.ts:42-43 | the decimal digits are exactly the characters of value below 10, each worth its numeral; the hexadecimal digits are exactly those below 16; no value exceeds 36 |
| JsText.DigitPrefix | src/main/utils/ocr.ts:42-43 | the digit run `parseInt` reads is the longest prefix of digits valid in the radix |
| JsText.ParseInt | src/main/utils/ocr.ts:42-43 | `parseInt` gives NaN exactly when no digit follows the whitespace, sign and hex prefix |
| JsText.NatString | src/main/utils/ocr.ts:31 | the decimal text of a natural number is a non-empty run of digits |
| JsText.NatStringValue | src/main/utils/ocr.ts:42-43 | the digits of `NatString(n)` denote `n` |
| JsText.DigitPrefixOfDigits | src/main/utils/ocr.ts:42-43 | a string of decimal digits is read whole |
| JsText.ParseIntString | src/main/utils/ocr.ts:42-43 | `parseInt` reads back the decimal text of every integer, negative ones included |
| Shortcuts.RegistrationOrder | src/main/main.ts:145-199 | the pass makes exactly five `register` calls |
| Shortcuts.RegistrationOrderDistinct | src/config/shortcuts.ts:1-13 | the five accelerators (the two translation keys, the OCR key, toggle and pin) are pairwise distinct on either platform |
| Shortcuts.RegisteredAmongHead | src/main/main.ts:142-206 | the first answer of a pass decides it: a throw leaves nothing more registered, otherwise the accelerator is added when accepted and the pass goes on |
| Shortcuts.RegisteredAfterPassSteps | src/main/main.ts:139-206 | after `unregisterAll`, the registry holds exactly what the calls before the first throw registered, call by call |
| Shortcuts.RegisteredAmongWithin | src/main/main.ts:142-206 | a pass registers only accelerators it tried and the system accepted |
| Shortcuts.RegisteredAmongIff | src/main/main.ts:142-206 | an accelerator is registered after a pass iff it was accepted and no earlier call threw |
| Shortcuts.RefusalDoesNotStopLater | src/main/main.ts:145-154 | a `false` from one call does not keep later accelerators from being registered |
| Shortcuts.ThrowAbortsRest | src/main/main.ts:204-206 | a call that throws leaves neither its accelerator nor any later one registered |
| Shortcuts.CaptureRegisteredAfterPassIff | src/main/main.ts:546-558 | after a pass, `areShortcutsRegistered` holds iff the primary, alternate and OCR accelerators were each accepted |
| Shortcuts.CaptureCheckIgnoresToggleAndPin | src/main/main.ts:546-558 | `areShortcutsRegistered` does not depend on the toggle and pin accelerators |
| TextCapture.FirstNonEmptyOfThree | src/main/utils/textCapture.ts:65-104 | the three-step cascade written out as nested conditionals |
| TextCapture.RunScript | src/main/utils/textCapture.ts:12-108 | the step-by-step script, with its element loop and every `try`, returns the first non-empty outcome of three independent strategies: the window's or a text element's `AXSelectedText` (step 2), the application's selection (step 3), and the clipboard after a synthetic copy when it changed (step 4) |
| TextCapture.FirstNonEmptyPicksFirst | src/main/utils/textCapture.ts:65-104 | a strategy whose predecessors all came back empty and which yields text decides the result |
| TextCapture.FirstNonEmptyEmptyIff | src/main/utils/textCapture.ts:65-104 | the cascade is empty iff every strategy was |
| TextCapture.CascadeOrder | src/main/utils/textCapture.ts:65-104 | once a strategy yields text no later one is consulted |
| TextCapture.FirstTextSelectionWins | src/main/utils/textCapture.ts:44-54 | the first text-role element with a non-empty selection wins, when every earlier role could be read |
| TextCapture.FirstTextSelectionFromTextRole | src/main/utils/textCapture.ts:44-54 | whatever the loop returns is the selection of some text-role element |
| TextCapture.ParseScriptOutput | src/main/utils/textCapture.ts:127-131 | the parsed text contains no `", "` and is no longer than the output |
| TextCapture.CaptureSelectedText | src/main/utils/textCapture.ts:114-145 | the promise rejects exactly when `osascript` failed; otherwise it resolves with the parsed text |
| TextCapture.ParseRecoversSelection | src/main/utils/textCapture.ts:107-140 | the parse returns the script's text whenever that text has no `", "`, starts with a visible character and is not wrapped in quotes |
| TextCapture.MultilineQuotesKept | src/main/utils/textCapture.ts:131 | a quoted value spanning lines keeps its quotes |
| Ocr.PositionPieces | src/main/utils/ocr.ts:32-40 | the two pieces are separator-free and join back to the trimmed output |
| Ocr.ParseMousePosition | src/main/utils/ocr.ts:31-44 | rejects exactly when `split(", ")` does not give two pieces, otherwise reads both through `parseInt` |
| Ocr.IntStringChars | src/main/utils/ocr.ts:31 | a printed integer starts with a digit or a minus sign, ends with a digit and has no separator |
| Ocr.ParsePrintedPosition | src/main/utils/ocr.ts:17-44 | whatever integer position the AppleScript prints as `"x, y"` is read back exactly |
| Ocr.PiecesOfPrinted | src/main/utils/ocr.ts:32-40 | two visible separator-free pieces printed with a newline come back as the two pieces |
| Ocr.TrimDropsNewline | src/main/utils/ocr.ts:32 | trimming removes only the newline `osascript` appends |
| Ocr.PositionNeedsOneSeparator | src/main/utils/ocr.ts:36-40 | output without a separator rejects with the parse error |
| Ocr.PositionRejectsThreePieces | src/main/utils/ocr.ts:36-40 | output with two separators rejects as well |
| Ocr.ShiftFloorZero | src/main/utils/ocr.ts:47-48 | `Math.max(0, v - d)` is never negative and is `v - d` when that is not negative; NaN stays NaN |
| Ocr.RegionAround | src/main/utils/ocr.ts:46-50 | the rectangle is 300×200, centred on the pointer, floored at 0 on each axis, NaN where the coordinate is NaN |
| Ocr.PointerInsideRegion | src/main/utils/ocr.ts:46-50 | a pointer at non-negative coordinates lies inside the rectangle |
| Ocr.FileSystem.constructor | src/main/utils/ocr.ts:13 | the file system starts with the given paths |
| Ocr.CaptureStep | src/main/utils/ocr.ts:24-65 | the capture step fails exactly when the mouse query fails, its output does not parse, or screencapture fails |
| Ocr.CaptureScreenAtMouse | src/main/utils/ocr.ts:9-68 | on success the image exists at the temporary path and is returned; error cases in order; screencapture is asked for the computed rectangle only after a successful parse; no other file changes |
| Ocr.EscapeChar | src/main/utils/ocr.ts:94 | a character other than `'` is kept as it is |
| Ocr.EscapeSingleQuotes | src/main/utils/ocr.ts:94 | escaping never shortens the body |
| Ocr.EscapeWithoutQuotes | src/main/utils/ocr.ts:94 | a body without single quotes is unchanged |
| Ocr.UnquoteEscapedQuote | src/main/utils/ocr.ts:94 | inside single quotes, `'\''` reads as one quote (section 2.2.2 and 2.2.1 of the POSIX Shell Command Language) |
| Ocr.UnquoteOrdinary | src/main/utils/ocr.ts:94 | inside single quotes every other character stands for itself |
| Ocr.PrependOfPrependAll | src/main/utils/ocr.ts:94 | prepending one character then a string is prepending their concatenation |
| Ocr.UnquoteEscapedCons | src/main/utils/ocr.ts:94 | one escaped character in front of a readable rest reads back as that character |
| Ocr.UnquoteEscaped | src/main/utils/ocr.ts:94 | the escaped body followed by the closing quote reads back as the body, then the rest of the word |
| Ocr.SingleQuotedRoundTrip | src/main/utils/ocr.ts:94 | the shell reads the quoted `-d` word back as exactly the request body, whatever quotes or special characters it holds |
| Ocr.ExtractOutcome | src/main/utils/ocr.ts:79-117 | a read failure, a curl failure and an unparsable reply each give their error; a reply with a truthy `response` gives that text; any other reply gives no text |
| Ocr.ExtractTextWithLlama | src/main/utils/ocr.ts:73-132 | settles with `ExtractOutcome`; the shell gets the quoted curl command once the image is read; the image is removed exactly when curl returned and `unlinkSync` succeeded |
| Ocr.TempImageLeftIff | src/main/utils/ocr.ts:96-125 | with a fresh temporary path, the image is left behind iff it was captured and then the read, curl or unlink failed |
| Ocr.OcrTouchesOnlyImage | src/main/utils/ocr.ts:119-125 | no file other than the temporary image is created or removed |
| Ocr.RemovedEvenWithoutText | src/main/utils/ocr.ts:103-125 | an unparsable reply or one without text still removes the image and fails |
| Ocr.OcrSuccessNeeds | src/main/utils/ocr.ts:24-117 | OCR succeeds only after the mouse query, the capture and the read succeeded, with the non-empty `response` curl delivered |
| MainProcess.PermissionGranted | src/main/main.ts:13-34 | only macOS asks; there the result is the trust flag, and a denial is exactly when the dialog appears |
| MainProcess.SendEvents | src/main/main.ts:371-431 | text is delivered exactly when it has content and a main window exists, and nothing else is emitted |
| MainProcess.ClipboardEventsExclusive | src/main/main.ts:358-369 | the clipboard text is delivered iff it has content, differs from the snapshot and a window exists; the manual-copy notice appears iff it was not accepted; never both |
| MainProcess.UnchangedClipboardRejected | src/main/main.ts:362 | an unchanged clipboard is never taken for a selection |
| MainProcess.OcrEventsTrimmed | src/main/main.ts:116-126 | OCR text is delivered trimmed when trimming leaves something; every failure and every empty result sends the OCR-failed notice |
| MainProcess.DeliveredTextHasContent | src/main/main.ts:117-118 | whatever OCR delivers has content, is already trimmed and is the trimmed extracted text |
| MainProcess.OtherSelection | src/main/main.ts:322 | `readText('selection') \|\| readText()`: an empty selection falls back to the clipboard |
| MainProcess.MacCascadeUsedIff | src/main/main.ts:221-307 | cascade text with content is delivered alone; otherwise the menu copy runs first and the clipboard rule decides |
| MainProcess.TranslationDeliversContent | src/main/main.ts:225-348 | every text the translation hotkey delivers, on either platform, has content |
| MainProcess.ClampPopupPosition | src/main/main.ts:445-453 | the popup ends inside the work area on the right and at the bottom; the cursor coordinate is kept when it fits, otherwise the popup is flush with that edge |
| MainProcess.ClampHasNoLowerBound | src/main/main.ts:445-453 | a work area narrower than the popup puts it at a negative x |
| MainProcess.ClampIdempotent | src/main/main.ts:445-453 | clamping twice changes nothing more |
| MainProcess.Pinned | src/main/main.ts:531-536 | pinning keeps the visibility and the position |
| MainProcess.PinCouplesFlags | src/main/main.ts:531-536 | after a pin message always-on-top equals the pin flag and is the opposite of movable; repeating it changes nothing |
| MainProcess.Toggled | src/main/main.ts:188-196 | the toggle hotkey flips the visibility and nothing else |
| MainProcess.ToggleTwiceRestores | src/main/main.ts:188-196 | toggling twice restores the popup |
| MainProcess.Repeat | src/main/main.ts:494-498 | `count` copies of one event |
| MainProcess.App.constructor | src/main/main.ts:8-9 | no windows, no accelerators and no events at module load |
| MainProcess.App.CheckAccessibilityPermission | src/main/main.ts:13-34 | returns `PermissionGranted`, emits the dialog and, when the user picks the settings button, the prompt; nothing else changes |
| MainProcess.App.Register | src/main/main.ts:145 | one `register` call adds its accelerator exactly when accepted and reports a throw |
| MainProcess.App.RegisterGlobalShortcuts | src/main/main.ts:136-207 | the registry after the pass is `RegisteredAfterPass`, whatever it held before; nothing else changes |
| MainProcess.App.CreateWindow | src/main/main.ts:36-67 | a main window exists afterwards; the shortcuts are registered exactly when permission holds |
| MainProcess.App.OnDidFinishLoad | src/main/main.ts:70-79 | fires only while a main window exists; re-registers only when `areShortcutsRegistered` fails, with no permission check |
| MainProcess.App.OnPermissionPoll | src/main/main.ts:82-91 | re-registers when the check fails and permission holds; the permission check, with its dialog, runs only when the check fails |
| MainProcess.App.OnAllWindowsClosed | src/main/main.ts:508-513 | comes once no window is left; every accelerator is released; other platforms quit |
| MainProcess.App.OnActivate | src/main/main.ts:515-519 | a main window is created only when there is none; the new window brings the permission events and, when permission holds, a fresh registration pass; an existing window changes nothing |
| MainProcess.App.OnMainWindowClosed | src/main/main.ts:56-58 | the main window is gone and nothing else changes |
| MainProcess.App.SendTextToMainWindow | src/main/main.ts:371-431 | appends `SendEvents`: nothing for text without content or without a window |
| MainProcess.App.ShowManualCopyNotification | src/main/main.ts:433-438 | the notice goes out only with a main window |
| MainProcess.App.ShowOcrFailedNotification | src/main/main.ts:129-134 | the notice goes out only with a main window |
| MainProcess.App.CheckClipboardForTranslation | src/main/main.ts:358-369 | appends the clipboard rule's events |
| MainProcess.App.HandleMacTranslation | src/main/main.ts:212-318 | appends the macOS decision for the cascade's answer; a main window exists afterwards iff one existed or the cascade gave text with content |
| MainProcess.App.ActOnCapture | src/main/main.ts:222-315 | the branches after the cascade: deliver (creating a window when needed), menu copy then the clipboard rule, or the clipboard rule after a rejection |
| MainProcess.App.HandleOtherTranslation | src/main/main.ts:319-355 | appends the non-macOS decision: the selection or clipboard when it has content, else a copy from another focused window; no manual-copy notice |
| MainProcess.App.HandleOcr | src/main/main.ts:104-127 | appends the OCR events for the outcome of capture then extraction; the files end as `FilesAfterOcr` |
| MainProcess.App.DeliverOcrResult | src/main/main.ts:116-126 | the trimmed text when it has content, otherwise the OCR-failed notice |
| MainProcess.App.OnTranslateShortcut | src/main/main.ts:145-152 | fires only while the primary or alternate accelerator is registered; the translation runs, on the platform's path, only when permission holds; otherwise only the permission events; on macOS the main window exists afterwards iff it did before or the cascade yielded text with content; on other platforms it is unchanged |
| MainProcess.App.OnOcrShortcut | src/main/main.ts:170-177 | fires only while the OCR accelerator is registered; OCR runs only when permission holds; otherwise the files are untouched |
| MainProcess.App.CreateSelectionWindow | src/main/main.ts:462-503 | an existing popup is only shown; otherwise a new hidden, always-on-top, movable popup is created and one more drag listener added |
| MainProcess.App.SendTextToWindow | src/main/main.ts:440-460 | an existing popup, pinned or not, is moved to the clamped position, shown and sent the text |
| MainProcess.App.OnToggleWindowShortcut | src/main/main.ts:188-196 | fires only while the toggle accelerator is registered; the popup's visibility flips when there is one |
| MainProcess.App.OnPinShortcut | src/main/main.ts:199-203 | fires only while the pin accelerator is registered; only a `toggle-pin` request to an existing popup |
| MainProcess.App.OnPinSelectionWindow | src/main/main.ts:531-536 | the popup's flags become `Pinned` |
| MainProcess.App.OnHideSelectionWindow | src/main/main.ts:539-543 | the popup is hidden, not destroyed |
| MainProcess.App.OnStartWindowDrag | src/main/main.ts:522-528 | the popup becomes movable whatever its pin state, the drag starts, then one `start-drag` message per listener `createSelectionWindow` added (main.ts lines 494-498) |
| MainProcess.App.OnSelectionWindowClosed | src/main/main.ts:500-502 | the popup is gone |
| Translation.DetectLanguage | src/renderer/App.tsx:48-51 | the guess is Chinese iff some character is in `[一-龥]` |
| Translation.DetectLanguageOfConcat | src/SelectionTranslator.tsx:13-17 | one CJK character anywhere decides the guess |
| Translation.Instruction | src/renderer/App.tsx:78-80 | the two instructions have the same length and differ at the character naming the source language |
| Translation.PromptInjective | src/renderer/App.tsx:78-89 | two prompts are equal only when their texts and languages are |
| Translation.PromptTextRecovers | src/SelectionTranslator.tsx:43-54 | the text can be read back out of the prompt |
| Translation.Code | src/App.tsx:88 | the code is two letters, `zh` exactly for Chinese |
| Translation.DirectedPromptParts | src/App.tsx:88 | the prompt names the source and the target code at fixed places and ends with exactly the text |
| ThemeContext.InitialTheme | src/contexts/ThemeContext.tsx:22-26 | a truthy saved value is kept as it is; a missing or empty one gives light |
| ThemeContext.NextTheme | src/contexts/ThemeContext.tsx:35-41 | light goes to dark, dark to purple, anything else to light |
| ThemeContext.ThreeTogglesReturn | src/contexts/ThemeContext.tsx:35-41 | three toggles return to any of the three themes, and fewer do not |
| ThemeContext.UnrecognisedSavedThemeTogglesToLight | src/contexts/ThemeContext.tsx:22-41 | an unknown saved value is kept at start-up, is not dark, and the first toggle gives light |
| ThemeContext.ToggleDarkness | src/contexts/ThemeContext.tsx:28-41 | a toggle leads to a dark mode exactly from light or dark |
| ThemeContext.ThemeProvider.constructor | src/contexts/ThemeContext.tsx:22-33 | the initial theme comes from storage and the effect writes it back |
| ThemeContext.ThemeProvider.ToggleTheme | src/contexts/ThemeContext.tsx:30-41 | the theme becomes `NextTheme` and storage follows |
| ThemeContext.ThemeProvider.SetThemeMode | src/contexts/ThemeContext.tsx:30-33 | the theme becomes the given one and storage follows |
| RendererApp.TranslateButtonEnabledIff | src/renderer/App.tsx:144-145 | the button is enabled iff not loading and the input has content |
| RendererApp.View.constructor | src/renderer/App.tsx:23-29 | the initial cells (source language `zh`), no timers, no requests |
| RendererApp.View.FetchModels | src/renderer/App.tsx:35-46 | the list is stored as it came, possibly `undefined`; the first name is selected when the list is non-empty; a throw changes nothing |
| RendererApp.View.SelectModel | src/renderer/App.tsx:116-116 | only the selected model changes; armed timers keep the model their closure saw |
| RendererApp.View.Debounce | src/renderer/App.tsx:59-70 | the armed timer is cleared; one new timer is armed for text with content only; at most one stays armed |
| RendererApp.View.HandleInputChangeAsWritten | src/renderer/App.tsx:53-71 | stores the text and its detected language, but the armed callback carries the previous `sourceLanguage` |
| RendererApp.View.HandleInputChange | src/renderer/App.tsx:53-71 | the same, with the armed callback carrying the language just detected |
| RendererApp.View.Translate | src/renderer/App.tsx:73-102 | nothing for text without content; otherwise one request with the prompt for the closure's language and model, the reply's `response` or the error message as the translation, `loading` cleared |
| RendererApp.View.FireTimer | src/renderer/App.tsx:66-68 | an armed timer runs its callback once and is gone; the input, language, model list, selected model and timer bookkeeping are unchanged |
| RendererApp.View.ClickTranslate | src/renderer/App.tsx:144-145 | an enabled button sends the current input in the current language with the selected model; a disabled one sends nothing and keeps the translation; no other cell changes |
| RendererApp.AtMostOnePending | src/renderer/App.tsx:59-70 | between events at most one debounced translation is armed |
| RendererApp.StaleLanguageScenario | src/renderer/App.tsx:65-80 | in a fresh window, typing "hello" arms a Chinese-to-English request although "hello" is detected as English |
| RendererApp.DetectedLanguageScenario | src/renderer/App.tsx:53-70 | with the corrected handler the same input arms the English direction |
| SelectionTranslator.View.constructor | src/SelectionTranslator.tsx:20-23 | the initial cells |
| SelectionTranslator.View.TranslateText | src/SelectionTranslator.tsx:40-67 | one request with the fixed model for every call, with no content guard; the reply or the error message; `loading` cleared |
| SelectionTranslator.View.OnTranslateSelection | src/SelectionTranslator.tsx:26-31 | the payload and its detected language are stored, and that language directs the request |
| SelectionTranslator.View.HandleClose | src/SelectionTranslator.tsx:69-71 | one `hide-selection-window` message and no change to the view |
| SelectionTranslator.SelectionRequestDirection | src/SelectionTranslator.tsx:26-45 | the popup's request carries the selection and asks for Chinese to English iff the selection has a CJK character |
| ModelPickerApp.Switched | src/App.tsx:103-108 | languages and texts are swapped simultaneously |
| ModelPickerApp.SwitchedInvolution | src/App.tsx:103-108 | swapping twice restores every cell |
| ModelPickerApp.TranslateButtonEnabledIff | src/App.tsx:178 | the button is enabled iff there is text, nothing is running and a model is set, and then the click passes the guard of `handleTranslate` (line 77) |
| ModelPickerApp.View.constructor | src/App.tsx:25-32 | the initial cells (`zh` to `en`, no model) |
| ModelPickerApp.View.FetchModels | src/App.tsx:39-50 | the list, with `[]` when the reply has none; the first name becomes the model when the list is non-empty |
| ModelPickerApp.View.HandleModelChange | src/App.tsx:52-74 | the model is pulled and adopted only on an `ok` response; `pulling` cleared |
| ModelPickerApp.View.HandleTranslate | src/App.tsx:76-101 | nothing without text or model (whitespace-only text is sent); otherwise one request naming both languages, the reply or the error message |
| ModelPickerApp.View.SwitchLanguages | src/App.tsx:103-108 | the four cells become `Switched` of the old ones |
| ModelPickerApp.View.EditSourceText | src/App.tsx:170 | the field's `onChange` sets the source text only |
| ModelPickerApp.SwapAfterTranslation | src/App.tsx:93-108 | after a translation a swap moves the result into the source field, and swapping back restores the page |

## Left out

- The windows themselves:
  - `BrowserWindow` loading, URLs and `encodeURIComponent`;
  - focus, restore and show of the main window;
  - the 300 ms and 1000 ms delays before clipboard reads and IPC sends;
  - the development and production paths chosen by environment variables.
  
  A delivery is one `Deliver` event. The model assumes that `new BrowserWindow`,
  `loadURL` and `Menu.sendActionToFirstResponder` never throw. In the source, such a
  throw inside the `.then` body of the macOS capture path would reach the `.catch` at
  main.ts line 309, and so run `checkClipboardForTranslation`.
- Logging, `console` output, `open-dev-tools`, `show-selection-window` and
  `show-manual-copy-notification-reply`: none of them changes any state.
- The macOS main window created by the capture path gets a `closed` listener
  (main.ts lines 260-262), but no permission check or shortcut registration (lines 62-67).
  It also gets no `did-finish-load` listener (lines 70-79) and no macOS poll (lines 82-91).
  The model only records that a window exists.
- MainProcess.App.OnDidFinishLoad: accepted for any existing main window, including one
  created by the capture path, which has no such listener in the source.
- MainProcess.App.OnPermissionPoll: accepted on macOS at any time, including before
  `createWindow` has started the interval (main.ts lines 82-91). The model has no field for
  a running interval.
- Ocr.ExtractOutcome: the server's `response` is taken to be a string or absent. In the
  source, a truthy non-string value resolves (ocr.ts lines 107-109) and then throws at
  `extractedText.trim()` (main.ts line 117). The `catch` at main.ts lines 123-125 turns
  that throw into the OCR-failed notice.
- MainProcess.App.CreateSelectionWindow: a free event, although nothing in main.ts calls
  `createSelectionWindow`. In the program as written the popup never exists, and the
  popup handlers never act.
- RendererApp.View.FetchModels: a reply without `models` stores `undefined`, as
  src/renderer/App.tsx line 39 does. The next render then throws at `models.map`
  (line 118) and React unmounts the view. The model keeps `None` and goes on accepting
  input, translate and timer events. It does not model the crash. The standalone page
  guards this case with `data.models || []` (src/App.tsx line 43).
- `dialog.showMessageBox` is asynchronous. The model emits the settings prompt right after
  the dialog, in the order the user's answer would cause.
- Strings: JavaScript strings are sequences of UTF-16 code units, while a Dafny `string`
  is a sequence of Unicode scalar values. Text outside the Basic Multilingual Plane has a
  different length and different indices in the two. No rule modelled here depends on
  this for well-formed text: every whitespace character, the `", "` separator and the
  range U+4E00–U+9FA5 lie in the Basic Multilingual Plane.
- Timing and concurrency: overlapping captures, two hotkeys racing, replies arriving out of
  order, and a second `handleTranslate` while one is in flight. Each event runs to completion.
- The OCR request body:
  - `JSON.stringify` of the request;
  - the base64 encoding of the image;
  - the vision model's name and instruction.
  
  The body is a parameter, and only its shell quoting is modelled.
- `Date.now()` and `os.tmpdir()` in the temporary path. The path is a parameter and is
  required to be fresh.
- TextCapture: AppleScript's `is` and `is not equal to` ignore case by default; the model compares exactly.
- TextCapture: the model omits the debug log's content and step 1 (finding the frontmost app). Its failure shows up as later steps raising.
- JsText.ParseInt: the value is an unbounded integer; `parseInt` loses precision beyond 2^53.
- ModelPickerApp: the two language `Select` setters are not separate operations. They assign a `Lang` directly.
- Styling, layout, Material UI, the router and the entry files (`src/Router.tsx`,
  `src/index.tsx`, `src/renderer/index.tsx`, `src/selection.tsx`, `vite.config.ts`).

## Findings

| source | as written | input that shows it | evidently intended | confidence | as-written member | corrected member |
|---|---|---|---|---|---|---|
| src/renderer/App.tsx:65-80 | the debounced callback is the `handleTranslate` of the render in which the input changed, so it reads the `sourceLanguage` of the previous input, not the language just detected | a fresh window ("zh") and one input change to "hello": the armed request asks for Chinese to be translated into English | translate in the language detected for the text being translated | not executed | RendererApp.View.HandleInputChangeAsWritten, RendererApp.StaleLanguageScenario | RendererApp.View.HandleInputChange, RendererApp.DetectedLanguageScenario |
