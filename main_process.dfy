/** src/main/main.ts: the Electron main process. Its module-level state — the main window,
    the selection popup and the operating system's global-shortcut registry — becomes the
    fields of `App`; every message or notification it sends is appended to `trace`.
    Whatever the operating system, the clipboard or a subprocess answers is a parameter. */
module MainProcess {
  import opened Wrappers
  import opened JsText
  import opened ChildProcess
  import opened Shortcuts
  import opened TextCapture
  import opened Ocr

  /** What the main process makes happen outside itself, in order. */
  datatype Event =
    | PermissionDialog          // the "accessibility permission needed" message box
    | PermissionPrompt          // isTrustedAccessibilityClient(true) after "go to settings"
    | Deliver(text: string)     // text handed to the main window for translation
    | ManualCopyNotice          // 'show-manual-copy-notification' to the main window
    | OcrFailedNotice           // 'show-ocr-failed-notification' to the main window
    | MenuCopy                  // Menu.sendActionToFirstResponder('copy:')
    | WindowCopy                // webContents.copy() on the focused window
    | PopupTranslate(text: string)  // 'translate-selection' to the popup
    | TogglePinRequest          // 'toggle-pin' to the popup
    | WindowDragStarted         // setMovable(true) and startWindowDrag() on the popup
    | StartDragMessage          // 'start-drag' to the popup
    | AppQuit

  /** What `isTrustedAccessibilityClient(false)` answers, and which button the user picks
      in the dialog shown when it answers false. */
  datatype PermissionAnswer = PermissionAnswer(trusted: bool, choosesSettings: bool)

  /** The events one permission check emits. */
  function PermissionEvents(p: Platform, a: PermissionAnswer): seq<Event> {
    if p == MacOS && !a.trusted then
      [PermissionDialog] + (if a.choosesSettings then [PermissionPrompt] else [])
    else []
  }

  /** `checkAccessibilityPermission`'s result: only macOS asks the system. */
  function PermissionGranted(p: Platform, a: PermissionAnswer): (granted: bool)
    ensures p == OtherPlatform ==> granted
    ensures p == MacOS ==> (granted <==> a.trusted)
    ensures !granted <==> PermissionEvents(p, a) != []
  {
    p == OtherPlatform || a.trusted
  }

  // ---------------------------------------------------------------------------------
  // Text delivery and its guards

  /** The clipboard-diff rule: the text counts as a new selection when it has content and
      differs from the snapshot taken before the capture. */
  predicate AcceptClipboard(current: string, original: string) {
    HasContent(current) && current != original
  }

  /** What `sendTextToMainWindow` emits. */
  function SendEvents(text: string, mainWindow: bool): (es: seq<Event>)
    ensures |es| <= 1
    ensures es != [] ==> es == [Deliver(text)]
    ensures es != [] <==> HasContent(text) && mainWindow
  {
    if HasContent(text) && mainWindow then [Deliver(text)] else []
  }

  /** A notification to the main window, when there is one. */
  function Notify(e: Event, mainWindow: bool): seq<Event> {
    if mainWindow then [e] else []
  }

  /** What `checkClipboardForTranslation` (and the identical check after the menu copy)
      emits. */
  function ClipboardEvents(current: string, original: string, mainWindow: bool): seq<Event> {
    if AcceptClipboard(current, original) then SendEvents(current, mainWindow)
    else Notify(ManualCopyNotice, mainWindow)
  }

  /** The clipboard text is delivered exactly when it is accepted, the manual-copy
      notification is sent exactly when it is not, and never both. */
  lemma ClipboardEventsExclusive(current: string, original: string, mainWindow: bool)
    ensures Deliver(current) in ClipboardEvents(current, original, mainWindow) <==>
      AcceptClipboard(current, original) && mainWindow
    ensures ManualCopyNotice in ClipboardEvents(current, original, mainWindow) <==>
      !AcceptClipboard(current, original) && mainWindow
    ensures |ClipboardEvents(current, original, mainWindow)| <= 1
    ensures forall t :: Deliver(t) in ClipboardEvents(current, original, mainWindow) ==> t == current
  {
    var es := ClipboardEvents(current, original, mainWindow);
    if AcceptClipboard(current, original) {
      assert ManualCopyNotice !in es;
    } else {
      assert Notify(ManualCopyNotice, mainWindow) == es;
    }
  }

  /** An unchanged clipboard is never taken for a selection. */
  lemma UnchangedClipboardRejected(original: string, mainWindow: bool)
    ensures ClipboardEvents(original, original, mainWindow) == Notify(ManualCopyNotice, mainWindow)
  {
  }

  /** What `handleOCR` emits for the outcome of capture and extraction. */
  function OcrEvents(r: Result<string, OcrError>, mainWindow: bool): seq<Event> {
    if r.Success? && HasContent(r.value) then SendEvents(Trim(r.value), mainWindow)
    else Notify(OcrFailedNotice, mainWindow)
  }

  /** OCR text is delivered trimmed and only when trimming leaves something; otherwise,
      and on every rejection, only the OCR-failed notification is sent. */
  lemma OcrEventsTrimmed(r: Result<string, OcrError>, mainWindow: bool)
    requires mainWindow
    ensures r.Success? && Trim(r.value) != "" ==> OcrEvents(r, mainWindow) == [Deliver(Trim(r.value))]
    ensures r.Failure? || Trim(r.value) == "" ==> OcrEvents(r, mainWindow) == [OcrFailedNotice]
  {
    if r.Success? {
      var v := r.value;
      assert HasContent(v) <==> Trim(v) != "";
      TrimIdempotent(v);
    }
  }

  /** Whatever reaches the main window through `sendTextToMainWindow` has content, and what
      OCR delivers is already trimmed. */
  lemma DeliveredTextHasContent(r: Result<string, OcrError>, mainWindow: bool, t: string)
    requires Deliver(t) in OcrEvents(r, mainWindow)
    ensures HasContent(t) && Trim(t) == t
    ensures r.Success? && t == Trim(r.value)
  {
    assert OcrFailedNotice != Deliver(t);
    assert r.Success? && HasContent(r.value);
    var v := r.value;
    assert OcrEvents(r, mainWindow) == SendEvents(Trim(v), mainWindow);
    assert t == Trim(v);
    TrimIdempotent(v);
  }

  /** What `handleGlobalTranslation` sees on macOS: the clipboard snapshot, how the
      osascript run came back, and the clipboard when it is read again (after the menu copy,
      or in the rejection handler). */
  datatype MacWorld = MacWorld(original: string, run: ExecOutcome, clipboardLater: string)

  /** On other platforms: the primary selection, the clipboard, whether another window has
      the focus, and the clipboard after copying from it. */
  datatype OtherWorld = OtherWorld(selection: string, clipboard: string, otherWindowFocused: bool,
                                   clipboardAfterCopy: string)

  /** The macOS decision once the cascade has answered: text with content is delivered (a
      main window is created to carry it when there is none); otherwise the menu copy
      fallback runs; a rejected capture goes straight to the clipboard check. */
  function MacEventsAfterCapture(captured: Result<string, CaptureError>, w: MacWorld, mainWindow: bool): seq<Event> {
    match captured
    case Success(sel) =>
      if HasContent(sel) then [Deliver(sel)]
      else [MenuCopy] + ClipboardEvents(w.clipboardLater, w.original, mainWindow)
    case Failure(_) => ClipboardEvents(w.clipboardLater, w.original, mainWindow)
  }

  /** The macOS decision on the cascade's answer to this run of the script. */
  function MacTranslationEvents(w: MacWorld, mainWindow: bool): seq<Event> {
    MacEventsAfterCapture(CaptureSelectedText(w.run), w, mainWindow)
  }

  /** `clipboard.readText('selection') || clipboard.readText()`: an empty selection falls
      back to the clipboard. */
  function OtherSelection(w: OtherWorld): (s: string)
    ensures w.selection != "" ==> s == w.selection
    ensures w.selection == "" ==> s == w.clipboard
  {
    if w.selection != "" then w.selection else w.clipboard
  }

  /** The non-macOS decision: no clipboard diff and no manual-copy notification here. */
  function OtherTranslationEvents(w: OtherWorld, mainWindow: bool): seq<Event> {
    var sel := OtherSelection(w);
    if HasContent(sel) then Notify(Deliver(sel), mainWindow)
    else if w.otherWindowFocused then
      [WindowCopy] + Notify(Deliver(w.clipboardAfterCopy), mainWindow && HasContent(w.clipboardAfterCopy))
    else []
  }

  /** The cascade's text is used exactly when it has content; otherwise the menu copy runs
      first and the clipboard rule decides. */
  lemma MacCascadeUsedIff(w: MacWorld, mainWindow: bool, sel: string)
    requires CaptureSelectedText(w.run) == Success(sel)
    ensures HasContent(sel) ==> MacTranslationEvents(w, mainWindow) == [Deliver(sel)]
    ensures !HasContent(sel) ==> (MacTranslationEvents(w, mainWindow)[0] == MenuCopy &&
      MacTranslationEvents(w, mainWindow)[1..] == ClipboardEvents(w.clipboardLater, w.original, mainWindow))
  {
  }

  /** Every text the translation hotkey delivers has content. */
  lemma TranslationDeliversContent(w: MacWorld, o: OtherWorld, mainWindow: bool, t: string)
    ensures Deliver(t) in MacTranslationEvents(w, mainWindow) ==> HasContent(t)
    ensures Deliver(t) in OtherTranslationEvents(o, mainWindow) ==> HasContent(t)
  {
    var later := ClipboardEvents(w.clipboardLater, w.original, mainWindow);
    assert Deliver(t) in later ==> t == w.clipboardLater && HasContent(t);
    if Deliver(t) in MacTranslationEvents(w, mainWindow) {
      match CaptureSelectedText(w.run) {
        case Success(sel) =>
          if !HasContent(sel) {
            assert MacTranslationEvents(w, mainWindow) == [MenuCopy] + later;
          }
        case Failure(_) =>
      }
    }
  }

  // ---------------------------------------------------------------------------------
  // The selection popup

  datatype Point = Point(x: int, y: int)

  /** The popup's flags: whether it is shown, where `setPosition` last put it, and the
      always-on-top and movable flags. */
  datatype Popup = Popup(visible: bool, position: Option<Point>, alwaysOnTop: bool, movable: bool)

  const PopupWidth: int := 400
  const PopupHeight: int := 300

  /** The `sendTextToWindow` clamp: shift left or up so the popup ends inside the work area.
      Nothing keeps the result from going negative. */
  function ClampPopupPosition(cursor: Point, width: int, height: int): (p: Point)
    ensures p.x <= cursor.x && p.x + PopupWidth <= width
    ensures p.y <= cursor.y && p.y + PopupHeight <= height
    ensures cursor.x + PopupWidth <= width ==> p.x == cursor.x
    ensures cursor.y + PopupHeight <= height ==> p.y == cursor.y
    ensures cursor.x + PopupWidth > width ==> p.x + PopupWidth == width
    ensures cursor.y + PopupHeight > height ==> p.y + PopupHeight == height
  {
    Point(if cursor.x + PopupWidth > width then width - PopupWidth else cursor.x,
          if cursor.y + PopupHeight > height then height - PopupHeight else cursor.y)
  }

  /** A work area narrower than the popup puts it at a negative x. */
  lemma ClampHasNoLowerBound(cursor: Point, width: int, height: int)
    requires width < PopupWidth && cursor.x >= 0
    ensures ClampPopupPosition(cursor, width, height).x < 0
  {
  }

  /** Clamping twice changes nothing more. */
  lemma ClampIdempotent(cursor: Point, width: int, height: int)
    ensures var p := ClampPopupPosition(cursor, width, height);
      ClampPopupPosition(p, width, height) == p
  {
  }

  /** The `pin-selection-window` handler: `setAlwaysOnTop(isPinned)`, `setMovable(!isPinned)`. */
  function Pinned(w: Popup, isPinned: bool): (r: Popup)
    ensures r.visible == w.visible && r.position == w.position
  {
    w.(alwaysOnTop := isPinned, movable := !isPinned)
  }

  /** After any pin message the two flags are coupled, and repeating it changes nothing. */
  lemma PinCouplesFlags(w: Popup, isPinned: bool)
    ensures Pinned(w, isPinned).alwaysOnTop == isPinned
    ensures Pinned(w, isPinned).alwaysOnTop <==> !Pinned(w, isPinned).movable
    ensures Pinned(Pinned(w, isPinned), isPinned) == Pinned(w, isPinned)
  {
  }

  /** The toggle hotkey's visibility flip. */
  function Toggled(w: Popup): (r: Popup)
    ensures r.visible != w.visible
    ensures r.(visible := w.visible) == w
  {
    w.(visible := !w.visible)
  }

  lemma ToggleTwiceRestores(w: Popup)
    ensures Toggled(Toggled(w)) == w
  {
  }

  /** A freshly created popup: hidden (`show: false`), always on top, movable by default. */
  const NewPopup: Popup := Popup(false, None, true, true)

  /** `count` copies of one event. */
  function Repeat(e: Event, count: nat): (es: seq<Event>)
    ensures |es| == count && forall i :: 0 <= i < count ==> es[i] == e
  {
    if count == 0 then [] else [e] + Repeat(e, count - 1)
  }

  // ---------------------------------------------------------------------------------
  // The main process

  class App {
    const platform: Platform
    /** The accelerators the operating system holds for this application. */
    var registry: set<string>
    /** `mainWindow !== null`. */
    var mainWindow: bool
    /** `selectionWindow`, when it is not null. */
    var popup: Option<Popup>
    /** The `start-window-drag` listeners `createSelectionWindow` has added: one per
        popup it created, never removed. */
    var dragListeners: nat
    var trace: seq<Event>

    /** Module load: no windows and nothing registered yet. */
    constructor(platform: Platform)
      ensures this.platform == platform
      ensures registry == {} && !mainWindow && popup == None && dragListeners == 0 && trace == []
    {
      this.platform := platform;
      registry := {};
      mainWindow := false;
      popup := None;
      dragListeners := 0;
      trace := [];
    }

    /** `checkAccessibilityPermission`. */
    method CheckAccessibilityPermission(answer: PermissionAnswer) returns (granted: bool)
      modifies this
      ensures granted == PermissionGranted(platform, answer)
      ensures trace == old(trace) + PermissionEvents(platform, answer)
      ensures registry == old(registry) && mainWindow == old(mainWindow)
      ensures popup == old(popup) && dragListeners == old(dragListeners)
    {
      if platform == MacOS {
        granted := answer.trusted;
        if !granted {
          trace := trace + [PermissionDialog];
          if answer.choosesSettings {
            trace := trace + [PermissionPrompt];
          }
        }
        return;
      }
      granted := true;
    }

    /** One `globalShortcut.register` call, given what the operating system answers to it;
        `threw` when it raised. */
    method Register(accelerator: string, a: RegisterAnswer) returns (threw: bool)
      modifies this
      ensures threw <==> a == Throws
      ensures registry == old(registry) + Added(accelerator, a)
      ensures mainWindow == old(mainWindow) && popup == old(popup)
      ensures dragListeners == old(dragListeners) && trace == old(trace)
    {
      match a {
        case Throws => threw := true;
        case Refused => threw := false;
        case Accepted =>
          registry := registry + {accelerator};
          threw := false;
      }
    }

    /** `registerGlobalShortcuts`: `unregisterAll`, then the five `register` calls in one
        `try` block. The result does not depend on the registry before, so a second pass
        with the same answers leaves the same set. */
    method RegisterGlobalShortcuts(answer: string -> RegisterAnswer)
      modifies this
      ensures registry == RegisteredAfterPass(platform, answer)
      ensures mainWindow == old(mainWindow) && popup == old(popup)
      ensures dragListeners == old(dragListeners) && trace == old(trace)
    {
      RegisteredAfterPassSteps(platform, answer);
      // What the operating system answers to each of the five calls.
      var a0, a1, a2 := answer(TranslateSelection), answer(TranslateSelectionAlt), answer(OcrShortcut);
      var a3, a4 := answer(ToggleWindow(platform)), answer(PinWindow(platform));
      registry := {};
      var threw := Register(TranslateSelection, a0);
      if threw { return; }
      threw := Register(TranslateSelectionAlt, a1);
      if threw { return; }
      threw := Register(OcrShortcut, a2);
      if threw { return; }
      threw := Register(ToggleWindow(platform), a3);
      if threw { return; }
      threw := Register(PinWindow(platform), a4);
    }

    /** `createWindow`: the main window, then shortcut registration when permission holds.
        The `did-finish-load` listener and, on macOS, the 5-second poll it sets up are
        `OnDidFinishLoad` and `OnPermissionPoll`. */
    method CreateWindow(permission: PermissionAnswer, answer: string -> RegisterAnswer)
      modifies this
      ensures mainWindow
      ensures registry == if PermissionGranted(platform, permission)
        then RegisteredAfterPass(platform, answer) else old(registry)
      ensures trace == old(trace) + PermissionEvents(platform, permission)
      ensures popup == old(popup) && dragListeners == old(dragListeners)
    {
      mainWindow := true;
      var granted := CheckAccessibilityPermission(permission);
      if granted {
        RegisterGlobalShortcuts(answer);
      }
    }

    /** The `did-finish-load` handler of the main window's contents: re-register only when
        `areShortcutsRegistered` fails; no permission check here. */
    method OnDidFinishLoad(answer: string -> RegisterAnswer)
      requires mainWindow
      modifies this
      ensures registry == if CaptureShortcutsRegistered(old(registry)) then old(registry)
        else RegisteredAfterPass(platform, answer)
      ensures mainWindow == old(mainWindow) && popup == old(popup)
      ensures dragListeners == old(dragListeners) && trace == old(trace)
    {
      if !CaptureShortcutsRegistered(registry) {
        RegisterGlobalShortcuts(answer);
      }
    }

    /** One tick of the 5-second poll, which exists only on macOS: re-register when the
        check fails and permission holds. `&&` evaluates the permission check, with its
        dialog, only when the shortcuts are missing. */
    method OnPermissionPoll(permission: PermissionAnswer, answer: string -> RegisterAnswer)
      requires platform == MacOS
      modifies this
      ensures registry == if !CaptureShortcutsRegistered(old(registry)) && permission.trusted
        then RegisteredAfterPass(platform, answer) else old(registry)
      ensures trace == old(trace) +
        (if CaptureShortcutsRegistered(old(registry)) then [] else PermissionEvents(platform, permission))
      ensures mainWindow == old(mainWindow) && popup == old(popup) && dragListeners == old(dragListeners)
    {
      if !CaptureShortcutsRegistered(registry) {
        var granted := CheckAccessibilityPermission(permission);
        if granted {
          RegisterGlobalShortcuts(answer);
        }
      }
    }

    /** `window-all-closed`, which comes after the windows' `closed` handlers have run:
        every accelerator is released; other platforms quit. */
    method OnAllWindowsClosed()
      requires !mainWindow && popup.None?
      modifies this
      ensures registry == {}
      ensures trace == old(trace) + (if platform == MacOS then [] else [AppQuit])
      ensures mainWindow == old(mainWindow) && popup == old(popup) && dragListeners == old(dragListeners)
    {
      registry := {};
      if platform != MacOS {
        trace := trace + [AppQuit];
      }
    }

    /** `activate`: a main window is created only when there is none. */
    method OnActivate(permission: PermissionAnswer, answer: string -> RegisterAnswer)
      modifies this
      ensures mainWindow
      ensures old(mainWindow) ==> registry == old(registry) && trace == old(trace)
      ensures !old(mainWindow) ==> trace == old(trace) + PermissionEvents(platform, permission)
      ensures !old(mainWindow) ==> registry == if PermissionGranted(platform, permission)
        then RegisteredAfterPass(platform, answer) else old(registry)
      ensures popup == old(popup) && dragListeners == old(dragListeners)
    {
      if !mainWindow {
        CreateWindow(permission, answer);
      }
    }

    /** The main window's `closed` handler. */
    method OnMainWindowClosed()
      modifies this
      ensures !mainWindow
      ensures registry == old(registry) && popup == old(popup)
      ensures dragListeners == old(dragListeners) && trace == old(trace)
    {
      mainWindow := false;
    }

    /** `sendTextToMainWindow`: nothing for text without content, nothing without a main
        window; otherwise the text is delivered (URL parameter, then the IPC message). */
    method SendTextToMainWindow(text: string)
      modifies this
      ensures trace == old(trace) + SendEvents(text, mainWindow)
      ensures registry == old(registry) && mainWindow == old(mainWindow)
      ensures popup == old(popup) && dragListeners == old(dragListeners)
    {
      if !HasContent(text) {
        return;
      }
      if mainWindow {
        trace := trace + [Deliver(text)];
      }
    }

    method ShowManualCopyNotification()
      modifies this
      ensures trace == old(trace) + Notify(ManualCopyNotice, mainWindow)
      ensures registry == old(registry) && mainWindow == old(mainWindow)
      ensures popup == old(popup) && dragListeners == old(dragListeners)
    {
      if mainWindow {
        trace := trace + [ManualCopyNotice];
      }
    }

    method ShowOcrFailedNotification()
      modifies this
      ensures trace == old(trace) + Notify(OcrFailedNotice, mainWindow)
      ensures registry == old(registry) && mainWindow == old(mainWindow)
      ensures popup == old(popup) && dragListeners == old(dragListeners)
    {
      if mainWindow {
        trace := trace + [OcrFailedNotice];
      }
    }

    /** `checkClipboardForTranslation`, given the clipboard as it reads now. */
    method CheckClipboardForTranslation(current: string, original: string)
      modifies this
      ensures trace == old(trace) + ClipboardEvents(current, original, mainWindow)
      ensures registry == old(registry) && mainWindow == old(mainWindow)
      ensures popup == old(popup) && dragListeners == old(dragListeners)
    {
      if HasContent(current) && current != original {
        SendTextToMainWindow(current);
      } else {
        ShowManualCopyNotification();
      }
    }

    /** `handleGlobalTranslation` on macOS. */
    method HandleMacTranslation(w: MacWorld)
      requires platform == MacOS
      modifies this
      ensures trace == old(trace) + MacTranslationEvents(w, old(mainWindow))
      ensures mainWindow == (old(mainWindow) ||
        (CaptureSelectedText(w.run).Success? && HasContent(CaptureSelectedText(w.run).value)))
      ensures registry == old(registry) && popup == old(popup) && dragListeners == old(dragListeners)
    {
      var captured := CaptureSelectedText(w.run);
      ActOnCapture(captured, w);
    }

    /** The part of `handleGlobalTranslation` on macOS after the cascade has answered. */
    method ActOnCapture(captured: Result<string, CaptureError>, w: MacWorld)
      modifies this
      ensures trace == old(trace) + MacEventsAfterCapture(captured, w, old(mainWindow))
      ensures mainWindow == (old(mainWindow) || (captured.Success? && HasContent(captured.value)))
      ensures registry == old(registry) && popup == old(popup) && dragListeners == old(dragListeners)
    {
      match captured {
        case Success(selectedText) =>
          if HasContent(selectedText) {
            // With no main window, a new one is created that loads the text.
            mainWindow := true;
            trace := trace + [Deliver(selectedText)];
          } else {
            trace := trace + [MenuCopy];
            CheckClipboardForTranslation(w.clipboardLater, w.original);
          }
        case Failure(_) =>
          CheckClipboardForTranslation(w.clipboardLater, w.original);
      }
    }

    /** `handleGlobalTranslation` on the other platforms. */
    method HandleOtherTranslation(w: OtherWorld)
      requires platform == OtherPlatform
      modifies this
      ensures trace == old(trace) + OtherTranslationEvents(w, mainWindow)
      ensures registry == old(registry) && mainWindow == old(mainWindow)
      ensures popup == old(popup) && dragListeners == old(dragListeners)
    {
      var selectedText := if w.selection != "" then w.selection else w.clipboard;
      if HasContent(selectedText) {
        if mainWindow {
          trace := trace + [Deliver(selectedText)];
        }
      } else if w.otherWindowFocused {
        trace := trace + [WindowCopy];
        var clipboardText := w.clipboardAfterCopy;
        if HasContent(clipboardText) {
          if mainWindow {
            trace := trace + [Deliver(clipboardText)];
          }
        }
      }
    }

    /** `handleOCR`: capture, extract, then deliver the trimmed text or report failure. */
    method HandleOcr(fs: FileSystem, tempPath: string, w: OcrWorld)
      requires tempPath !in fs.files
      modifies this, fs
      ensures trace == old(trace) + OcrEvents(OcrOutcome(w), mainWindow)
      ensures fs.files == FilesAfterOcr(old(fs.files), tempPath, w)
      ensures registry == old(registry) && mainWindow == old(mainWindow)
      ensures popup == old(popup) && dragListeners == old(dragListeners)
    {
      var imagePath, _ := CaptureScreenAtMouse(fs, tempPath, w.mouse, w.captureOk);
      if imagePath.Failure? {
        DeliverOcrResult(imagePath);
        return;
      }
      var extracted, _ := ExtractTextWithLlama(fs, imagePath.value, w.readOk, w.requestBody, w.curl, w.unlinkOk);
      DeliverOcrResult(extracted);
    }

    /** The end of `handleOCR`: the trimmed text goes to the main window when trimming
        leaves something; a failed step or an empty result brings the notification. */
    method DeliverOcrResult(extracted: Result<string, OcrError>)
      modifies this
      ensures trace == old(trace) + OcrEvents(extracted, mainWindow)
      ensures registry == old(registry) && mainWindow == old(mainWindow)
      ensures popup == old(popup) && dragListeners == old(dragListeners)
    {
      if extracted.Success? && HasContent(extracted.value) {
        SendTextToMainWindow(Trim(extracted.value));
      } else {
        ShowOcrFailedNotification();
      }
    }

    /** A translation hotkey, which fires only while one of its two accelerators is
        registered: runs the translation only when permission holds. */
    method OnTranslateShortcut(permission: PermissionAnswer, mac: MacWorld, other: OtherWorld)
      requires TranslateSelection in registry || TranslateSelectionAlt in registry
      modifies this
      ensures PermissionGranted(platform, permission) && platform == MacOS ==>
        trace == old(trace) + PermissionEvents(platform, permission) + MacTranslationEvents(mac, old(mainWindow))
      ensures PermissionGranted(platform, permission) && platform == MacOS ==>
        mainWindow == (old(mainWindow) ||
          (CaptureSelectedText(mac.run).Success? && HasContent(CaptureSelectedText(mac.run).value)))
      ensures PermissionGranted(platform, permission) && platform == OtherPlatform ==>
        trace == old(trace) + OtherTranslationEvents(other, old(mainWindow))
      ensures platform == OtherPlatform ==> mainWindow == old(mainWindow)
      ensures !PermissionGranted(platform, permission) ==>
        trace == old(trace) + PermissionEvents(platform, permission) && mainWindow == old(mainWindow)
      ensures registry == old(registry) && popup == old(popup) && dragListeners == old(dragListeners)
    {
      var granted := CheckAccessibilityPermission(permission);
      if granted {
        if platform == MacOS {
          HandleMacTranslation(mac);
        } else {
          HandleOtherTranslation(other);
        }
      }
    }

    /** The OCR hotkey, which fires only while its accelerator is registered: OCR only
        when permission holds. */
    method OnOcrShortcut(permission: PermissionAnswer, fs: FileSystem, tempPath: string, w: OcrWorld)
      requires OcrShortcut in registry
      requires tempPath !in fs.files
      modifies this, fs
      ensures PermissionGranted(platform, permission) ==>
        trace == old(trace) + PermissionEvents(platform, permission) + OcrEvents(OcrOutcome(w), mainWindow) &&
        fs.files == FilesAfterOcr(old(fs.files), tempPath, w)
      ensures !PermissionGranted(platform, permission) ==>
        trace == old(trace) + PermissionEvents(platform, permission) && fs.files == old(fs.files)
      ensures registry == old(registry) && mainWindow == old(mainWindow)
      ensures popup == old(popup) && dragListeners == old(dragListeners)
    {
      var granted := CheckAccessibilityPermission(permission);
      if granted {
        HandleOcr(fs, tempPath, w);
      }
    }

    /** `createSelectionWindow`: an existing popup is only shown; otherwise a new hidden
        one is created and another `start-window-drag` listener is added. */
    method CreateSelectionWindow()
      modifies this
      ensures popup.Some?
      ensures old(popup).Some? ==> popup == Some(old(popup).value.(visible := true))
      ensures old(popup).Some? ==> dragListeners == old(dragListeners)
      ensures old(popup).None? ==> popup == Some(NewPopup) && dragListeners == old(dragListeners) + 1
      ensures registry == old(registry) && mainWindow == old(mainWindow) && trace == old(trace)
    {
      if popup.Some? {
        popup := Some(popup.value.(visible := true));
        return;
      }
      popup := Some(NewPopup);
      dragListeners := dragListeners + 1;
    }

    /** `sendTextToWindow`: clamp the cursor position, then move, show and message the
        popup when there is one; a pinned popup is moved too. */
    method SendTextToWindow(text: string, cursor: Point, workWidth: int, workHeight: int)
      modifies this
      ensures old(popup).Some? ==>
        popup == Some(old(popup).value.(position := Some(ClampPopupPosition(cursor, workWidth, workHeight)),
                                         visible := true)) &&
        trace == old(trace) + [PopupTranslate(text)]
      ensures old(popup).None? ==> popup == None && trace == old(trace)
      ensures registry == old(registry) && mainWindow == old(mainWindow) && dragListeners == old(dragListeners)
    {
      var x := cursor.x;
      var y := cursor.y;
      if x + PopupWidth > workWidth {
        x := workWidth - PopupWidth;
      }
      if y + PopupHeight > workHeight {
        y := workHeight - PopupHeight;
      }
      if popup.Some? {
        popup := Some(popup.value.(position := Some(Point(x, y)), visible := true));
        trace := trace + [PopupTranslate(text)];
      }
    }

    /** The toggle hotkey, which fires only while its accelerator is registered, flips the
        popup's visibility when there is a popup. */
    method OnToggleWindowShortcut()
      requires ToggleWindow(platform) in registry
      modifies this
      ensures popup == if old(popup).Some? then Some(Toggled(old(popup).value)) else None
      ensures registry == old(registry) && mainWindow == old(mainWindow)
      ensures dragListeners == old(dragListeners) && trace == old(trace)
    {
      if popup.Some? {
        if popup.value.visible {
          popup := Some(popup.value.(visible := false));
        } else {
          popup := Some(popup.value.(visible := true));
        }
      }
    }

    /** The pin hotkey, which fires only while its accelerator is registered, only asks the
        popup to toggle its pin. */
    method OnPinShortcut()
      requires PinWindow(platform) in registry
      modifies this
      ensures trace == old(trace) + (if popup.Some? then [TogglePinRequest] else [])
      ensures registry == old(registry) && mainWindow == old(mainWindow)
      ensures popup == old(popup) && dragListeners == old(dragListeners)
    {
      if popup.Some? {
        trace := trace + [TogglePinRequest];
      }
    }

    /** `pin-selection-window`. */
    method OnPinSelectionWindow(isPinned: bool)
      modifies this
      ensures popup == if old(popup).Some? then Some(Pinned(old(popup).value, isPinned)) else None
      ensures registry == old(registry) && mainWindow == old(mainWindow)
      ensures dragListeners == old(dragListeners) && trace == old(trace)
    {
      if popup.Some? {
        popup := Some(popup.value.(alwaysOnTop := isPinned, movable := !isPinned));
      }
    }

    /** `hide-selection-window`: hidden, not destroyed. */
    method OnHideSelectionWindow()
      modifies this
      ensures popup == if old(popup).Some? then Some(old(popup).value.(visible := false)) else None
      ensures registry == old(registry) && mainWindow == old(mainWindow)
      ensures dragListeners == old(dragListeners) && trace == old(trace)
    {
      if popup.Some? {
        popup := Some(popup.value.(visible := false));
      }
    }

    /** `start-window-drag`: the module-level listener makes the popup movable, whatever
        its pin state, and starts the drag; then each listener added by
        `createSelectionWindow` sends `start-drag`. */
    method OnStartWindowDrag()
      modifies this
      ensures popup == if old(popup).Some? then Some(old(popup).value.(movable := true)) else None
      ensures trace == old(trace) +
        (if old(popup).Some? then [WindowDragStarted] + Repeat(StartDragMessage, dragListeners) else [])
      ensures registry == old(registry) && mainWindow == old(mainWindow) && dragListeners == old(dragListeners)
    {
      if popup.Some? {
        popup := Some(popup.value.(movable := true));
        trace := trace + [WindowDragStarted];
        var i := 0;
        while i < dragListeners
          invariant 0 <= i <= dragListeners
          invariant trace == old(trace) + [WindowDragStarted] + Repeat(StartDragMessage, i)
          invariant popup == Some(old(popup).value.(movable := true))
          invariant registry == old(registry) && mainWindow == old(mainWindow)
          invariant dragListeners == old(dragListeners)
        {
          assert Repeat(StartDragMessage, i + 1) == Repeat(StartDragMessage, i) + [StartDragMessage];
          trace := trace + [StartDragMessage];
          i := i + 1;
        }
      }
    }

    /** The popup's `closed` handler. */
    method OnSelectionWindowClosed()
      modifies this
      ensures popup == None
      ensures registry == old(registry) && mainWindow == old(mainWindow)
      ensures dragListeners == old(dragListeners) && trace == old(trace)
    {
      popup := None;
    }
  }
}
