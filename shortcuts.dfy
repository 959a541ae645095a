/** The global accelerators of the main process and what a registration pass leaves
    registered. The accelerator strings are those of src/config/shortcuts.ts plus the OCR
    constant of src/main/main.ts. */
module Shortcuts {

  /** `process.platform`: only the distinction darwin / not darwin matters. */
  datatype Platform = MacOS | OtherPlatform

  const TranslateSelection: string := "Control+M"
  const TranslateSelectionAlt: string := "Control+Alt+M"
  const OcrShortcut: string := "Control+Alt+O"

  function ToggleWindow(p: Platform): string {
    if p == MacOS then "Command+Shift+Space" else "Control+Shift+Space"
  }

  function PinWindow(p: Platform): string {
    if p == MacOS then "Command+Shift+P" else "Control+Shift+P"
  }

  /** The order in which `registerGlobalShortcuts` calls `globalShortcut.register`. */
  function RegistrationOrder(p: Platform): (order: seq<string>)
    ensures |order| == 5
  {
    [TranslateSelection, TranslateSelectionAlt, OcrShortcut, ToggleWindow(p), PinWindow(p)]
  }

  /** The five accelerators are distinct on either platform. */
  lemma RegistrationOrderDistinct(p: Platform)
    ensures forall i, j :: 0 <= i < j < 5 ==> RegistrationOrder(p)[i] != RegistrationOrder(p)[j]
  {
  }

  /** What one `globalShortcut.register` call did: it registered the accelerator, returned
      false (another application owns it), or threw. */
  datatype RegisterAnswer = Accepted | Refused | Throws

  /** The accelerators that a run of `register` calls over `accs` leaves registered, given
      the operating system's answer to each: a refusal is skipped, a throw ends the run. */
  function RegisteredAmong(accs: seq<string>, answer: string -> RegisterAnswer): set<string>
  {
    if accs == [] then {}
    else match answer(accs[0])
      case Throws => {}
      case Refused => RegisteredAmong(accs[1..], answer)
      case Accepted => {accs[0]} + RegisteredAmong(accs[1..], answer)
  }

  /** One step of a pass: the first answer decides whether the rest of the pass runs and
      whether the first accelerator joins the registry. */
  lemma RegisteredAmongHead(accs: seq<string>, answer: string -> RegisterAnswer)
    requires accs != []
    ensures answer(accs[0]) == Throws ==> RegisteredAmong(accs, answer) == {}
    ensures answer(accs[0]) != Throws ==> (RegisteredAmong(accs, answer) ==
      (if answer(accs[0]) == Accepted then {accs[0]} else {}) + RegisteredAmong(accs[1..], answer))
  {
  }

  /** What one `register` call adds. */
  function Added(acc: string, a: RegisterAnswer): set<string> {
    if a == Accepted then {acc} else {}
  }

  /** A pass over the five accelerators written out call by call: the registry holds what
      the calls before the first throw added. */
  lemma RegisteredAfterPassSteps(p: Platform, answer: string -> RegisterAnswer)
    ensures var o := RegistrationOrder(p);
      var a0, a1, a2, a3, a4 := answer(o[0]), answer(o[1]), answer(o[2]), answer(o[3]), answer(o[4]);
      RegisteredAmong(o, answer) ==
        if a0 == Throws then {}
        else if a1 == Throws then {} + Added(o[0], a0)
        else if a2 == Throws then {} + Added(o[0], a0) + Added(o[1], a1)
        else if a3 == Throws then {} + Added(o[0], a0) + Added(o[1], a1) + Added(o[2], a2)
        else if a4 == Throws then {} + Added(o[0], a0) + Added(o[1], a1) + Added(o[2], a2) + Added(o[3], a3)
        else {} + Added(o[0], a0) + Added(o[1], a1) + Added(o[2], a2) + Added(o[3], a3) + Added(o[4], a4)
  {
    var o := RegistrationOrder(p);
    RegisteredAmongHead(o, answer);
    RegisteredAmongHead(o[1..], answer);
    RegisteredAmongHead(o[2..], answer);
    RegisteredAmongHead(o[3..], answer);
    RegisteredAmongHead(o[4..], answer);
    assert o[1..][1..] == o[2..] && o[2..][1..] == o[3..];
    assert o[3..][1..] == o[4..] && o[4..][1..] == [];
  }

  /** The registry after `registerGlobalShortcuts`: it starts from `unregisterAll`, so it
      does not depend on what was registered before. */
  function RegisteredAfterPass(p: Platform, answer: string -> RegisterAnswer): set<string> {
    RegisteredAmong(RegistrationOrder(p), answer)
  }

  /** `areShortcutsRegistered`: the primary, alternate and OCR accelerators are all
      registered. */
  predicate CaptureShortcutsRegistered(registry: set<string>) {
    TranslateSelection in registry && TranslateSelectionAlt in registry && OcrShortcut in registry
  }

  /** A pass registers only accelerators it tried. */
  lemma {:induction false} RegisteredAmongWithin(accs: seq<string>, answer: string -> RegisterAnswer)
    ensures forall a :: a in RegisteredAmong(accs, answer) ==> a in accs && answer(a) == Accepted
    decreases |accs|
  {
    if accs != [] {
      RegisteredAmongWithin(accs[1..], answer);
    }
  }

  /** An accelerator is registered after a pass iff it was answered `Accepted` and no
      earlier `register` call threw. */
  lemma {:induction false} RegisteredAmongIff(accs: seq<string>, answer: string -> RegisterAnswer, k: nat)
    requires k < |accs|
    requires forall i, j :: 0 <= i < j < |accs| ==> accs[i] != accs[j]
    ensures accs[k] in RegisteredAmong(accs, answer) <==>
      answer(accs[k]) == Accepted && forall j :: 0 <= j < k ==> answer(accs[j]) != Throws
    decreases k
  {
    if k == 0 {
      RegisteredAmongWithin(accs[1..], answer);
      assert accs[0] !in accs[1..];
    } else {
      var rest := accs[1..];
      assert rest[k - 1] == accs[k];
      RegisteredAmongIff(rest, answer, k - 1);
      assert forall j :: 0 <= j < k - 1 ==> rest[j] == accs[j + 1];
    }
  }

  /** A `false` from one `register` call does not stop the later ones. */
  lemma RefusalDoesNotStopLater(p: Platform, answer: string -> RegisterAnswer, k: nat)
    requires k < 5
    requires answer(RegistrationOrder(p)[k]) == Accepted
    requires forall j :: 0 <= j < k ==> answer(RegistrationOrder(p)[j]) != Throws
    ensures RegistrationOrder(p)[k] in RegisteredAfterPass(p, answer)
  {
    RegistrationOrderDistinct(p);
    RegisteredAmongIff(RegistrationOrder(p), answer, k);
  }

  /** A `register` call that throws aborts the rest of the pass: neither it nor any later
      accelerator is registered. */
  lemma ThrowAbortsRest(p: Platform, answer: string -> RegisterAnswer, k: nat, j: nat)
    requires k <= j < 5
    requires answer(RegistrationOrder(p)[k]) == Throws
    ensures RegistrationOrder(p)[j] !in RegisteredAfterPass(p, answer)
  {
    RegistrationOrderDistinct(p);
    RegisteredAmongIff(RegistrationOrder(p), answer, j);
  }

  /** After a pass, `areShortcutsRegistered` holds iff the three capture accelerators were
      each answered `Accepted` (which already rules out an earlier throw). */
  lemma CaptureRegisteredAfterPassIff(p: Platform, answer: string -> RegisterAnswer)
    ensures CaptureShortcutsRegistered(RegisteredAfterPass(p, answer)) <==>
      answer(TranslateSelection) == Accepted && answer(TranslateSelectionAlt) == Accepted &&
      answer(OcrShortcut) == Accepted
  {
    var order := RegistrationOrder(p);
    RegistrationOrderDistinct(p);
    RegisteredAmongIff(order, answer, 0);
    RegisteredAmongIff(order, answer, 1);
    RegisteredAmongIff(order, answer, 2);
  }

  /** `areShortcutsRegistered` ignores the toggle and pin accelerators. */
  lemma CaptureCheckIgnoresToggleAndPin(p: Platform, registry: set<string>)
    ensures CaptureShortcutsRegistered(registry + {ToggleWindow(p), PinWindow(p)}) ==
      CaptureShortcutsRegistered(registry - {ToggleWindow(p), PinWindow(p)})
  {
  }
}
